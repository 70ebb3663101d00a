/** Lexical path resolution of the virtual drive. */
module Paths {
  import opened Base

  type Path = seq<string>

  /** `path.split('/')`: always at least one piece. */
  function Split(s: string): (r: seq<string>)
    ensures |r| >= 1
  {
    if s == "" then [""]
    else
      var rest := Split(s[1..]);
      if s[0] == '/' then [""] + rest else [[s[0]] + rest[0]] + rest[1..]
  }

  /** `join("/")`. */
  function Join(parts: Path): string {
    if parts == [] then "" else if |parts| == 1 then parts[0] else parts[0] + "/" + Join(parts[1..])
  }

  /** One piece: empty and `.` are skipped, `..` drops the last part (if there is one), a name is appended. */
  function Apply(parts: Path, piece: string): Path {
    if piece == "" || piece == "." then parts
    else if piece == ".." then (if parts == [] then parts else parts[..|parts| - 1])
    else parts + [piece]
  }

  function ApplyAll(parts: Path, pieces: seq<string>): Path
    decreases |pieces|
  {
    if pieces == [] then parts else ApplyAll(Apply(parts, pieces[0]), pieces[1..])
  }

  predicate Absolute(path: string) {
    path != "" && path[0] == '/'
  }

  /** `split_path`: the canonical parts of `path`, taken from `cwd` unless it is absolute. */
  function Resolve(cwd: Path, path: string): Path {
    ApplyAll(if Absolute(path) then [] else cwd, Split(path))
  }

  /** `cwd_string`. */
  function Print(parts: Path): string {
    if parts == [] then "/" else "/" + Join(parts)
  }

  predicate CanonicalName(name: string) {
    name != "" && name != "." && name != ".." && '/' !in name
  }

  ghost predicate Canonical(parts: Path) {
    forall i :: 0 <= i < |parts| ==> CanonicalName(parts[i])
  }

  /** The loop of `split_path`. */
  method SplitPath(cwd: Path, path: string) returns (parts: Path)
    ensures parts == Resolve(cwd, path)
    ensures Canonical(cwd) ==> Canonical(parts)
  {
    parts := if Absolute(path) then [] else cwd;
    var pieces := Split(path);
    for i := 0 to |pieces|
      invariant ApplyAll(parts, pieces[i..]) == Resolve(cwd, path)
    {
      SuffixStep(pieces, i);
      if pieces[i] == "" || pieces[i] == "." {
      } else if pieces[i] == ".." {
        if parts != [] {
          parts := parts[..|parts| - 1];
        }
      } else {
        parts := parts + [pieces[i]];
      }
    }
    assert pieces[|pieces|..] == [];
    if Canonical(cwd) { ResolveIsCanonical(cwd, path); }
  }

  lemma {:induction false} SplitPieces(s: string)
    ensures forall i :: 0 <= i < |Split(s)| ==> '/' !in Split(s)[i]
  {
    if s != "" { SplitPieces(s[1..]); }
  }

  lemma {:induction false} ApplyAllCanonical(parts: Path, pieces: seq<string>)
    requires Canonical(parts) && forall i :: 0 <= i < |pieces| ==> '/' !in pieces[i]
    ensures Canonical(ApplyAll(parts, pieces))
    decreases |pieces|
  {
    if pieces != [] { ApplyAllCanonical(Apply(parts, pieces[0]), pieces[1..]); }
  }

  /** Resolution never leaves an empty part, `.`, `..` or a slash in the result. */
  lemma {:induction false} ResolveIsCanonical(cwd: Path, path: string)
    requires Canonical(cwd)
    ensures Canonical(Resolve(cwd, path))
  {
    SplitPieces(path);
    ApplyAllCanonical(if Absolute(path) then [] else cwd, Split(path));
  }

  lemma {:induction false} ApplyAllAppend(parts: Path, a: seq<string>, b: seq<string>)
    ensures ApplyAll(parts, a + b) == ApplyAll(ApplyAll(parts, a), b)
    decreases |a|
  {
    if a == [] {
      assert a + b == b;
    } else {
      assert (a + b)[1..] == a[1..] + b;
      ApplyAllAppend(Apply(parts, a[0]), a[1..], b);
    }
  }

  lemma {:induction false} ConsConcat<T>(x: T, a: seq<T>, b: seq<T>)
    ensures [x] + (a + b) == [x] + a + b
    ensures a != [] ==> (a + b)[0] == a[0] && [x] + (a + b)[1..] == [x] + a[1..] + b
  {
  }

  lemma {:induction false} SplitAtSlash(p: string, q: string)
    ensures Split(p + "/" + q) == Split(p) + Split(q)
  {
    var s := p + "/" + q;
    if p == "" {
      assert s[1..] == q;
    } else {
      assert s[0] == p[0] && s[1..] == p[1..] + "/" + q;
      SplitAtSlash(p[1..], q);
      var front, back := Split(p[1..]), Split(q);
      ConsConcat("", front, back);
      ConsConcat([p[0]] + front[0], front, back);
    }
  }

  lemma {:induction false} ApplyLast(parts: Path, pieces: seq<string>, last: string)
    ensures ApplyAll(parts, pieces + [last]) == Apply(ApplyAll(parts, pieces), last)
  {
    ApplyAllAppend(parts, pieces, [last]);
    var before := ApplyAll(parts, pieces);
    assert ApplyAll(before, [last]) == ApplyAll(Apply(before, last), []);
  }

  /** One more piece acts on what the path before it resolves to. */
  lemma {:induction false} ResolveLast(cwd: Path, q: string, piece: string)
    requires '/' !in piece && (q != "" || cwd == [])
    ensures Resolve(cwd, q + "/" + piece) == Apply(Resolve(cwd, q), piece)
  {
    SplitAtSlash(q, piece);
    SplitName(piece);
    var base := if Absolute(q) then [] else cwd;
    ApplyLast(base, Split(q), piece);
    assert q != "" ==> (q + "/" + piece)[0] == q[0];
  }

  /** A name goes down, `..` goes up from wherever the path before it leads, and stays at the root, and `.` and nothing
      stay: for every working directory and every path, relative or absolute. */
  lemma {:induction false} StepsResolve(cwd: Path, q: string, name: string)
    requires CanonicalName(name) && (q != "" || cwd == [])
    ensures var p := Resolve(cwd, q);
      && Resolve(cwd, q + "/" + name) == p + [name]
      && Resolve(cwd, q + "/..") == (if p == [] then [] else p[..|p| - 1])
      && Resolve(cwd, q + "/.") == p
      && Resolve(cwd, q + "/") == p
  {
    ResolveLast(cwd, q, name);
    ResolveLast(cwd, q, "..");
    ResolveLast(cwd, q, ".");
    ResolveLast(cwd, q, "");
    assert q + "/" + ".." == q + "/.." && q + "/" + "." == q + "/." && q + "/" + "" == q + "/";
  }

  /** The same from a working directory with one piece, and with none. */
  lemma {:induction false} PiecesResolve(cwd: Path, name: string)
    requires CanonicalName(name)
    ensures Resolve(cwd, name) == cwd + [name]
    ensures Resolve(cwd + [name], "..") == cwd && Resolve([], "..") == []
    ensures Resolve(cwd, ".") == cwd && Resolve(cwd, "") == cwd && Resolve(cwd, "/") == []
  {
    SplitName(name);
    SplitName("..");
    SplitName(".");
    SplitAtSlash("", "");
    ApplyLast(cwd, [], name);
    ApplyLast(cwd + [name], [], "..");
    ApplyLast([], [], "..");
    ApplyLast(cwd, [], ".");
    assert [] + [name] == [name] && [] + [".."] == [".."] && [] + ["."] == ["."];
    assert "" + "/" + "" == "/" && Split("/") == ["", ""];
    assert ["", ""][1..] == [""];
  }

  /** An absolute path resolves from the root, wherever one is. */
  lemma {:induction false} AbsoluteResolves(cwd: Path, q: string)
    ensures Resolve(cwd, "/" + q) == Resolve([], q)
  {
    var s := "/" + q;
    assert s[0] == '/' && s[1..] == q;
    assert Split(s) == [""] + Split(q);
    assert Split(s)[1..] == Split(q);
  }

  /** Resolving p and then a relative q from there is resolving p + "/" + q, for every relative q, exactly when p is
      not the empty path of a directory below the root: then p + "/" + q would start at the root. */
  lemma {:induction false} ResolveComposes(cwd: Path, p: string)
    ensures (forall q :: !Absolute(q) ==> Resolve(Resolve(cwd, p), q) == Resolve(cwd, p + "/" + q)) <==>
      p != "" || cwd == []
  {
    forall q | !Absolute(q) && (p != "" || cwd == []) ensures Resolve(Resolve(cwd, p), q) == Resolve(cwd, p + "/" + q) {
      SplitAtSlash(p, q);
      assert p != "" ==> (p + "/" + q)[0] == p[0];
      ApplyAllAppend(if Absolute(p + "/" + q) then [] else cwd, Split(p), Split(q));
    }
    if p == "" && cwd != [] {
      var q := "";
      assert p + "/" + q == "/";
      SplitRoot();
      assert ApplyAll(cwd, [""]) == ApplyAll(cwd, [""][1..]);
      assert Resolve(Resolve(cwd, p), q) == cwd;
    }
  }

  lemma {:induction false} SplitRoot()
    ensures ApplyAll([], Split("/")) == []
  {
    assert "/"[1..] == "";
    assert Split("/") == ["", ""];
    assert ["", ""][1..] == [""];
  }

  lemma {:induction false} SplitName(name: string)
    requires '/' !in name
    ensures Split(name) == [name]
  {
    if name != "" {
      SplitName(name[1..]);
      assert [name[0]] + name[1..] == name;
    }
  }

  lemma {:induction false} SplitJoin(parts: Path)
    requires Canonical(parts) && parts != []
    ensures Split(Join(parts)) == parts
  {
    SplitName(parts[0]);
    if |parts| > 1 {
      SplitJoin(parts[1..]);
      SplitAtSlash(parts[0], Join(parts[1..]));
      assert parts == [parts[0]] + parts[1..];
    }
  }

  lemma {:induction false} ApplyNames(parts: Path, names: Path)
    requires Canonical(names)
    ensures ApplyAll(parts, names) == parts + names
    decreases |names|
  {
    if names != [] {
      ApplyNames(parts + [names[0]], names[1..]);
      assert parts + [names[0]] + names[1..] == parts + names;
    }
  }

  /** Printing a canonical path and resolving the text, from anywhere, gives the path back. */
  lemma {:induction false} PrintResolves(cwd: Path, parts: Path)
    requires Canonical(parts)
    ensures Resolve(cwd, Print(parts)) == parts
  {
    if parts == [] {
      SplitRoot();
    } else {
      var j := Join(parts);
      SplitJoin(parts);
      assert ("/" + j)[1..] == j;
      assert Split("/" + j) == [""] + parts;
      assert ([""] + parts)[1..] == parts;
      ApplyNames([], parts);
    }
  }

  /** The printed form: a slash before every part, and a lone slash for the root. */
  lemma {:induction false} PrintSnoc(parts: Path, name: string)
    ensures Print([]) == "/"
    ensures Print(parts + [name]) == (if parts == [] then "" else Print(parts)) + "/" + name
  {
    JoinSnoc(parts, name);
  }

  lemma {:induction false} JoinSnoc(parts: Path, name: string)
    ensures Join(parts + [name]) == if parts == [] then name else Join(parts) + "/" + name
  {
    if parts == [] {
    } else {
      JoinSnoc(parts[1..], name);
      assert (parts + [name])[1..] == parts[1..] + [name];
      assert |parts| > 1 ==> Join(parts) == parts[0] + "/" + Join(parts[1..]);
    }
  }
}
