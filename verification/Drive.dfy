/** The virtual drive's tree and the flat map from paths to entries it stands for. */
module Drive {
  import opened Base
  import opened Paths

  datatype Node = Dir(children: map<string, Node>) | File(content: string)

  datatype Entry = DirEntry | FileEntry(content: string)

  datatype DriveError = MalformedPath | NoParent | AlreadyExists | NotFound | NotEmpty | NotADirectory
      | IsDirectory | OtherDirectory

  /** The drive as its users see it: which paths exist, and what is there. */
  type FlatDrive = imap<Path, Entry>

  function NodeAt(n: Node, parts: Path): Option<Node>
    decreases |parts|
  {
    if parts == [] then Some(n)
    else if n.Dir? && parts[0] in n.children then NodeAt(n.children[parts[0]], parts[1..])
    else None
  }

  function EntryOf(n: Node): Entry {
    match n
    case Dir(_) => DirEntry
    case File(content) => FileEntry(content)
  }

  function EntryAt(n: Node, parts: Path): Option<Entry> {
    var at := NodeAt(n, parts);
    if at.Some? then Some(EntryOf(at.value)) else None
  }

  ghost function Flat(n: Node): FlatDrive {
    imap p: Path | EntryAt(n, p).Some? :: EntryAt(n, p).value
  }

  /** The tree with the child `name` of directory `parent` replaced by `child`, or removed. */
  function Put(n: Node, parent: Path, name: string, child: Option<Node>): (r: Node)
    requires NodeAt(n, parent).Some? && NodeAt(n, parent).value.Dir?
    ensures r.Dir?
    decreases |parent|
  {
    if parent == [] then
      Dir(if child.Some? then n.children[name := child.value] else n.children - {name})
    else
      Dir(n.children[parent[0] := Put(n.children[parent[0]], parent[1..], name, child)])
  }

  /** A replacement shows exactly below the replaced path; everywhere else entries stay as they were. */
  lemma {:induction false} PutEntry(n: Node, parent: Path, name: string, child: Option<Node>, q: Path)
    requires NodeAt(n, parent).Some? && NodeAt(n, parent).value.Dir?
    ensures var target := parent + [name];
      EntryAt(Put(n, parent, name, child), q) ==
        if target <= q then (if child.Some? then EntryAt(child.value, q[|target|..]) else None) else EntryAt(n, q)
    decreases |parent|
  {
    var target := parent + [name];
    if q == [] {
    } else if parent == [] {
      assert target == [name];
    } else {
      assert target == [parent[0]] + (parent[1..] + [name]);
      if q[0] == parent[0] {
        PutEntry(n.children[parent[0]], parent[1..], name, child, q[1..]);
        assert target <= q <==> parent[1..] + [name] <= q[1..] by {
          assert target[1..] == parent[1..] + [name];
          assert q == [q[0]] + q[1..];
        }
        if target <= q { assert q[1..][|target| - 1..] == q[|target|..]; }
      } else {
        assert !(target <= q);
      }
    }
  }

  /** Every prefix of an existing path exists, and proper prefixes are directories. */
  lemma {:induction false} PrefixesAreDirectories(n: Node, p: Path, k: nat)
    requires EntryAt(n, p).Some? && k < |p|
    ensures EntryAt(n, p[..k]) == Some(DirEntry)
    decreases |p|
  {
    if k > 0 {
      PrefixesAreDirectories(n.children[p[0]], p[1..], k - 1);
      assert p[..k][1..] == p[1..][..k - 1];
    }
  }

  lemma {:induction false} NodeAtAppend(n: Node, p: Path, q: Path)
    ensures NodeAt(n, p + q) == if NodeAt(n, p).Some? then NodeAt(NodeAt(n, p).value, q) else None
    decreases |p|
  {
    if p == [] {
      assert p + q == q;
    } else {
      assert (p + q)[1..] == p[1..] + q;
      if n.Dir? && p[0] in n.children { NodeAtAppend(n.children[p[0]], p[1..], q); }
    }
  }

  /** The flat map loses nothing: trees with the same flat map are the same tree. */
  lemma {:induction false} FlatDeterminesTree(a: Node, b: Node)
    requires forall p :: EntryAt(a, p) == EntryAt(b, p)
    ensures a == b
    decreases a
  {
    assert EntryAt(a, []) == EntryAt(b, []);
    if a.Dir? {
      forall k ensures k in a.children <==> k in b.children {
        ChildEntry(a, k, []);
        ChildEntry(b, k, []);
        assert EntryAt(a, [k]) == EntryAt(b, [k]);
      }
      forall k | k in a.children ensures a.children[k] == b.children[k] {
        forall p ensures EntryAt(a.children[k], p) == EntryAt(b.children[k], p) {
          ChildEntry(a, k, p);
          ChildEntry(b, k, p);
          assert EntryAt(a, [k] + p) == EntryAt(b, [k] + p);
        }
        FlatDeterminesTree(a.children[k], b.children[k]);
      }
      assert a.children == b.children;
    }
  }

  lemma {:induction false} ChildEntry(n: Node, k: string, p: Path)
    ensures [k] + [] == [k]
    ensures EntryAt(n, [k] + p) == if n.Dir? && k in n.children then EntryAt(n.children[k], p) else None
  {
    assert ([k] + p)[1..] == p;
  }

  // What each command does to the flat map, said without reference to any tree.

  ghost predicate IsDir(f: FlatDrive, p: Path) {
    p in f && f[p] == DirEntry
  }

  function Parent(p: Path): Path
    requires p != []
  {
    p[..|p| - 1]
  }

  ghost predicate HasChildren(f: FlatDrive, p: Path) {
    exists name :: p + [name] in f
  }

  ghost function Without(f: FlatDrive, p: Path): FlatDrive {
    imap q | q in f && q != p :: f[q]
  }

  ghost function WithoutSubtree(f: FlatDrive, p: Path): FlatDrive {
    imap q | q in f && !(p <= q) :: f[q]
  }

  ghost function Mkdir(f: FlatDrive, p: Path): (Result<(), DriveError>, FlatDrive) {
    if p == [] then (Err(MalformedPath), f)
    else if !IsDir(f, Parent(p)) then (Err(NoParent), f)
    else if p in f then (Err(AlreadyExists), f)
    else (Ok(()), f[p := DirEntry])
  }

  ghost function Rmdir(f: FlatDrive, p: Path): (Result<(), DriveError>, FlatDrive) {
    if p == [] then (Err(MalformedPath), f)
    else if p !in f then (Err(NotFound), f)
    else if f[p].FileEntry? then (Err(NotADirectory), f)
    else if HasChildren(f, p) then (Err(NotEmpty), f)
    else (Ok(()), Without(f, p))
  }

  ghost function Rm(f: FlatDrive, p: Path): (Result<(), DriveError>, FlatDrive) {
    if p == [] then (Err(MalformedPath), f)
    else if p !in f then (Err(NotFound), f)
    else if HasChildren(f, p) then (Err(NotEmpty), f)
    else (Ok(()), Without(f, p))
  }

  ghost function Touch(f: FlatDrive, p: Path): (Result<(), DriveError>, FlatDrive) {
    if p == [] then (Err(MalformedPath), f)
    else if !IsDir(f, Parent(p)) then (Err(NoParent), f)
    else if p in f then (Ok(()), f)
    else (Ok(()), f[p := FileEntry("")])
  }

  ghost function Cat(f: FlatDrive, p: Path): Result<string, DriveError> {
    if p == [] || p !in f then Err(NotFound)
    else if f[p].DirEntry? then Err(IsDirectory)
    else Ok(f[p].content)
  }

  /** Appending a line: a newline first if the text so far does not end in one, and one after. */
  function AppendLine(content: string, text: string): string {
    (if content != "" && content[|content| - 1] != '\n' then content + "\n" else content) + text + "\n"
  }

  /** Writing onto a directory is the caller's error: the program panics there. */
  ghost predicate Writable(f: FlatDrive, p: Path) {
    p != [] ==> !IsDir(f, p)
  }

  ghost function Write(f: FlatDrive, p: Path, text: string): (Result<(), DriveError>, FlatDrive)
    requires Writable(f, p)
  {
    var (r, touched) := Touch(f, p);
    if r.Err? then (r, f) else (Ok(()), touched[p := FileEntry(AppendLine(touched[p].content, text))])
  }

  ghost function Copy(f: FlatDrive, src: Path, dst: Path): (Result<(), DriveError>, FlatDrive)
    requires Cat(f, src).Ok? ==> Writable(f, dst)
  {
    var content := Cat(f, src);
    if content.Err? then (Err(content.error), f) else Write(f, dst, content.value)
  }

  ghost function Move(f: FlatDrive, src: Path, dst: Path): (Result<(), DriveError>, FlatDrive)
    requires Cat(f, src).Ok? ==> Writable(f, dst)
  {
    var (r, copied) := Copy(f, src, dst);
    if r.Err? then (r, f) else (Ok(()), Without(copied, src))
  }

  ghost function Rename(f: FlatDrive, source: Path, target: Path): (Result<(), DriveError>, FlatDrive) {
    var content := Cat(f, source);
    if content.Err? then (Err(content.error), f)
    else if target == [] then (Err(MalformedPath), f)
    else if Parent(source) != Parent(target) then (Err(OtherDirectory), f)
    else (Ok(()), WithoutSubtree(Without(f, source), target)[target := FileEntry(content.value)])
  }

  lemma {:induction false} FlatEntry(n: Node, p: Path)
    ensures p in Flat(n) <==> EntryAt(n, p).Some?
    ensures p in Flat(n) ==> Flat(n)[p] == EntryAt(n, p).value
  {
  }

  /** A tree's flat map is prefix-closed: nothing exists below a file or below a path that does not exist. */
  lemma {:induction false} NothingBelow(n: Node, p: Path, q: Path)
    requires p <= q && p != q && q in Flat(n)
    ensures IsDir(Flat(n), p)
  {
    PrefixesAreDirectories(n, q, |p|);
    assert q[..|p|] == p;
  }

  lemma {:induction false} ChildrenAreFlat(n: Node, p: Path)
    requires NodeAt(n, p).Some?
    ensures HasChildren(Flat(n), p) <==> NodeAt(n, p).value.Dir? && NodeAt(n, p).value.children != map[]
  {
    var d := NodeAt(n, p).value;
    if d.Dir? && d.children != map[] {
      var name :| name in d.children;
      NodeAtAppend(n, p, [name]);
      assert NodeAt(d, [name]).Some?;
      assert p + [name] in Flat(n);
    }
    if name :| p + [name] in Flat(n) {
      NodeAtAppend(n, p, [name]);
      assert NodeAt(d, [name]).Some?;
    }
  }

  lemma {:induction false} LeafEntries(leaf: Node, t: Path)
    requires leaf.Dir? ==> leaf.children == map[]
    ensures EntryAt(leaf, t) == if t == [] then Some(EntryOf(leaf)) else None
  {
  }

  lemma {:induction false} PutLeafEntry(n: Node, parent: Path, name: string, leaf: Node, q: Path)
    requires NodeAt(n, parent).Some? && NodeAt(n, parent).value.Dir?
    requires leaf.Dir? ==> leaf.children == map[]
    ensures EntryAt(Put(n, parent, name, Some(leaf)), q) ==
      if q == parent + [name] then Some(EntryOf(leaf)) else if parent + [name] <= q then None else EntryAt(n, q)
  {
    var target := parent + [name];
    PutEntry(n, parent, name, Some(leaf), q);
    if target <= q {
      LeafEntries(leaf, q[|target|..]);
      assert q == target + q[|target|..];
    }
  }

  /** Inserting a file or an empty directory. */
  lemma {:induction false} PutLeafIsFlat(n: Node, parent: Path, name: string, leaf: Node)
    requires NodeAt(n, parent).Some? && NodeAt(n, parent).value.Dir?
    requires leaf.Dir? ==> leaf.children == map[]
    ensures Flat(Put(n, parent, name, Some(leaf))) ==
      WithoutSubtree(Flat(n), parent + [name])[parent + [name] := EntryOf(leaf)]
  {
    var target := parent + [name];
    var l, r := Flat(Put(n, parent, name, Some(leaf))), WithoutSubtree(Flat(n), target)[target := EntryOf(leaf)];
    forall q ensures q in l <==> q in r
             ensures q in l ==> l[q] == r[q] {
      PutLeafEntry(n, parent, name, leaf, q);
    }
    assert l == r;
  }

  /** Removing a file or an empty directory. */
  lemma {:induction false} RemoveLeafIsFlat(n: Node, parent: Path, name: string)
    requires NodeAt(n, parent).Some? && NodeAt(n, parent).value.Dir?
    ensures Flat(Put(n, parent, name, None)) == WithoutSubtree(Flat(n), parent + [name])
  {
    forall q ensures EntryAt(Put(n, parent, name, None), q) == if parent + [name] <= q then None else EntryAt(n, q) {
      PutEntry(n, parent, name, None, q);
    }
  }

  lemma {:induction false} ChildOnTheWay(n: Node, p: Path, q: Path)
    requires p <= q && p != q && q in Flat(n)
    ensures HasChildren(Flat(n), p)
  {
    var child := q[..|p| + 1];
    assert child == p + [q[|p|]];
    if child != q { NothingBelow(n, child, q); }
    assert child in Flat(n);
  }

  /** Where there is nothing below a path, its subtree is the path itself. */
  lemma {:induction false} LeafSubtree(n: Node, p: Path)
    requires !HasChildren(Flat(n), p)
    ensures WithoutSubtree(Flat(n), p) == Without(Flat(n), p)
  {
    forall q | q in Flat(n) && p <= q ensures q == p {
      if q != p { ChildOnTheWay(n, p, q); }
    }
  }
}
