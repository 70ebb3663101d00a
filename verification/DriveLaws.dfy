/** What the drive's commands do to the paths of a drive, path by path: when each succeeds, how it fails, what is there
    afterwards, and what one command makes of another. */
module DriveLaws {
  import opened Base
  import opened Paths
  import opened Drive

  ghost predicate SameAt(f: FlatDrive, g: FlatDrive, q: Path) {
    (q in f <==> q in g) && (q in f ==> f[q] == g[q])
  }

  ghost predicate SameExcept(f: FlatDrive, g: FlatDrive, p: Path) {
    forall q :: q != p ==> SameAt(f, g, q)
  }

  ghost predicate HasFolder(f: FlatDrive, p: Path)
    requires p != []
  {
    p[..|p| - 1] in f && f[p[..|p| - 1]] == DirEntry
  }

  ghost predicate HasText(f: FlatDrive, p: Path, text: string) {
    p in f && f[p] == FileEntry(text)
  }

  lemma {:induction false} MkdirLaw(f: FlatDrive, p: Path)
    ensures var (r, g) := Mkdir(f, p);
      && (p == [] ==> r == Err(MalformedPath))
      && (p != [] && !HasFolder(f, p) ==> r == Err(NoParent))
      && (p != [] && HasFolder(f, p) && p in f ==> r == Err(AlreadyExists))
      && (p != [] && HasFolder(f, p) && p !in f ==>
            r == Ok(()) && p in g && g[p] == DirEntry && SameExcept(f, g, p))
      && (r.Err? ==> g == f)
  {
  }

  lemma {:induction false} RmdirLaw(f: FlatDrive, p: Path)
    ensures var (r, g) := Rmdir(f, p); var occupied := exists name :: p + [name] in f;
      && (p == [] ==> r == Err(MalformedPath))
      && (p != [] && p !in f ==> r == Err(NotFound))
      && (p != [] && p in f && f[p].FileEntry? ==> r == Err(NotADirectory))
      && (p != [] && p in f && f[p].DirEntry? && occupied ==> r == Err(NotEmpty))
      && (p != [] && p in f && f[p].DirEntry? && !occupied ==> r == Ok(()) && p !in g && SameExcept(f, g, p))
      && (r.Err? ==> g == f)
  {
  }

  lemma {:induction false} RmLaw(f: FlatDrive, p: Path)
    ensures var (r, g) := Rm(f, p); var occupied := exists name :: p + [name] in f;
      && (p == [] ==> r == Err(MalformedPath))
      && (p != [] && p !in f ==> r == Err(NotFound))
      && (p != [] && p in f && occupied ==> r == Err(NotEmpty))
      && (p != [] && p in f && !occupied ==> r == Ok(()) && p !in g && SameExcept(f, g, p))
      && (r.Err? ==> g == f)
  {
  }

  lemma {:induction false} TouchLaw(f: FlatDrive, p: Path)
    ensures var (r, g) := Touch(f, p);
      && (p == [] ==> r == Err(MalformedPath))
      && (p != [] && !HasFolder(f, p) ==> r == Err(NoParent))
      && (p != [] && HasFolder(f, p) && p in f ==> r == Ok(()) && g == f)
      && (p != [] && HasFolder(f, p) && p !in f ==> r == Ok(()) && HasText(g, p, "") && SameExcept(f, g, p))
      && (r.Err? ==> g == f)
  {
  }

  lemma {:induction false} CatLaw(f: FlatDrive, p: Path)
    ensures p == [] || p !in f ==> Cat(f, p) == Err(NotFound)
    ensures p != [] && p in f && f[p].DirEntry? ==> Cat(f, p) == Err(IsDirectory)
    ensures forall text :: p != [] && HasText(f, p, text) ==> Cat(f, p) == Ok(text)
  {
  }

  /** The old text stays in front, the new text is the last line, and it starts on a line of its own. */
  lemma {:induction false} AppendLineLaw(content: string, text: string)
    ensures var r := AppendLine(content, text);
      && content <= r
      && |r| > |text| && r[|r| - |text| - 1..] == text + "\n"
      && (content == "" || content[|content| - 1] == '\n' ==> |r| == |content| + |text| + 1)
      && (content != "" && content[|content| - 1] != '\n' ==>
            |r| == |content| + |text| + 2 && r[|content|] == '\n')
  {
  }

  /** What is written is read back, after what was there, as a line; nothing else changes. */
  lemma {:induction false} WriteLaw(f: FlatDrive, p: Path, text: string)
    requires Writable(f, p)
    ensures var (r, g) := Write(f, p, text);
      && (p == [] ==> r == Err(MalformedPath))
      && (p != [] && !HasFolder(f, p) ==> r == Err(NoParent))
      && (r.Ok? <==> p != [] && HasFolder(f, p))
      && (r.Ok? ==>
            && SameExcept(f, g, p)
            && Cat(g, p) == Ok(AppendLine(if p in f && f[p].FileEntry? then f[p].content else "", text)))
      && (r.Err? ==> g == f)
  {
  }

  /** A file just made and written holds the text and a newline; made and removed, it is as if it had never been. */
  lemma {:induction false} FreshFileLaw(f: FlatDrive, p: Path, text: string)
    requires p != [] && HasFolder(f, p) && p !in f && !exists name :: p + [name] in f
    ensures Cat(Write(Touch(f, p).1, p, text).1, p) == Ok(text + "\n")
    ensures Rm(Touch(f, p).1, p) == (Ok(()), f)
  {
    var made := Touch(f, p).1;
    WriteLaw(made, p, text);
    assert "" + text + "\n" == text + "\n";
    forall name ensures p + [name] !in made {}
    assert Without(made, p) == f;
  }

  /** A copy holds the source's text as further lines, and the source stays. */
  lemma {:induction false} CopyLaw(f: FlatDrive, src: Path, dst: Path, text: string)
    requires src != [] && HasText(f, src, text) && Writable(f, dst)
    ensures var (r, g) := Copy(f, src, dst);
      && (r.Ok? <==> dst != [] && HasFolder(f, dst))
      && (r.Ok? ==>
            && SameExcept(f, g, dst)
            && Cat(g, dst) == Ok(AppendLine(if dst in f then f[dst].content else "", text)))
      && (r.Ok? && src != dst ==> Cat(g, src) == Ok(text))
      && (r.Err? ==> g == f && r == Err(if dst == [] then MalformedPath else NoParent))
  {
  }

  /** A move ends as the copy does, and then the source is gone. */
  lemma {:induction false} MoveLaw(f: FlatDrive, src: Path, dst: Path, text: string)
    requires src != [] && HasText(f, src, text) && Writable(f, dst)
    ensures var (r, g) := Move(f, src, dst);
      && (r.Ok? <==> dst != [] && HasFolder(f, dst))
      && (r.Ok? ==> src !in g && forall q :: q != src && q != dst ==> SameAt(f, g, q))
      && (r.Ok? && src != dst ==> Cat(g, dst) == Ok(AppendLine(if dst in f then f[dst].content else "", text)))
      && (r.Err? ==> g == f && r == Err(if dst == [] then MalformedPath else NoParent))
  {
    CopyLaw(f, src, dst, text);
  }

  /** A source that is no file is reported as reading it would be, by all commands that read first. */
  lemma {:induction false} NoSourceLaw(f: FlatDrive, src: Path, dst: Path)
    requires Cat(f, src).Err?
    ensures var e := if src != [] && src in f then IsDirectory else NotFound;
      Copy(f, src, dst) == Move(f, src, dst) == Rename(f, src, dst) == (Err(e), f)
  {
  }

  /** Renaming moves the text to a name in the same directory. The old name is free unless it is the new one, whatever
      the new name held is gone with all below it, and nothing else changes. */
  lemma {:induction false} RenameLaw(f: FlatDrive, source: Path, target: Path, text: string)
    requires source != [] && HasText(f, source, text)
    ensures var (r, g) := Rename(f, source, target);
      && (target == [] ==> r == Err(MalformedPath))
      && (target != [] && source[..|source| - 1] != target[..|target| - 1] ==> r == Err(OtherDirectory))
      && (r.Ok? <==> target != [] && source[..|source| - 1] == target[..|target| - 1])
      && (r.Ok? ==>
            && Cat(g, target) == Ok(text)
            && (source in g <==> source == target)
            && (forall q :: target <= q && q != target ==> q !in g)
            && (forall q :: q != source && !(target <= q) ==> SameAt(f, g, q)))
      && (r.Err? ==> g == f)
  {
    if source != target && target != [] && source[..|source| - 1] == target[..|target| - 1] {
      assert !(target <= source);
    }
  }
}
