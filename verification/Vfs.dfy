/** The virtual drive itself: a tree changed in place, every command proved against the flat map. */
module VirtualDrive {
  import opened Base
  import opened Paths
  import opened Drive

  ghost predicate CanonicalNames(n: Node) {
    forall p :: p in Flat(n) ==> Canonical(p)
  }

  lemma {:induction false} ChildFacts(n: Node, p: Path)
    requires p != []
    ensures Parent(p) + [p[|p| - 1]] == p
    ensures NodeAt(n, p) == var d := NodeAt(n, Parent(p)); var name := p[|p| - 1];
      if d.Some? && d.value.Dir? && name in d.value.children then Some(d.value.children[name]) else None
  {
    var name := p[|p| - 1];
    assert Parent(p) + [name] == p;
    NodeAtAppend(n, Parent(p), [name]);
    assert [name][1..] == [];
    var d := NodeAt(n, Parent(p));
    if d.Some? && d.value.Dir? && name in d.value.children {
      assert NodeAt(d.value.children[name], []) == Some(d.value.children[name]);
    }
  }

  /** The parent of a path, looked up: the directory to change, if there is one. */
  lemma {:induction false} ParentFacts(n: Node, p: Path)
    requires p != []
    ensures IsDir(Flat(n), Parent(p)) <==> NodeAt(n, Parent(p)).Some? && NodeAt(n, Parent(p)).value.Dir?
    ensures p in Flat(n) ==> IsDir(Flat(n), Parent(p))
    ensures IsDir(Flat(n), Parent(p)) ==>
      (var d := NodeAt(n, Parent(p)).value.children; var name := p[|p| - 1];
        && (p in Flat(n) <==> name in d)
        && (name in d ==> NodeAt(n, p) == Some(d[name]) && Flat(n)[p] == EntryOf(d[name])))
    ensures Parent(p) + [p[|p| - 1]] == p
  {
    ChildFacts(n, p);
    FlatEntry(n, p);
    FlatEntry(n, Parent(p));
  }

  /** Putting a leaf where nothing has children is one update of the flat map. */
  lemma {:induction false} PutMeans(n: Node, p: Path, leaf: Node)
    requires p != [] && IsDir(Flat(n), Parent(p)) && !HasChildren(Flat(n), p)
    requires leaf.Dir? ==> leaf.children == map[]
    requires NodeAt(n, Parent(p)).Some? && NodeAt(n, Parent(p)).value.Dir?
    ensures Flat(Put(n, Parent(p), p[|p| - 1], Some(leaf))) == Flat(n)[p := EntryOf(leaf)]
  {
    ParentFacts(n, p);
    PutLeafIsFlat(n, Parent(p), p[|p| - 1], leaf);
    LeafSubtree(n, p);
  }

  /** Replacing a file's text is one update of the flat map. */
  lemma {:induction false} WriteMeans(n: Node, p: Path, content: string)
    requires p != [] && IsDir(Flat(n), Parent(p)) && !IsDir(Flat(n), p)
    requires NodeAt(n, Parent(p)).Some? && NodeAt(n, Parent(p)).value.Dir?
    ensures Flat(Put(n, Parent(p), p[|p| - 1], Some(File(content)))) == Flat(n)[p := FileEntry(content)]
  {
    FilesHaveNoChildren(n, p);
    PutMeans(n, p, File(content));
  }

  lemma {:induction false} RemoveMeans(n: Node, p: Path)
    requires p != [] && IsDir(Flat(n), Parent(p)) && !HasChildren(Flat(n), p)
    requires NodeAt(n, Parent(p)).Some? && NodeAt(n, Parent(p)).value.Dir?
    ensures Flat(Put(n, Parent(p), p[|p| - 1], None)) == Without(Flat(n), p)
  {
    ParentFacts(n, p);
    RemoveLeafIsFlat(n, Parent(p), p[|p| - 1]);
    LeafSubtree(n, p);
  }

  lemma {:induction false} FilesHaveNoChildren(n: Node, p: Path)
    requires !IsDir(Flat(n), p)
    ensures !HasChildren(Flat(n), p)
  {
    if name :| p + [name] in Flat(n) {
      NothingBelow(n, p, p + [name]);
    }
  }

  predicate StandardPath(p: Path) {
    || p == []
    || (|p| == 1 && p[0] in {"bin", "usr", "tmp", "home", "Apps"})
    || (|p| == 2 && p[0] == "Apps" && p[1] in {"Utilities", "Games"})
  }

  const EMPTY := Dir(map[])
  const APPS := Dir(map["Utilities" := EMPTY, "Games" := EMPTY])
  const LAYOUT := Dir(map["bin" := EMPTY, "usr" := EMPTY, "tmp" := EMPTY, "home" := EMPTY, "Apps" := APPS])

  lemma {:induction false} LevelEntries(n: Node, p: Path)
    requires n.Dir? && p != []
    ensures EntryAt(n, p) == if p[0] in n.children then EntryAt(n.children[p[0]], p[1..]) else None
  {
  }

  lemma {:induction false} AppsEntries(p: Path)
    ensures EntryAt(APPS, p) == if p == [] || (|p| == 1 && p[0] in {"Utilities", "Games"}) then Some(DirEntry) else None
  {
    if p != [] {
      LevelEntries(APPS, p);
      LeafEntries(EMPTY, p[1..]);
    }
  }

  lemma {:induction false} LayoutEntries(p: Path)
    ensures EntryAt(LAYOUT, p) == if StandardPath(p) then Some(DirEntry) else None
  {
    if p != [] {
      LevelEntries(LAYOUT, p);
      LeafEntries(EMPTY, p[1..]);
      AppsEntries(p[1..]);
    }
  }

  lemma {:induction false} StandardLayout()
    ensures forall p :: p in Flat(LAYOUT) <==> StandardPath(p)
    ensures forall p :: p in Flat(LAYOUT) ==> Flat(LAYOUT)[p] == DirEntry
    ensures CanonicalNames(LAYOUT)
  {
    forall p ensures p in Flat(LAYOUT) <==> StandardPath(p)
             ensures p in Flat(LAYOUT) ==> Flat(LAYOUT)[p] == DirEntry {
      LayoutEntries(p);
    }
    forall p | StandardPath(p) ensures Canonical(p) {
      StandardNames(p);
    }
  }

  lemma {:induction false} StandardPaths()
    ensures forall p :: StandardPath(p) <==> p in [[], ["bin"], ["usr"], ["tmp"], ["home"], ["Apps"],
                                                   ["Apps", "Utilities"], ["Apps", "Games"]]
  {
    forall p | StandardPath(p)
      ensures p in [[], ["bin"], ["usr"], ["tmp"], ["home"], ["Apps"], ["Apps", "Utilities"], ["Apps", "Games"]]
    {
      assert |p| == 1 ==> p == [p[0]];
      assert |p| == 2 ==> p == [p[0], p[1]];
    }
  }

  lemma {:induction false} StandardNames(p: Path)
    requires StandardPath(p)
    ensures Canonical(p)
  {
  }

  class Vfs {
    var root: Node
    var cwd: Path

    ghost predicate Valid()
      reads this
    {
      root.Dir? && Canonical(cwd) && CanonicalNames(root)
    }

    ghost function View(): FlatDrive
      reads this
    {
      Flat(root)
    }

    /** A fresh drive: the standard directories and nothing else. */
    constructor ()
      ensures Valid() && cwd == []
      ensures forall p :: p in View() <==> p in [[], ["bin"], ["usr"], ["tmp"], ["home"], ["Apps"],
                                                 ["Apps", "Utilities"], ["Apps", "Games"]]
      ensures forall p :: p in View() ==> View()[p] == DirEntry
    {
      root := LAYOUT;
      cwd := [];
      new;
      StandardLayout();
      StandardPaths();
    }

    /** `node_at`: the empty path is nobody's child. */
    function Find(parts: Path): Option<Node>
      reads this
    {
      if parts == [] then None else NodeAt(root, parts)
    }

    /** `dir_for`. */
    predicate HasDir(parts: Path)
      reads this
    {
      NodeAt(root, parts).Some? && NodeAt(root, parts).value.Dir?
    }

    function Children(parts: Path): map<string, Node>
      requires HasDir(parts)
      reads this
    {
      NodeAt(root, parts).value.children
    }

    /** `cd`. */
    method Cd(path: string) returns (r: Result<(), DriveError>)
      requires Valid()
      modifies this`cwd
      ensures Valid()
      ensures var p := Resolve(old(cwd), path);
        && r == (if p !in View() then Err(NotFound) else if View()[p].FileEntry? then Err(NotADirectory) else Ok(()))
        && cwd == if r.Ok? then p else old(cwd)
    {
      var parts := SplitPath(cwd, path);
      FlatEntry(root, parts);
      if parts == [] {
        cwd := [];
        return Ok(());
      }
      match Find(parts)
      case Some(Dir(_)) => cwd := parts; return Ok(());
      case Some(File(_)) => return Err(NotADirectory);
      case None => return Err(NotFound);
    }

    method MakeDir(path: string) returns (r: Result<(), DriveError>)
      requires Valid()
      modifies this`root
      ensures Valid()
      ensures (r, View()) == Mkdir(old(View()), Resolve(cwd, path))
    {
      var parts := SplitPath(cwd, path);
      if parts == [] {
        return Err(MalformedPath);
      }
      var parent, name := parts[..|parts| - 1], parts[|parts| - 1];
      ParentFacts(root, parts);
      if !HasDir(parent) {
        return Err(NoParent);
      }
      if name in Children(parent) {
        return Err(AlreadyExists);
      }
      FilesHaveNoChildren(root, parts);
      PutMeans(root, parts, Dir(map[]));
      root := Put(root, parent, name, Some(Dir(map[])));
      return Ok(());
    }

    method RemoveDir(path: string) returns (r: Result<(), DriveError>)
      requires Valid()
      modifies this`root
      ensures Valid()
      ensures (r, View()) == Rmdir(old(View()), Resolve(cwd, path))
    {
      var parts := SplitPath(cwd, path);
      if parts == [] {
        return Err(MalformedPath);
      }
      var parent, name := parts[..|parts| - 1], parts[|parts| - 1];
      ParentFacts(root, parts);
      if !HasDir(parent) || name !in Children(parent) {
        return Err(NotFound);
      }
      var child := Children(parent)[name];
      if child.File? {
        return Err(NotADirectory);
      }
      ChildrenAreFlat(root, parts);
      if child.children != map[] {
        return Err(NotEmpty);
      }
      RemoveMeans(root, parts);
      root := Put(root, parent, name, None);
      return Ok(());
    }

    method RemoveEntry(path: string) returns (r: Result<(), DriveError>)
      requires Valid()
      modifies this`root
      ensures Valid()
      ensures (r, View()) == Rm(old(View()), Resolve(cwd, path))
    {
      var parts := SplitPath(cwd, path);
      if parts == [] {
        return Err(MalformedPath);
      }
      var parent, name := parts[..|parts| - 1], parts[|parts| - 1];
      ParentFacts(root, parts);
      if !HasDir(parent) {
        return Err(NotFound);
      }
      if name in Children(parent) {
        ChildrenAreFlat(root, parts);
      }
      if name in Children(parent) && Children(parent)[name].Dir? && Children(parent)[name].children != map[] {
        return Err(NotEmpty);
      }
      if name !in Children(parent) {
        return Err(NotFound);
      }
      RemoveMeans(root, parts);
      root := Put(root, parent, name, None);
      return Ok(());
    }

    method TouchFile(path: string) returns (r: Result<(), DriveError>)
      requires Valid()
      modifies this`root
      ensures Valid()
      ensures (r, View()) == Touch(old(View()), Resolve(cwd, path))
    {
      var parts := SplitPath(cwd, path);
      if parts == [] {
        return Err(MalformedPath);
      }
      var parent, name := parts[..|parts| - 1], parts[|parts| - 1];
      ParentFacts(root, parts);
      if !HasDir(parent) {
        return Err(NoParent);
      }
      if name !in Children(parent) {
        FilesHaveNoChildren(root, parts);
        PutMeans(root, parts, File(""));
        root := Put(root, parent, name, Some(File("")));
      }
      return Ok(());
    }

    method ReadFile(path: string) returns (r: Result<string, DriveError>)
      requires Valid()
      ensures r == Cat(View(), Resolve(cwd, path))
    {
      var parts := SplitPath(cwd, path);
      match Find(parts)
      case Some(File(content)) => return Ok(content);
      case Some(Dir(_)) => return Err(IsDirectory);
      case None => return Err(NotFound);
    }

    method WriteLine(path: string, text: string) returns (r: Result<(), DriveError>)
      requires Valid() && Writable(View(), Resolve(cwd, path))
      modifies this`root
      ensures Valid()
      ensures (r, View()) == Write(old(View()), Resolve(cwd, path), text)
    {
      r := TouchFile(path);
      if r.Err? {
        return r;
      }
      var parts := SplitPath(cwd, path);
      var parent, name := parts[..|parts| - 1], parts[|parts| - 1];
      ParentFacts(root, parts);
      var content := Children(parent)[name].content;
      WriteMeans(root, parts, AppendLine(content, text));
      if content != "" && content[|content| - 1] != '\n' {
        content := content + "\n";
      }
      content := content + text;
      content := content + "\n";
      root := Put(root, parent, name, Some(File(content)));
      return Ok(());
    }

    method CopyFile(src: string, dst: string) returns (r: Result<(), DriveError>)
      requires Valid() && (Cat(View(), Resolve(cwd, src)).Ok? ==> Writable(View(), Resolve(cwd, dst)))
      modifies this`root
      ensures Valid()
      ensures (r, View()) == Copy(old(View()), Resolve(cwd, src), Resolve(cwd, dst))
    {
      var content := ReadFile(src);
      if content.Err? {
        return Err(content.error);
      }
      r := WriteLine(dst, content.value);
    }

    /** Copy, then remove the source; the removal cannot fail. */
    method MoveFile(src: string, dst: string) returns (r: Result<(), DriveError>)
      requires Valid() && (Cat(View(), Resolve(cwd, src)).Ok? ==> Writable(View(), Resolve(cwd, dst)))
      modifies this`root
      ensures Valid()
      ensures (r, View()) == Move(old(View()), Resolve(cwd, src), Resolve(cwd, dst))
    {
      var content := ReadFile(src);
      if content.Err? {
        return Err(content.error);
      }
      r := WriteLine(dst, content.value);
      if r.Err? {
        return r;
      }
      FilesHaveNoChildren(root, Resolve(cwd, src));
      r := RemoveEntry(src);
    }

    /** Renaming onto an existing directory replaces it and drops everything below it. */
    method RenameFile(from: string, to: string) returns (r: Result<(), DriveError>)
      requires Valid()
      modifies this`root
      ensures Valid()
      ensures (r, View()) == Rename(old(View()), Resolve(cwd, from), Resolve(cwd, to))
    {
      var content := ReadFile(from);
      if content.Err? {
        return Err(content.error);
      }
      var source := SplitPath(cwd, from);
      var target := SplitPath(cwd, to);
      if target == [] {
        return Err(MalformedPath);
      }
      var parent, oldName := source[..|source| - 1], source[|source| - 1];
      var newName := target[|target| - 1];
      if parent != target[..|target| - 1] {
        return Err(OtherDirectory);
      }
      ParentFacts(root, source);
      if !HasDir(parent) {
        return Err(NotFound);
      }
      if oldName in Children(parent) {
        FilesHaveNoChildren(root, source);
        RemoveMeans(root, source);
        root := Put(root, parent, oldName, None);
        FlatEntry(root, parent);
        ParentFacts(root, target);
        PutLeafIsFlat(root, parent, newName, File(content.value));
        root := Put(root, parent, newName, Some(File(content.value)));
        return Ok(());
      }
      return Err(NotFound);
    }

    /** Whatever exists on the drive is found again by printing its path and resolving the text, from anywhere. */
    lemma {:induction false} PrintedPathsResolve(p: Path)
      requires Valid() && p in View()
      ensures Resolve(cwd, Print(p)) == p
    {
      PrintResolves(cwd, p);
    }
  }

  /** A directory made is undone by removing it. */
  lemma {:induction false} MkdirThenRmdir(n: Node, p: Path)
    requires Mkdir(Flat(n), p).0.Ok?
    ensures Rmdir(Mkdir(Flat(n), p).1, p) == (Ok(()), Flat(n))
  {
    var f := Flat(n);
    var g := Mkdir(f, p).1;
    FilesHaveNoChildren(n, p);
    assert !HasChildren(g, p) by {
      forall name ensures p + [name] !in g {
        assert p + [name] in f ==> HasChildren(f, p);
      }
    }
    assert Without(g, p) == f;
  }

  /** A successful move leaves the source's text at the destination and nothing at the source exactly when the two
      paths differ; a file moved onto itself is gone. Every other path stays as it was. */
  lemma {:induction false} MoveKeepsContent(n: Node, src: Path, dst: Path)
    requires Cat(Flat(n), src).Ok? && Writable(Flat(n), dst) && Move(Flat(n), src, dst).0.Ok?
    ensures var g := Move(Flat(n), src, dst).1;
      && src !in g
      && (dst in g <==> src != dst)
      && (src != dst ==>
            var before := if dst in Flat(n) then Flat(n)[dst].content else "";
            g[dst] == FileEntry(AppendLine(before, Cat(Flat(n), src).value)))
      && (forall q :: q != src && q != dst ==> (q in g <==> q in Flat(n)) && (q in g ==> g[q] == Flat(n)[q]))
  {
  }
}
