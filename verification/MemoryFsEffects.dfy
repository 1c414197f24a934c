/**
 What each tree operation of the in-memory backend does, told only through what
 an observer sees at every path before and after it.
 */
module MemoryFsEffects {
  import opened Core
  import opened Vfs
  import opened Paths
  import opened MemoryTree
  import opened MemoryFs

  predicate IsDirectoryView(v: View) {
    v.Present? && v.kind == DirectoryKind
  }

  predicate IsFileView(v: View) {
    v.Present? && v.kind.FileKind?
  }

  /** The parent of `cs` is seen as a directory. */
  predicate ParentSeen(root: Node, cs: Path)
    requires cs != []
  {
    IsDirectoryView(See(root, ParentOf(cs)))
  }

  lemma ParentSeenIsHasParent(root: Node, cs: Path)
    requires cs != []
    ensures ParentSeen(root, cs) <==> HasParent(root, cs)
    ensures See(root, cs).Present? ==> ParentSeen(root, cs)
    ensures ParentSeen(root, cs) && !See(root, cs).Present? ==> See(root, cs) == Absent
  {
    hide Resolve;
    FoundHasParent(root, cs);
    if HasParent(root, cs) {
      ChildOfParent(root, cs);
    }
  }

  lemma ChildOfParent(root: Node, cs: Path)
    requires cs != [] && HasParent(root, cs)
    ensures Resolve(root, cs).Found? || Resolve(root, cs) == Missing
  {
    assert cs == ParentOf(cs) + [NameOf(cs)];
    ResolveConcat(root, ParentOf(cs), [NameOf(cs)]);
    OneName(Resolve(root, ParentOf(cs)).node, NameOf(cs));
    hide Resolve;
  }

  lemma OneName(dir: Node, name: string)
    requires dir.Directory?
    ensures Resolve(dir, [name]).Found? || Resolve(dir, [name]) == Missing
  {
    if name in dir.children {
      assert Resolve(dir.children[name], []).Found?;
    }
  }

  /** Nothing is seen strictly below `cs`. */
  ghost predicate NothingBelow(root: Node, cs: Path) {
    forall q: Path :: cs < q ==> !See(root, q).Present?
  }

  /** The new tree shows a new entry at `cs` and is otherwise the old one. */
  ghost predicate Creates(root: Node, root': Node, cs: Path, v: View) {
    && See(root', cs) == v
    && NothingBelow(root', cs)
    && forall q: Path :: !(cs <= q) ==> See(root', q) == See(root, q)
  }

  lemma InsertCreates(root: Node, cs: Path, n: Node)
    requires cs != [] && HasParent(root, cs) && IsLeaf(n)
    ensures Creates(root, Insert(root, cs, n), cs, ViewOf(Found(n)))
  {
    forall q: Path
      ensures q == cs ==> See(Insert(root, cs, n), q) == ViewOf(Found(n))
      ensures cs < q ==> !See(Insert(root, cs, n), q).Present?
      ensures !(cs <= q) ==> See(Insert(root, cs, n), q) == See(root, q)
    {
      InsertLeafSees(root, cs, n, q);
    }
  }

  lemma MkdirEffect(s: FsState, path: string)
    ensures var (s', r) := Mkdir(s, path);
            var cs := Components(path);
            && (r.Ok? <==> cs != [] && ParentSeen(s.root, cs) && See(s.root, cs) == Absent)
            && (r.Err? ==> s' == s)
            && (r.Ok? ==> Creates(s.root, s'.root, cs, Present(DirectoryKind, s.inodeCounter)))
            && s'.openFiles == s.openFiles
            && s'.inodeCounter == s.inodeCounter + (if r.Ok? then 1 else 0)
  {
    var cs := Components(path);
    if cs != [] {
      FoundHasParent(s.root, cs);
      ParentSeenIsHasParent(s.root, cs);
      if Mkdir(s, path).1.Ok? {
        InsertCreates(s.root, cs, Directory(map[], s.inodeCounter));
      }
    }
  }

  lemma SymlinkEffect(s: FsState, target: string, path: string)
    ensures var (s', r) := SymlinkOp(s, target, path);
            var cs := Components(path);
            && (r.Ok? <==> cs != [] && ParentSeen(s.root, cs) && See(s.root, cs) == Absent)
            && (r.Err? ==> s' == s)
            && (r.Ok? ==> Creates(s.root, s'.root, cs, Present(SymlinkKind(target), s.inodeCounter)))
            && s'.openFiles == s.openFiles
            && s'.inodeCounter == s.inodeCounter + (if r.Ok? then 1 else 0)
  {
    var cs := Components(path);
    if cs != [] {
      FoundHasParent(s.root, cs);
      ParentSeenIsHasParent(s.root, cs);
      if SymlinkOp(s, target, path).1.Ok? {
        InsertCreates(s.root, cs, Symlink(target, s.inodeCounter));
      }
    }
  }

  /** A directory has no entries exactly when nothing is seen below it. */
  lemma EmptyDirectorySeen(root: Node, cs: Path)
    requires Resolve(root, cs).Found? && Resolve(root, cs).node.Directory?
    ensures Resolve(root, cs).node.children == map[] <==> NothingBelow(root, cs)
  {
    var node := Resolve(root, cs).node;
    if node.children == map[] {
      forall q: Path | cs < q
        ensures !See(root, q).Present?
      {
        assert q == cs + q[|cs|..];
        ResolveConcat(root, cs, q[|cs|..]);
      }
    } else {
      var name :| name in node.children;
      ResolveConcat(root, cs, [name]);
      assert See(root, cs + [name]).Present?;
    }
  }

  /** Removal of an empty directory succeeds exactly for a non-root directory with nothing below. */
  lemma RmdirEffect(s: FsState, path: string)
    ensures var (s', r) := Rmdir(s, path);
            var cs := Components(path);
            && (r.Ok? <==> cs != [] && IsDirectoryView(See(s.root, cs)) && NothingBelow(s.root, cs))
            && (r.Err? ==> s' == s)
            && (r.Ok? ==> forall q: Path ::
                  See(s'.root, q) == if cs <= q then Absent else See(s.root, q))
            && s'.openFiles == s.openFiles && s'.inodeCounter == s.inodeCounter
  {
    var cs := Components(path);
    if cs != [] {
      FoundHasParent(s.root, cs);
      if Resolve(s.root, cs).Found? && Resolve(s.root, cs).node.Directory? {
        EmptyDirectorySeen(s.root, cs);
      }
      if Rmdir(s, path).1.Ok? {
        forall q: Path
          ensures See(Remove(s.root, cs), q) == if cs <= q then Absent else See(s.root, q)
        {
          RemoveSees(s.root, cs, q);
        }
      }
    }
  }

  lemma UnlinkEffect(s: FsState, path: string)
    ensures var (s', r) := Unlink(s, path);
            var cs := Components(path);
            && (r.Ok? <==> cs != [] && See(s.root, cs).Present? && !IsDirectoryView(See(s.root, cs)))
            && (r.Err? ==> s' == s)
            && (r.Ok? ==> forall q: Path ::
                  See(s'.root, q) == if cs <= q then Absent else See(s.root, q))
            && s'.openFiles == s.openFiles && s'.inodeCounter == s.inodeCounter
  {
    var cs := Components(path);
    if cs != [] {
      FoundHasParent(s.root, cs);
      if Unlink(s, path).1.Ok? {
        forall q: Path
          ensures See(Remove(s.root, cs), q) == if cs <= q then Absent else See(s.root, q)
        {
          RemoveSees(s.root, cs, q);
        }
      }
    }
  }

  /** Opening a directory: what must be there, what is made, whose inode is returned. */
  lemma OpenDirectoryEffect(s: FsState, path: string, flags: OpenFlags)
    requires flags.IsDirectory()
    ensures var (s', r) := Open(s, path, flags);
            var cs := Components(path);
            var v := See(s.root, cs);
            && (r.Ok? <==> (IsDirectoryView(v) && !(flags.IsCreate() && flags.IsExcl())) ||
                           (v == Absent && flags.IsCreate() && cs != [] && ParentSeen(s.root, cs)))
            && (r.Err? ==> s' == s)
            && (r.Ok? && v.Present? ==> s'.root == s.root && r.value == FileHandle(Some(v.ino)))
            && (r.Ok? && !v.Present? ==>
                  Creates(s.root, s'.root, cs, Present(DirectoryKind, s.inodeCounter)) &&
                  r.value == FileHandle(Some(s.inodeCounter)))
            && s'.inodeCounter == s.inodeCounter + (if r.Ok? && !v.Present? then 1 else 0)
  {
    var cs := Components(path);
    ComponentsClean(path);
    if cs != [] {
      FoundHasParent(s.root, cs);
      ParentSeenIsHasParent(s.root, cs);
    }
    if Resolve(s.root, cs) == Missing && MkdirAt(s, cs).1.Ok? {
      MadeDirectory(s, cs);
      InsertCreates(s.root, cs, Directory(map[], s.inodeCounter));
    }
  }

  /** Opening a file: create, truncate and exclusive flags against what is there. */
  lemma OpenFileEffect(s: FsState, path: string, flags: OpenFlags)
    requires !flags.IsDirectory()
    ensures var (s', r) := Open(s, path, flags);
            var cs := Components(path);
            var v := See(s.root, cs);
            && (r.Ok? <==> cs != [] &&
                           ((v.Present? && !IsDirectoryView(v) && !(flags.IsCreate() && flags.IsExcl())) ||
                            (v == Absent && flags.IsCreate() && ParentSeen(s.root, cs))))
            && (r.Err? ==> s' == s)
            && (r.Ok? && v.Present? ==> r.value == FileHandle(Some(v.ino)))
            && (r.Ok? && v.Present? && !(flags.IsTrunc() && IsFileView(v)) ==> s'.root == s.root)
            && (r.Ok? && flags.IsTrunc() && IsFileView(v) ==> forall q: Path ::
                  See(s'.root, q) == if q == cs then Present(FileKind([]), v.ino) else See(s.root, q))
            && (r.Ok? && !v.Present? ==>
                  Creates(s.root, s'.root, cs, Present(FileKind([]), s.inodeCounter)) &&
                  r.value == FileHandle(Some(s.inodeCounter)))
            && s'.inodeCounter == s.inodeCounter + (if r.Ok? && !v.Present? then 1 else 0)
  {
    var cs := Components(path);
    if cs != [] {
      FoundHasParent(s.root, cs);
      ParentSeenIsHasParent(s.root, cs);
      if Open(s, path, flags).1.Ok? {
        if !See(s.root, cs).Present? {
          InsertCreates(s.root, cs, File([], s.inodeCounter));
        } else if flags.IsTrunc() && IsFileView(See(s.root, cs)) {
          forall q: Path
            ensures See(Open(s, path, flags).0.root, q) ==
                    if q == cs then Present(FileKind([]), See(s.root, cs).ino) else See(s.root, q)
          {
            ReplaceFileSees(s.root, cs, [], q);
          }
        }
      }
    }
  }

  /** Reads and writes succeed exactly when the handle is open on a path that shows a file. */
  lemma ReadWriteOutcome(s: FsState, handle: FileHandle, offset: nat, length: nat, data: seq<byte>)
    requires FsInv(s)
    ensures var usable := HandlePath(s, handle).Some? &&
                          IsFileView(See(s.root, Components(HandlePath(s, handle).value)));
            && (Read(s, handle, offset, length).Ok? <==> usable)
            && (Write(s, handle, offset, data).1.Ok? <==> usable)
            && (Write(s, handle, offset, data).1.Err? ==> Write(s, handle, offset, data).0 == s)
  {
    if HandlePath(s, handle).Some? {
      var path := HandlePath(s, handle).value;
      NormalPath(path);
      WalkNormal(s.root, Components(path));
    }
  }
}
