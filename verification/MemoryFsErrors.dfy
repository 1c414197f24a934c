/**
 Which calls of the in-memory backend fail, and with which error, told through what is seen at
 the paths they name.
 */
module MemoryFsErrors {
  import opened Core
  import opened Vfs
  import opened Paths
  import opened MemoryTree
  import opened MemoryFs
  import opened MemoryFsEffects
  import opened MemoryFsHandles
  import opened MemoryFsData

  /** The error of a walk to a directory that ends at this view. */
  function DirectoryError(v: View, path: string): VfsError {
    if v == Absent then NotFound(path) else NotADirectory(path)
  }

  function ParentError(root: Node, cs: Path): VfsError
    requires cs != []
  {
    DirectoryError(See(root, ParentOf(cs)), Join(ParentOf(cs)))
  }

  /** A new entry needs a name, a parent directory and a free place. */
  function CreationRefusal(root: Node, cs: Path, atRoot: VfsError): Option<VfsError> {
    if cs == [] then Some(atRoot)
    else if !ParentSeen(root, cs) then Some(ParentError(root, cs))
    else if See(root, cs).Present? then Some(AlreadyExists(Join(cs)))
    else None
  }

  /** An entry to be removed or renamed must be there. */
  function EntryRefusal(root: Node, cs: Path): Option<VfsError>
    requires cs != []
  {
    if !ParentSeen(root, cs) then Some(ParentError(root, cs))
    else if !See(root, cs).Present? then Some(NotFound(Join(cs)))
    else None
  }

  /** The new parent is looked up without the moved subtree. */
  function RenameRefusal(root: Node, from: Path, to: Path): Option<VfsError> {
    if from == [] || to == [] then Some(InvalidPath("Cannot rename root"))
    else if from == to then None
    else if EntryRefusal(root, from).Some? then EntryRefusal(root, from)
    else if from <= ParentOf(to) then Some(NotFound(Join(ParentOf(to))))
    else if !ParentSeen(root, to) then Some(ParentError(root, to))
    else None
  }

  function OpenDirectoryRefusal(root: Node, cs: Path, flags: OpenFlags): Option<VfsError> {
    var v := See(root, cs);
    if IsDirectoryView(v) then
      if flags.IsCreate() && flags.IsExcl() then Some(AlreadyExists(Join(cs))) else None
    else if v != Absent then Some(NotADirectory(Join(cs)))
    else if !flags.IsCreate() then Some(NotFound(Join(cs)))
    else CreationRefusal(root, cs, AlreadyExists("/"))
  }

  function OpenFileRefusal(root: Node, cs: Path, flags: OpenFlags): Option<VfsError> {
    if cs == [] then Some(InvalidPath("Cannot open root as file"))
    else if !ParentSeen(root, cs) then Some(ParentError(root, cs))
    else if See(root, cs).Present? then
      if flags.IsCreate() && flags.IsExcl() then Some(AlreadyExists(Join(cs)))
      else if IsDirectoryView(See(root, cs)) then Some(IsADirectory(Join(cs)))
      else None
    else if flags.IsCreate() then None
    else Some(NotFound(Join(cs)))
  }

  /** Reads and writes fail alike: on a handle that is not open, or by what its path shows. */
  function DataRefusal(s: FsState, handle: FileHandle): Option<VfsError> {
    match HandlePath(s, handle)
    case None => Some(InvalidHandle)
    case Some(path) =>
      match See(s.root, Components(path))
      case Present(FileKind(_), _) => None
      case Present(DirectoryKind, _) => Some(IsADirectory(path))
      case Present(SymlinkKind(_), _) => Some(InvalidHandle)
      case Absent => Some(NotFound(path))
      case Obstructed => Some(NotADirectory(path))
  }

  ghost function Refusal(s: FsState, op: Op): Option<VfsError> {
    match op
    case OpOpen(path, flags) =>
      if flags.IsDirectory() then OpenDirectoryRefusal(s.root, Components(path), flags)
      else OpenFileRefusal(s.root, Components(path), flags)
    case OpRead(handle, _, _) => DataRefusal(s, handle)
    case OpWrite(handle, _, _) => DataRefusal(s, handle)
    case OpClose(handle) => if handle.backendInternalId.None? then Some(InvalidHandle) else None
    case OpMkdir(path) => CreationRefusal(s.root, Components(path), AlreadyExists("/"))
    case OpSymlink(_, path) =>
      CreationRefusal(s.root, Components(path), InvalidPath("Cannot create symlink at root"))
    case OpRmdir(path) =>
      var cs := Components(path);
      if cs == [] then Some(InvalidPath("Cannot remove root"))
      else if EntryRefusal(s.root, cs).Some? then EntryRefusal(s.root, cs)
      else if !IsDirectoryView(See(s.root, cs)) then Some(NotADirectory(Join(cs)))
      else if !NothingBelow(s.root, cs) then Some(DirectoryNotEmpty(Join(cs)))
      else None
    case OpUnlink(path) =>
      var cs := Components(path);
      if cs == [] then Some(InvalidPath("Cannot unlink root"))
      else if EntryRefusal(s.root, cs).Some? then EntryRefusal(s.root, cs)
      else if IsDirectoryView(See(s.root, cs)) then Some(IsADirectory(Join(cs)))
      else None
    case OpRename(oldPath, newPath) => RenameRefusal(s.root, Components(oldPath), Components(newPath))
  }

  /**
   What the caller of a successful call sees: a handle with the inode that is then at the path,
   the bytes asked for, or the number of bytes written.
   */
  predicate Succeeds(s: FsState, op: Op, s': FsState, outcome: Outcome) {
    match op
    case OpOpen(path, _) =>
      && outcome.Opened? && outcome.handle.backendInternalId.Some?
      && ShowsInode(s'.root, Components(path), outcome.handle.backendInternalId.value)
    case OpRead(handle, offset, length) =>
      && s' == s && outcome.Data? && DataRefusal(s, handle).None?
      && IsPart(outcome.bytes, See(s.root, Components(HandlePath(s, handle).value)).kind.content, offset, length)
    case OpWrite(_, _, data) => outcome == Written(|data| % 0x1_0000_0000)
    case _ => outcome == Done
  }

  // ---------- each call ----------

  lemma ParentLookedUp(root: Node, cs: Path)
    requires cs != []
    ensures ParentDir(root, cs).Ok? <==> ParentSeen(root, cs)
    ensures ParentDir(root, cs).Err? ==> ParentDir(root, cs).error == ParentError(root, cs)
    ensures ParentSeen(root, cs) ==>
              (See(root, cs).Present? <==> NameOf(cs) in ParentDir(root, cs).value.children)
    ensures ParentSeen(root, cs) && See(root, cs).Present? ==>
              See(root, cs) == ViewOf(Found(ParentDir(root, cs).value.children[NameOf(cs)]))
  {
    ParentSeenIsHasParent(root, cs);
    FoundHasParent(root, cs);
  }

  lemma CreationRefused(s: FsState, target: string, path: string)
    ensures UnitOutcome(Mkdir(s, path).1) ==
            match CreationRefusal(s.root, Components(path), AlreadyExists("/"))
            case Some(e) => Failed(e)
            case None => Done
    ensures UnitOutcome(SymlinkOp(s, target, path).1) ==
            match CreationRefusal(s.root, Components(path), InvalidPath("Cannot create symlink at root"))
            case Some(e) => Failed(e)
            case None => Done
  {
    if Components(path) != [] {
      ParentLookedUp(s.root, Components(path));
    }
  }

  lemma RemovalRefused(s: FsState, op: Op)
    requires op.OpRmdir? || op.OpUnlink?
    ensures Refused(s, op)
  {
    var cs := Components(op.path);
    if cs != [] {
      ParentLookedUp(s.root, cs);
      FoundHasParent(s.root, cs);
      ParentSeenIsHasParent(s.root, cs);
      if Resolve(s.root, cs).Found? && Resolve(s.root, cs).node.Directory? {
        EmptyDirectorySeen(s.root, cs);
      }
    }
  }

  lemma RenameRefused(s: FsState, oldPath: string, newPath: string)
    ensures Refused(s, OpRename(oldPath, newPath))
  {
    var from, to := Components(oldPath), Components(newPath);
    if from != [] && to != [] && from != to {
      ParentLookedUp(s.root, from);
      ParentSeenIsHasParent(s.root, from);
      if EntryRefusal(s.root, from).None? {
        var taken := Remove(s.root, from);
        ParentLookedUp(taken, to);
        RemoveSees(s.root, from, ParentOf(to));
      }
    }
  }

  lemma OpenRefused(s: FsState, path: string, flags: OpenFlags)
    ensures Refused(s, OpOpen(path, flags))
  {
    var cs := Components(path);
    if Open(s, path, flags).1.Ok? {
      OpenedInPlace(s, path, flags);
    }
    if flags.IsDirectory() {
      OpenDirectoryRefused(s, path, flags);
    } else if cs != [] {
      ParentLookedUp(s.root, cs);
    }
  }

  lemma OpenDirectoryRefused(s: FsState, path: string, flags: OpenFlags)
    requires flags.IsDirectory()
    ensures Refused(s, OpOpen(path, flags))
  {
    hide Insert, Walk;
    var cs := Components(path);
    ComponentsClean(path);
    if Open(s, path, flags).1.Ok? {
      OpenedInPlace(s, path, flags);
    }
    if cs != [] {
      ParentLookedUp(s.root, cs);
    }
    if Resolve(s.root, cs) == Missing && MkdirAt(s, cs).1.Ok? {
      MadeDirectory(s, cs);
    }
  }

  lemma DataRefused(s: FsState, op: Op)
    requires FsInv(s) && (op.OpRead? || op.OpWrite?)
    ensures Refused(s, op)
  {
    hide WriteAt, ReadAt, IsPart;
    if HandlePath(s, op.handle).Some? {
      var path := HandlePath(s, op.handle).value;
      NormalPath(path);
      WalkNormal(s.root, Components(path));
      if op.OpRead? && IsFileView(See(s.root, Components(path))) {
        ReadGives(s, op.handle, op.offset, op.length, See(s.root, Components(path)).kind.content);
      }
    }
  }

  ghost predicate Refused(s: FsState, op: Op) {
    match Refusal(s, op)
    case Some(e) => Step(s, op).1 == Failed(e)
    case None => Succeeds(s, op, Step(s, op).0, Step(s, op).1)
  }

  /** Every call fails exactly when the views refuse it, and then with the error they tell. */
  lemma RefusesExactly(s: FsState, op: Op)
    requires FsInv(s)
    ensures match Refusal(s, op)
            case Some(e) => Step(s, op).1 == Failed(e)
            case None => Succeeds(s, op, Step(s, op).0, Step(s, op).1)
  {
    match op {
      case OpOpen(path, flags) => OpenRefused(s, path, flags);
      case OpRead(_, _, _) => DataRefused(s, op);
      case OpWrite(_, _, _) => DataRefused(s, op);
      case OpClose(_) =>
      case OpMkdir(path) => CreationRefused(s, "", path);
      case OpSymlink(target, path) => CreationRefused(s, target, path);
      case OpRmdir(_) => RemovalRefused(s, op);
      case OpUnlink(_) => RemovalRefused(s, op);
      case OpRename(oldPath, newPath) => RenameRefused(s, oldPath, newPath);
    }
  }

  /** A failed call changes nothing, but for a rename that has taken the node out already. */
  lemma FailureChangesNothing(s: FsState, op: Op)
    requires FsInv(s) && Step(s, op).1.Failed?
    ensures Step(s, op).0 == s <==>
            !(op.OpRename? && Components(op.oldPath) != [] && Components(op.newPath) != [] &&
              See(s.root, Components(op.oldPath)).Present?)
  {
    match op {
      case OpOpen(path, flags) =>
        if flags.IsDirectory() {
          OpenDirectoryEffect(s, path, flags);
        } else {
          OpenFileEffect(s, path, flags);
        }
      case OpRead(_, _, _) =>
      case OpWrite(handle, offset, data) => ReadWriteOutcome(s, handle, offset, 0, data);
      case OpClose(_) =>
      case OpMkdir(path) => MkdirEffect(s, path);
      case OpSymlink(target, path) => SymlinkEffect(s, target, path);
      case OpRmdir(path) => RmdirEffect(s, path);
      case OpUnlink(path) => UnlinkEffect(s, path);
      case OpRename(oldPath, newPath) =>
        FailedRename(s, oldPath, newPath);
        RenameOutcome(s, oldPath, newPath);
    }
  }
}
