/**
 Specification of the in-memory backend's operations on values, and the
 properties every run of them has.
 */
module MemoryFs {
  import opened Core
  import opened Vfs
  import opened Paths
  import opened MemoryTree

  datatype OpenFileInfo = OpenFileInfo(path: string, refCount: nat)

  datatype FsState = FsState(root: Node, openFiles: map<nat, OpenFileInfo>, inodeCounter: nat)

  const ROOT_INO: nat := 1

  function InitialState(): FsState {
    FsState(Directory(map[], ROOT_INO), map[], 2)
  }

  // ---------- walking ----------

  /** The source's walk over an already normalised path, with its errors. */
  function Walk(root: Node, path: string): Result<Node, VfsError> {
    if path == "" then Ok(root)
    else
      match Resolve(root, Split(path))
      case Found(node) => Ok(node)
      case Missing => Err(NotFound(path))
      case Blocked => Err(NotADirectory(path))
  }

  /** Walk to a directory. */
  function WalkToDirectory(root: Node, path: string): Result<Node, VfsError> {
    match Walk(root, path)
    case Err(e) => Err(e)
    case Ok(node) => if node.Directory? then Ok(node) else Err(NotADirectory(path))
  }

  lemma WalkNormal(root: Node, cs: Path)
    requires Clean(cs)
    ensures Walk(root, Join(cs)) ==
            match Resolve(root, cs)
            case Found(node) => Ok(node)
            case Missing => Err(NotFound(Join(cs)))
            case Blocked => Err(NotADirectory(Join(cs)))
  {
    JoinEmpty(cs);
    if cs != [] {
      SplitJoin(cs);
    }
  }

  /** The parent directory of a non-root path, or the error of the walk to it. */
  function ParentDir(root: Node, cs: Path): (r: Result<Node, VfsError>)
    requires cs != []
    ensures r.Ok? <==> HasParent(root, cs)
    ensures r.Ok? ==> r.value == Resolve(root, ParentOf(cs)).node
  {
    var parent := Join(ParentOf(cs));
    match Resolve(root, ParentOf(cs))
    case Found(node) => if node.Directory? then Ok(node) else Err(NotADirectory(parent))
    case Missing => Err(NotFound(parent))
    case Blocked => Err(NotADirectory(parent))
  }

  lemma ParentDirIsWalk(root: Node, cs: Path)
    requires cs != [] && Clean(cs)
    ensures ParentDir(root, cs) == WalkToDirectory(root, Join(ParentOf(cs)))
  {
    WalkNormal(root, ParentOf(cs));
  }

  // ---------- operations ----------

  function GetNode(s: FsState, path: string): Result<Node, VfsError> {
    Walk(s.root, Normalize(path))
  }

  /** Any spelling of a path leads to the node that its components lead to. */
  lemma GetNodeResolves(s: FsState, path: string)
    ensures GetNode(s, path) ==
            match Resolve(s.root, Components(path))
            case Found(node) => Ok(node)
            case Missing => Err(NotFound(Normalize(path)))
            case Blocked => Err(NotADirectory(Normalize(path)))
  {
    ComponentsClean(path);
    WalkNormal(s.root, Components(path));
  }

  /** Count one more open of an inode; the path of the first open is kept. */
  function AddOpen(open: map<nat, OpenFileInfo>, ino: nat, path: string): map<nat, OpenFileInfo> {
    if ino in open then open[ino := open[ino].(refCount := open[ino].refCount + 1)]
    else open[ino := OpenFileInfo(path, 1)]
  }

  function MkdirAt(s: FsState, cs: Path): (FsState, Result<(), VfsError>) {
    if cs == [] then (s, Err(AlreadyExists("/")))
    else
      var parent := ParentDir(s.root, cs);
      if parent.Err? then (s, Err(parent.error))
      else if NameOf(cs) in parent.value.children then (s, Err(AlreadyExists(Join(cs))))
      else
        (s.(root := Insert(s.root, cs, Directory(map[], s.inodeCounter)),
            inodeCounter := s.inodeCounter + 1), Ok(()))
  }

  function Mkdir(s: FsState, path: string): (FsState, Result<(), VfsError>) {
    MkdirAt(s, Components(path))
  }

  function SymlinkOp(s: FsState, target: string, path: string): (FsState, Result<(), VfsError>) {
    var cs := Components(path);
    if cs == [] then (s, Err(InvalidPath("Cannot create symlink at root")))
    else
      var parent := ParentDir(s.root, cs);
      if parent.Err? then (s, Err(parent.error))
      else if NameOf(cs) in parent.value.children then (s, Err(AlreadyExists(Join(cs))))
      else
        (s.(root := Insert(s.root, cs, Symlink(target, s.inodeCounter)),
            inodeCounter := s.inodeCounter + 1), Ok(()))
  }

  function Rmdir(s: FsState, path: string): (FsState, Result<(), VfsError>) {
    var cs := Components(path);
    if cs == [] then (s, Err(InvalidPath("Cannot remove root")))
    else
      var parent := ParentDir(s.root, cs);
      if parent.Err? then (s, Err(parent.error))
      else if NameOf(cs) !in parent.value.children then (s, Err(NotFound(Join(cs))))
      else
        var node := parent.value.children[NameOf(cs)];
        if !node.Directory? then (s, Err(NotADirectory(Join(cs))))
        else if node.children != map[] then (s, Err(DirectoryNotEmpty(Join(cs))))
        else (s.(root := Remove(s.root, cs)), Ok(()))
  }

  function Unlink(s: FsState, path: string): (FsState, Result<(), VfsError>) {
    var cs := Components(path);
    if cs == [] then (s, Err(InvalidPath("Cannot unlink root")))
    else
      var parent := ParentDir(s.root, cs);
      if parent.Err? then (s, Err(parent.error))
      else if NameOf(cs) !in parent.value.children then (s, Err(NotFound(Join(cs))))
      else if parent.value.children[NameOf(cs)].Directory? then (s, Err(IsADirectory(Join(cs))))
      else (s.(root := Remove(s.root, cs)), Ok(()))
  }

  /** The node leaves its old place before the new parent is looked up. */
  function Rename(s: FsState, oldPath: string, newPath: string): (FsState, Result<(), VfsError>) {
    var from, to := Components(oldPath), Components(newPath);
    if from == [] || to == [] then (s, Err(InvalidPath("Cannot rename root")))
    else if from == to then (s, Ok(()))
    else
      var oldParent := ParentDir(s.root, from);
      if oldParent.Err? then (s, Err(oldParent.error))
      else if NameOf(from) !in oldParent.value.children then (s, Err(NotFound(Join(from))))
      else
        var node := oldParent.value.children[NameOf(from)];
        var taken := Remove(s.root, from);
        var newParent := ParentDir(taken, to);
        if newParent.Err? then (s.(root := taken), Err(newParent.error))
        else (s.(root := Insert(taken, to, node)), Ok(()))
  }

  function OpenDirectory(s: FsState, cs: Path, flags: OpenFlags): (FsState, Result<FileHandle, VfsError>) {
    match Resolve(s.root, cs)
    case Found(node) =>
      if !node.Directory? then (s, Err(NotADirectory(Join(cs))))
      else if flags.IsCreate() && flags.IsExcl() then (s, Err(AlreadyExists(Join(cs))))
      else
        (s.(openFiles := AddOpen(s.openFiles, node.ino, Join(cs))), Ok(FileHandle(Some(node.ino))))
    case Blocked => (s, Err(NotADirectory(Join(cs))))
    case Missing =>
      if !flags.IsCreate() then (s, Err(NotFound(Join(cs))))
      else
        var (made, r) := MkdirAt(s, cs);
        if r.Err? then (made, Err(r.error))
        else
          match Walk(made.root, Join(cs))
          case Err(e) => (made, Err(e))
          case Ok(node) =>
            (made.(openFiles := made.openFiles[node.ino := OpenFileInfo(Join(cs), 1)]),
             Ok(FileHandle(Some(node.ino))))
  }

  function OpenFile(s: FsState, cs: Path, flags: OpenFlags): (FsState, Result<FileHandle, VfsError>) {
    if cs == [] then (s, Err(InvalidPath("Cannot open root as file")))
    else
      var parent := ParentDir(s.root, cs);
      if parent.Err? then (s, Err(parent.error))
      else if NameOf(cs) in parent.value.children then
        var node := parent.value.children[NameOf(cs)];
        if flags.IsCreate() && flags.IsExcl() then (s, Err(AlreadyExists(Join(cs))))
        else if node.Directory? then (s, Err(IsADirectory(Join(cs))))
        else
          var root' := if flags.IsTrunc() && node.File?
                       then Replace(s.root, cs, node.(content := [])) else s.root;
          (s.(root := root', openFiles := AddOpen(s.openFiles, node.ino, Join(cs))),
           Ok(FileHandle(Some(node.ino))))
      else if flags.IsCreate() then
        (FsState(Insert(s.root, cs, File([], s.inodeCounter)),
                 AddOpen(s.openFiles, s.inodeCounter, Join(cs)), s.inodeCounter + 1),
         Ok(FileHandle(Some(s.inodeCounter))))
      else (s, Err(NotFound(Join(cs))))
  }

  function Open(s: FsState, path: string, flags: OpenFlags): (FsState, Result<FileHandle, VfsError>) {
    if flags.IsDirectory() then OpenDirectory(s, Components(path), flags)
    else OpenFile(s, Components(path), flags)
  }

  function Close(s: FsState, handle: FileHandle): (FsState, Result<(), VfsError>) {
    match handle.backendInternalId
    case None => (s, Err(InvalidHandle))
    case Some(ino) =>
      if ino !in s.openFiles then (s, Ok(()))
      else
        var info := s.openFiles[ino];
        if info.refCount <= 1 then (s.(openFiles := s.openFiles - {ino}), Ok(()))
        else (s.(openFiles := s.openFiles[ino := info.(refCount := info.refCount - 1)]), Ok(()))
  }

  /** The path recorded for an open handle. */
  function HandlePath(s: FsState, handle: FileHandle): Option<string> {
    match handle.backendInternalId
    case None => None
    case Some(ino) => if ino in s.openFiles then Some(s.openFiles[ino].path) else None
  }

  function ReadAt(content: seq<byte>, offset: nat, length: nat): seq<byte> {
    if offset >= |content| then []
    else content[offset..if offset + length < |content| then offset + length else |content|]
  }

  function Zeros(n: nat): seq<byte> {
    seq(n, _ => 0)
  }

  function WriteAt(content: seq<byte>, offset: nat, data: seq<byte>): seq<byte> {
    var end := offset + |data|;
    var extended := if end > |content| then content + Zeros(end - |content|) else content;
    extended[..offset] + data + extended[end..]
  }

  function Read(s: FsState, handle: FileHandle, offset: nat, length: nat): Result<seq<byte>, VfsError> {
    match HandlePath(s, handle)
    case None => Err(InvalidHandle)
    case Some(path) =>
      match GetNode(s, path)
      case Err(e) => Err(e)
      case Ok(File(content, _)) => Ok(ReadAt(content, offset, length))
      case Ok(Directory(_, _)) => Err(IsADirectory(path))
      case Ok(Symlink(_, _)) => Err(InvalidHandle)
  }

  /** The byte count returned is truncated to 32 bits. */
  function Write(s: FsState, handle: FileHandle, offset: nat, data: seq<byte>): (FsState, Result<nat, VfsError>) {
    match HandlePath(s, handle)
    case None => (s, Err(InvalidHandle))
    case Some(path) =>
      if path == "" then (s, Err(IsADirectory(path)))
      else
        match Walk(s.root, path)
        case Err(e) => (s, Err(e))
        case Ok(Directory(_, _)) => (s, Err(IsADirectory(path)))
        case Ok(Symlink(_, _)) => (s, Err(InvalidHandle))
        case Ok(File(content, ino)) =>
          (s.(root := Replace(s.root, Split(path), File(WriteAt(content, offset, data), ino))),
           Ok(|data| % U32_MODULUS))
  }

  // ---------- rename ----------

  /** Exactly when a rename succeeds, and which tree it leaves otherwise. */
  lemma RenameOutcome(s: FsState, oldPath: string, newPath: string)
    ensures var (s', r) := Rename(s, oldPath, newPath);
            var from, to := Components(oldPath), Components(newPath);
            && (r.Ok? <==> from != [] && to != [] && (from == to || CanMove(s.root, from, to)))
            && (r.Ok? ==> s'.root == if from == to then s.root else Move(s.root, from, to))
            && s'.openFiles == s.openFiles && s'.inodeCounter == s.inodeCounter
  {
    var from, to := Components(oldPath), Components(newPath);
    if from != [] {
      FoundHasParent(s.root, from);
    }
  }

  /**
   A successful rename to a different name moves the whole subtree: at every relative path `t`
   the new name shows what the old one did, the old name shows nothing unless the new name is
   above it, and every path `q` under neither name shows what it did.
   */
  lemma RenameMovesSubtree(s: FsState, oldPath: string, newPath: string, t: Path, q: Path)
    requires Rename(s, oldPath, newPath).1.Ok?
    requires Components(oldPath) != Components(newPath)
    ensures var root' := Rename(s, oldPath, newPath).0.root;
            var from, to := Components(oldPath), Components(newPath);
            && !(from <= to)
            && Resolve(root', to + t) == Resolve(s.root, from + t)
            && (!(from <= q) && !(to <= q) ==> See(root', q) == See(s.root, q))
            && (!(to <= from) ==> See(root', from + t) == Absent)
            && (to <= from ==> Resolve(root', from + t) == Resolve(s.root, from + from[|to|..] + t))
  {
    var from, to := Components(oldPath), Components(newPath);
    RenameOutcome(s, oldPath, newPath);
    if from <= to {
      CannotMoveBelowItself(s.root, from, to);
    }
    MoveUnderNew(s.root, from, to, t);
    MoveUnderOld(s.root, from, to, t);
    if !(from <= q) && !(to <= q) {
      MoveElsewhere(s.root, from, to, q);
    }
  }

  /**
   A failed rename leaves the tree alone exactly when it failed before taking the
   node out, that is when a path is the root or the old name does not resolve.
   Otherwise the subtree is lost.
   */
  lemma FailedRename(s: FsState, oldPath: string, newPath: string)
    requires Rename(s, oldPath, newPath).1.Err?
    ensures var root' := Rename(s, oldPath, newPath).0.root;
            var from, to := Components(oldPath), Components(newPath);
            && (root' == s.root <==> from == [] || to == [] || !Resolve(s.root, from).Found?)
            && (root' != s.root ==> forall q: Path ::
                  See(root', q) == if from <= q then Absent else See(s.root, q))
  {
    var root' := Rename(s, oldPath, newPath).0.root;
    var from, to := Components(oldPath), Components(newPath);
    if from != [] && to != [] {
      FoundHasParent(s.root, from);
      if Resolve(s.root, from).Found? {
        forall q: Path
          ensures See(root', q) == if from <= q then Absent else See(s.root, q)
        {
          RemoveSees(s.root, from, q);
        }
        assert See(root', from) == Absent;
      }
    }
  }

  /** Renaming a directory to a name below itself fails and loses the directory. */
  lemma RenameBelowItselfLoses(s: FsState, oldPath: string, newPath: string)
    requires Components(oldPath) != [] && Components(oldPath) < Components(newPath)
    requires Resolve(s.root, Components(oldPath)).Found?
    ensures Rename(s, oldPath, newPath).1.Err?
    ensures See(Rename(s, oldPath, newPath).0.root, Components(oldPath)) == Absent
  {
    CannotMoveBelowItself(s.root, Components(oldPath), Components(newPath));
    RenameOutcome(s, oldPath, newPath);
    FailedRename(s, oldPath, newPath);
  }

  // ---------- write and read ----------

  /** Byte by byte: the data in its range, the old bytes outside it, zero in the gap. */
  lemma WriteAtBytes(content: seq<byte>, offset: nat, data: seq<byte>, i: nat)
    ensures |WriteAt(content, offset, data)| ==
            if offset + |data| > |content| then offset + |data| else |content|
    ensures i < |WriteAt(content, offset, data)| ==>
              WriteAt(content, offset, data)[i] ==
              if offset <= i < offset + |data| then data[i - offset]
              else if i < |content| then content[i] else 0
  {
  }

  lemma ReadBack(content: seq<byte>, offset: nat, data: seq<byte>)
    ensures ReadAt(WriteAt(content, offset, data), offset, |data|) == data
  {
  }

  /** A path as an operation stores it. */
  predicate IsNormal(path: string) {
    Normalize(path) == path
  }

  lemma NormalPath(path: string)
    requires IsNormal(path)
    ensures Clean(Components(path)) && Join(Components(path)) == path
    ensures path != "" ==> Split(path) == Components(path) && Components(path) != []
    ensures path == "" <==> Components(path) == []
  {
    ComponentsClean(path);
    JoinEmpty(Components(path));
    if Components(path) != [] {
      SplitJoin(Components(path));
    }
  }

  /**
   A successful write is read back through the same handle; only the written file
   changes, in the written range and the zero-filled gap before it.
   */
  lemma WriteThenRead(s: FsState, handle: FileHandle, offset: nat, data: seq<byte>)
    requires FsInv(s)
    requires Write(s, handle, offset, data).1.Ok?
    ensures var (s', r) := Write(s, handle, offset, data);
            var cs := Components(HandlePath(s, handle).value);
            && Read(s', handle, offset, |data|) == Ok(data)
            && See(s.root, cs).Present? && See(s.root, cs).kind.FileKind?
            && (forall q: Path :: q != cs ==> See(s'.root, q) == See(s.root, q))
            && See(s'.root, cs) ==
               Present(FileKind(WriteAt(See(s.root, cs).kind.content, offset, data)), See(s.root, cs).ino)
            && s'.openFiles == s.openFiles && s'.inodeCounter == s.inodeCounter
  {
    var path := HandlePath(s, handle).value;
    var cs := Components(path);
    NormalPath(path);
    var s' := Write(s, handle, offset, data).0;
    WalkNormal(s.root, cs);
    var node := Resolve(s.root, cs).node;
    var content' := WriteAt(node.content, offset, data);
    forall q: Path
      ensures See(s'.root, q) ==
              if q == cs then Present(FileKind(content'), node.ino) else See(s.root, q)
    {
      ReplaceFileSees(s.root, cs, content', q);
    }
    WalkNormal(s'.root, cs);
    assert See(s'.root, cs) == Present(FileKind(content'), node.ino);
    ReadBack(node.content, offset, data);
  }

  // ---------- invariant ----------

  ghost predicate FsInv(s: FsState) {
    && s.root.Directory?
    && UniqueInodes(s.root)
    && InodesBelow(s.root, s.inodeCounter)
    && forall ino :: ino in s.openFiles ==>
         ino < s.inodeCounter && s.openFiles[ino].refCount > 0 && IsNormal(s.openFiles[ino].path)
  }

  lemma InitialInv()
    ensures FsInv(InitialState())
  {
  }

  lemma InsertLeafInv(s: FsState, cs: Path, n: Node)
    requires FsInv(s) && cs != [] && HasParent(s.root, cs) && IsLeaf(n) && n.ino == s.inodeCounter
    ensures FsInv(s.(root := Insert(s.root, cs, n), inodeCounter := s.inodeCounter + 1))
  {
    InsertFreshKeepsInodes(s.root, cs, n, s.inodeCounter);
  }

  lemma RemoveInv(s: FsState, cs: Path)
    requires FsInv(s) && cs != [] && HasParent(s.root, cs)
    ensures FsInv(s.(root := Remove(s.root, cs)))
  {
    RemoveKeepsInodes(s.root, cs, s.inodeCounter);
  }

  lemma AddOpenInv(s: FsState, ino: nat, path: string)
    requires FsInv(s) && ino < s.inodeCounter
    ensures FsInv(s.(openFiles := AddOpen(s.openFiles, ino, Normalize(path))))
  {
    NormalizeIdempotent(path);
  }

  lemma OpenInv(s: FsState, path: string, flags: OpenFlags)
    requires FsInv(s)
    ensures FsInv(Open(s, path, flags).0)
  {
    var cs := Components(path);
    ComponentsClean(path);
    if flags.IsDirectory() {
      OpenDirectoryInv(s, path, flags);
    } else if cs != [] {
      FoundHasParent(s.root, cs);
      if HasParent(s.root, cs) {
        if Resolve(s.root, cs).Found? {
          var node := Resolve(s.root, cs).node;
          assert See(s.root, cs).Present?;
          AddOpenInv(s, node.ino, path);
          if flags.IsTrunc() && node.File? {
            ReplaceFileKeepsInodes(s.root, cs, [], s.inodeCounter);
          }
        } else {
          InsertLeafInv(s, cs, File([], s.inodeCounter));
          AddOpenInv(s.(root := Insert(s.root, cs, File([], s.inodeCounter)),
                        inodeCounter := s.inodeCounter + 1), s.inodeCounter, path);
        }
      }
    }
  }

  /** The directory made by an open is found under the inode just taken. */
  lemma MadeDirectory(s: FsState, cs: Path)
    requires Clean(cs) && MkdirAt(s, cs).1.Ok?
    ensures Walk(MkdirAt(s, cs).0.root, Join(cs)) == Ok(Directory(map[], s.inodeCounter))
  {
    InsertUnder(s.root, cs, Directory(map[], s.inodeCounter), []);
    assert cs + [] == cs;
    WalkNormal(MkdirAt(s, cs).0.root, cs);
  }

  lemma OpenDirectoryInv(s: FsState, path: string, flags: OpenFlags)
    requires FsInv(s)
    ensures FsInv(OpenDirectory(s, Components(path), flags).0)
  {
    var cs := Components(path);
    ComponentsClean(path);
    match Resolve(s.root, cs) {
      case Found(node) =>
        assert See(s.root, cs).Present?;
        AddOpenInv(s, node.ino, path);
      case Blocked =>
      case Missing =>
        if flags.IsCreate() && MkdirAt(s, cs).1.Ok? {
          MadeDirectory(s, cs);
          InsertLeafInv(s, cs, Directory(map[], s.inodeCounter));
          NormalizeIdempotent(path);
        }
    }
  }

  /** The entry made for a new directory is new: it replaces no live one. */
  lemma NewDirectoryEntryIsFresh(s: FsState, path: string, flags: OpenFlags)
    requires FsInv(s) && flags.IsDirectory() && Resolve(s.root, Components(path)) == Missing
    requires Open(s, path, flags).1.Ok?
    ensures var (s', r) := Open(s, path, flags);
            && r == Ok(FileHandle(Some(s.inodeCounter)))
            && s.inodeCounter !in s.openFiles
            && s'.openFiles == s.openFiles[s.inodeCounter := OpenFileInfo(Normalize(path), 1)]
  {
    ComponentsClean(path);
    MadeDirectory(s, Components(path));
  }

  // ---------- runs ----------

  datatype Op =
    | OpOpen(path: string, flags: OpenFlags)
    | OpRead(handle: FileHandle, offset: nat, length: nat)
    | OpWrite(handle: FileHandle, offset: nat, data: seq<byte>)
    | OpClose(handle: FileHandle)
    | OpMkdir(path: string)
    | OpRmdir(path: string)
    | OpUnlink(path: string)
    | OpRename(oldPath: string, newPath: string)
    | OpSymlink(target: string, path: string)

  datatype Outcome =
    | Opened(handle: FileHandle)
    | Data(bytes: seq<byte>)
    | Written(count: nat)
    | Done
    | Failed(error: VfsError)

  function UnitOutcome(r: Result<(), VfsError>): Outcome {
    match r
    case Ok(_) => Done
    case Err(e) => Failed(e)
  }

  function Step(s: FsState, op: Op): (FsState, Outcome) {
    match op
    case OpOpen(path, flags) =>
      var (s', r) := Open(s, path, flags);
      (s', if r.Ok? then Opened(r.value) else Failed(r.error))
    case OpRead(handle, offset, length) =>
      var r := Read(s, handle, offset, length);
      (s, if r.Ok? then Data(r.value) else Failed(r.error))
    case OpWrite(handle, offset, data) =>
      var (s', r) := Write(s, handle, offset, data);
      (s', if r.Ok? then Written(r.value) else Failed(r.error))
    case OpClose(handle) => var (s', r) := Close(s, handle); (s', UnitOutcome(r))
    case OpMkdir(path) => var (s', r) := Mkdir(s, path); (s', UnitOutcome(r))
    case OpRmdir(path) => var (s', r) := Rmdir(s, path); (s', UnitOutcome(r))
    case OpUnlink(path) => var (s', r) := Unlink(s, path); (s', UnitOutcome(r))
    case OpRename(a, b) => var (s', r) := Rename(s, a, b); (s', UnitOutcome(r))
    case OpSymlink(target, path) => var (s', r) := SymlinkOp(s, target, path); (s', UnitOutcome(r))
  }

  lemma RenameInv(s: FsState, oldPath: string, newPath: string)
    requires FsInv(s)
    ensures FsInv(Rename(s, oldPath, newPath).0)
  {
    var from, to := Components(oldPath), Components(newPath);
    RenameOutcome(s, oldPath, newPath);
    if Rename(s, oldPath, newPath).1.Ok? {
      if from != to {
        MoveKeepsInodes(s.root, from, to, s.inodeCounter);
      }
    } else if from != [] && to != [] {
      FoundHasParent(s.root, from);
      if Resolve(s.root, from).Found? {
        RemoveInv(s, from);
      }
    }
  }

  lemma WriteInv(s: FsState, handle: FileHandle, offset: nat, data: seq<byte>)
    requires FsInv(s)
    ensures FsInv(Write(s, handle, offset, data).0)
  {
    if Write(s, handle, offset, data).1.Ok? {
      var path := HandlePath(s, handle).value;
      NormalPath(path);
      WalkNormal(s.root, Components(path));
      var node := Resolve(s.root, Components(path)).node;
      ReplaceFileKeepsInodes(s.root, Components(path), WriteAt(node.content, offset, data), s.inodeCounter);
    }
  }

  lemma StepInv(s: FsState, op: Op)
    requires FsInv(s)
    ensures FsInv(Step(s, op).0)
  {
    hide Components, Join, Resolve, Open, Write, Rename;
    match op {
      case OpOpen(path, flags) => OpenInv(s, path, flags);
      case OpRead(_, _, _) =>
      case OpWrite(handle, offset, data) => WriteInv(s, handle, offset, data);
      case OpClose(_) =>
      case OpMkdir(path) =>
        if Mkdir(s, path).1.Ok? {
          InsertLeafInv(s, Components(path), Directory(map[], s.inodeCounter));
        }
      case OpRmdir(path) =>
        if Rmdir(s, path).1.Ok? {
          RemoveInv(s, Components(path));
        }
      case OpUnlink(path) =>
        if Unlink(s, path).1.Ok? {
          RemoveInv(s, Components(path));
        }
      case OpRename(a, b) => RenameInv(s, a, b);
      case OpSymlink(target, path) =>
        if SymlinkOp(s, target, path).1.Ok? {
          InsertLeafInv(s, Components(path), Symlink(target, s.inodeCounter));
        }
    }
  }

  /** The state after a run from the empty filesystem. */
  function Run(ops: seq<Op>): FsState {
    if ops == [] then InitialState() else Step(Run(ops[..|ops| - 1]), ops[|ops| - 1]).0
  }

  /** What the caller of the last operation of a run saw. */
  function LastOutcome(ops: seq<Op>): Outcome
    requires ops != []
  {
    Step(Run(ops[..|ops| - 1]), ops[|ops| - 1]).1
  }

  /** In every reachable state the inodes of the tree are distinct and below the counter. */
  lemma {:induction false} RunInv(ops: seq<Op>)
    ensures FsInv(Run(ops))
  {
    if ops == [] {
      InitialInv();
    } else {
      RunInv(ops[..|ops| - 1]);
      StepInv(Run(ops[..|ops| - 1]), ops[|ops| - 1]);
    }
  }

  /** Opens of each inode not yet closed, counted from what the callers saw. */
  function Unclosed(ops: seq<Op>): multiset<nat> {
    if ops == [] then multiset{}
    else
      var before := Unclosed(ops[..|ops| - 1]);
      var op, outcome := ops[|ops| - 1], LastOutcome(ops);
      if outcome.Opened? && outcome.handle.backendInternalId.Some?
      then before + multiset{outcome.handle.backendInternalId.value}
      else if op.OpClose? && op.handle.backendInternalId.Some?
      then before - multiset{op.handle.backendInternalId.value}
      else before
  }

  ghost predicate OpenCountsAre(open: map<nat, OpenFileInfo>, unclosed: multiset<nat>) {
    forall ino: nat ::
      && (ino in open <==> unclosed[ino] > 0)
      && (ino in open ==> open[ino].refCount == unclosed[ino])
  }

  /** A successful open adds one reference under the inode that the handle names; a failed one adds none. */
  lemma OpenAddsReference(s: FsState, path: string, flags: OpenFlags)
    requires FsInv(s)
    ensures var (s', r) := Open(s, path, flags);
            && (r.Ok? ==> r.value.backendInternalId.Some?)
            && (r.Ok? ==>
                  s'.openFiles == AddOpen(s.openFiles, r.value.backendInternalId.value, Join(Components(path))))
            && (r.Err? ==> s'.openFiles == s.openFiles)
  {
    hide Components, Join, OpenFile, OpenDirectory;
    if flags.IsDirectory() {
      OpenDirectoryAddsReference(s, path, flags);
    } else {
      OpenFileAddsReference(s, Components(path), flags);
    }
  }

  lemma OpenFileAddsReference(s: FsState, cs: Path, flags: OpenFlags)
    ensures var (s', r) := OpenFile(s, cs, flags);
            && (r.Ok? ==> r.value.backendInternalId.Some?)
            && (r.Ok? ==> s'.openFiles == AddOpen(s.openFiles, r.value.backendInternalId.value, Join(cs)))
            && (r.Err? ==> s'.openFiles == s.openFiles)
  {
  }

  lemma OpenDirectoryAddsReference(s: FsState, path: string, flags: OpenFlags)
    requires FsInv(s) && flags.IsDirectory()
    ensures var (s', r) := Open(s, path, flags);
            && (r.Ok? ==> r.value.backendInternalId.Some?)
            && (r.Ok? ==>
                  s'.openFiles == AddOpen(s.openFiles, r.value.backendInternalId.value, Join(Components(path))))
            && (r.Err? ==> s'.openFiles == s.openFiles)
  {
    hide Join, Insert, Components, FsInv, OpenFile;
    if Resolve(s.root, Components(path)) == Missing && Open(s, path, flags).1.Ok? {
      NewDirectoryEntryIsFresh(s, path, flags);
    }
  }

  /** What each operation does to the table of open files. */
  lemma StepOpenFiles(s: FsState, op: Op)
    requires FsInv(s)
    ensures var (s', outcome) := Step(s, op);
            && (outcome.Opened? ==> exists ino, path ::
                  outcome.handle == FileHandle(Some(ino)) &&
                  s'.openFiles == AddOpen(s.openFiles, ino, path))
            && (op.OpClose? ==> s'.openFiles == Close(s, op.handle).0.openFiles)
            && (!outcome.Opened? && !op.OpClose? ==> s'.openFiles == s.openFiles)
  {
    hide FsInv, Components, Join, Open;
    if op.OpOpen? {
      OpenAddsReference(s, op.path, op.flags);
      var (s', r) := Open(s, op.path, op.flags);
      if r.Ok? {
        assert r.value == FileHandle(Some(r.value.backendInternalId.value));
      }
    }
  }

  lemma OpenCounted(open: map<nat, OpenFileInfo>, unclosed: multiset<nat>, ino: nat, path: string)
    requires OpenCountsAre(open, unclosed)
    ensures OpenCountsAre(AddOpen(open, ino, path), unclosed + multiset{ino})
  {
  }

  lemma CloseCounted(s: FsState, unclosed: multiset<nat>, handle: FileHandle)
    requires OpenCountsAre(s.openFiles, unclosed)
    ensures handle.backendInternalId.Some? ==>
              OpenCountsAre(Close(s, handle).0.openFiles,
                            unclosed - multiset{handle.backendInternalId.value})
    ensures handle.backendInternalId.None? ==> Close(s, handle).0 == s
  {
  }

  /**
   In every reachable state an inode has an open entry exactly while opens of it
   remain unclosed, and its reference count is their number.
   */
  lemma {:induction false} OpenEntriesCountOpens(ops: seq<Op>)
    ensures OpenCountsAre(Run(ops).openFiles, Unclosed(ops))
  {
    if ops != [] {
      var before, op := ops[..|ops| - 1], ops[|ops| - 1];
      OpenEntriesCountOpens(before);
      RunInv(before);
      var s := Run(before);
      var (s', outcome) := Step(s, op);
      assert Run(ops) == s' && LastOutcome(ops) == outcome;
      StepOpenFiles(s, op);
      if outcome.Opened? {
        var ino, path :| outcome.handle == FileHandle(Some(ino)) &&
                         s'.openFiles == AddOpen(s.openFiles, ino, path);
        OpenCounted(s.openFiles, Unclosed(before), ino, path);
      } else if op.OpClose? {
        CloseCounted(s, Unclosed(before), op.handle);
      }
    }
  }
}
