/**
 Handles and files.  A handle names an inode, but reads and writes follow the path that was
 recorded when the inode was first opened.
 */
module MemoryFsHandles {
  import opened Core
  import opened Vfs
  import opened Paths
  import opened MemoryTree
  import opened MemoryFs
  import opened MemoryFsEffects

  /** The inode is seen at the path. */
  predicate ShowsInode(root: Node, q: Path, ino: nat) {
    See(root, q).Present? && See(root, q).ino == ino
  }

  /** Every open inode is still at its recorded path. */
  ghost predicate InPlace(s: FsState) {
    forall ino :: ino in s.openFiles ==> ShowsInode(s.root, Components(s.openFiles[ino].path), ino)
  }

  /** The call takes what is at `q` away from there. */
  ghost predicate TakesAway(s: FsState, op: Op, q: Path) {
    match op
    case OpUnlink(path) =>
      q != [] && q == Components(path) && !IsDirectoryView(See(s.root, q))
    case OpRmdir(path) =>
      q != [] && q == Components(path) && IsDirectoryView(See(s.root, q)) && NothingBelow(s.root, q)
    case OpRename(oldPath, newPath) =>
      var from, to := Components(oldPath), Components(newPath);
      && from != [] && to != [] && from != to && See(s.root, from).Present?
      && (from <= q || (to <= q && CanMove(s.root, from, to)))
    case _ => false
  }

  // ---------- one call ----------

  lemma RemovalKeeps(root: Node, root': Node, cs: Path, q: Path)
    requires forall p: Path :: See(root', p) == if cs <= p then Absent else See(root, p)
    requires See(root, q).Present?
    ensures ShowsInode(root', q, See(root, q).ino) <==> !(cs <= q)
  {
  }

  lemma UnlinkKeeps(s: FsState, path: string, q: Path)
    requires See(s.root, q).Present?
    ensures ShowsInode(Unlink(s, path).0.root, q, See(s.root, q).ino) <==> !TakesAway(s, OpUnlink(path), q)
  {
    hide Unlink;
    UnlinkEffect(s, path);
    var cs := Components(path);
    if Unlink(s, path).1.Ok? {
      RemovalKeeps(s.root, Unlink(s, path).0.root, cs, q);
      if cs < q {
        LeafHasNothingBelow(s.root, cs, q);
      }
    }
  }

  lemma LeafHasNothingBelow(root: Node, cs: Path, q: Path)
    requires See(root, cs).Present? && !IsDirectoryView(See(root, cs)) && cs < q
    ensures !See(root, q).Present?
  {
    assert q == cs + q[|cs|..];
    ResolveConcat(root, cs, q[|cs|..]);
  }

  lemma RmdirKeeps(s: FsState, path: string, q: Path)
    requires See(s.root, q).Present?
    ensures ShowsInode(Rmdir(s, path).0.root, q, See(s.root, q).ino) <==> !TakesAway(s, OpRmdir(path), q)
  {
    hide Rmdir;
    RmdirEffect(s, path);
    var cs := Components(path);
    if Rmdir(s, path).1.Ok? {
      RemovalKeeps(s.root, Rmdir(s, path).0.root, cs, q);
      assert cs < q ==> !See(s.root, q).Present?;
    }
  }

  lemma MoveKeeps(root: Node, from: Path, to: Path, q: Path)
    requires UniqueInodes(root) && from != [] && to != [] && from != to && CanMove(root, from, to)
    requires See(root, q).Present?
    ensures ShowsInode(Move(root, from, to), q, See(root, q).ino) <==> !(from <= q) && !(to <= q)
  {
    hide Move, CanMove;
    var root' := Move(root, from, to);
    if See(root', q).Present? {
      MoveSees(root, from, to, q);
      if to <= q {
        assert q == to + q[|to|..];
        SameSuffix(from, to, q[|to|..]);
      }
    }
    if !(from <= q) && !(to <= q) {
      MoveElsewhere(root, from, to, q);
    }
  }

  lemma SameSuffix(a: Path, b: Path, c: Path)
    ensures a + c == b + c ==> a == b
  {
    assert (a + c)[..|a|] == a && (b + c)[..|b|] == b;
  }

  lemma RenameKeeps(s: FsState, oldPath: string, newPath: string, q: Path)
    requires UniqueInodes(s.root) && See(s.root, q).Present?
    ensures ShowsInode(Rename(s, oldPath, newPath).0.root, q, See(s.root, q).ino) <==>
            !TakesAway(s, OpRename(oldPath, newPath), q)
  {
    hide Rename, Move, UniqueInodes;
    var from, to := Components(oldPath), Components(newPath);
    RenameOutcome(s, oldPath, newPath);
    if Rename(s, oldPath, newPath).1.Ok? {
      if from != to {
        MoveKeeps(s.root, from, to, q);
      }
    } else {
      FailedRename(s, oldPath, newPath);
      var root' := Rename(s, oldPath, newPath).0.root;
      if root' != s.root {
        RemovalKeeps(s.root, root', from, q);
      }
    }
  }

  lemma CreationKeeps(root: Node, root': Node, cs: Path, v: View, q: Path)
    requires Creates(root, root', cs, v) && See(root, cs) == Absent && See(root, q).Present?
    ensures See(root', q) == See(root, q)
  {
    if cs <= q {
      assert q == cs + q[|cs|..];
      ResolveConcat(root, cs, q[|cs|..]);
    }
  }

  lemma OpenKeeps(s: FsState, path: string, flags: OpenFlags, q: Path)
    requires See(s.root, q).Present?
    ensures ShowsInode(Open(s, path, flags).0.root, q, See(s.root, q).ino)
  {
    hide Open;
    var cs := Components(path);
    var (s', r) := Open(s, path, flags);
    if flags.IsDirectory() {
      OpenDirectoryEffect(s, path, flags);
    } else {
      OpenFileEffect(s, path, flags);
    }
    if r.Ok? && See(s.root, cs) == Absent {
      CreationKeeps(s.root, s'.root, cs, See(s'.root, cs), q);
    }
  }

  /** What a call does to the place of an inode, for every call and every path. */
  lemma StepKeeps(s: FsState, op: Op, q: Path)
    requires FsInv(s) && See(s.root, q).Present?
    ensures ShowsInode(Step(s, op).0.root, q, See(s.root, q).ino) <==> !TakesAway(s, op, q)
  {
    hide Open, Write, Mkdir, Rmdir, Unlink, Rename, SymlinkOp, Read, UniqueInodes;
    match op {
      case OpOpen(path, flags) => OpenKeeps(s, path, flags, q);
      case OpRead(_, _, _) =>
      case OpWrite(handle, offset, data) =>
        if Write(s, handle, offset, data).1.Ok? {
          WriteThenRead(s, handle, offset, data);
        } else {
          ReadWriteOutcome(s, handle, offset, 0, data);
        }
      case OpClose(_) =>
      case OpMkdir(path) =>
        MkdirEffect(s, path);
        if Mkdir(s, path).1.Ok? {
          CreationKeeps(s.root, Mkdir(s, path).0.root, Components(path), Present(DirectoryKind, s.inodeCounter), q);
        }
      case OpRmdir(path) => RmdirKeeps(s, path, q);
      case OpUnlink(path) => UnlinkKeeps(s, path, q);
      case OpRename(a, b) => RenameKeeps(s, a, b, q);
      case OpSymlink(target, path) =>
        SymlinkEffect(s, target, path);
        if SymlinkOp(s, target, path).1.Ok? {
          CreationKeeps(s.root, SymlinkOp(s, target, path).0.root, Components(path),
                        Present(SymlinkKind(target), s.inodeCounter), q);
        }
    }
  }

  /** The call takes no open inode away from its recorded path. */
  ghost predicate Undisturbed(s: FsState, op: Op) {
    forall ino :: ino in s.openFiles ==> !TakesAway(s, op, Components(s.openFiles[ino].path))
  }

  /** A file just opened is where its handle was opened. */
  lemma OpenedInPlace(s: FsState, path: string, flags: OpenFlags)
    requires Open(s, path, flags).1.Ok?
    ensures var (s', r) := Open(s, path, flags);
            r.value.backendInternalId.Some? && ShowsInode(s'.root, Components(path), r.value.backendInternalId.value)
  {
    hide Open;
    if flags.IsDirectory() {
      OpenDirectoryEffect(s, path, flags);
    } else {
      OpenFileEffect(s, path, flags);
    }
  }

  lemma OpenInPlace(s: FsState, path: string, flags: OpenFlags)
    requires FsInv(s) && InPlace(s)
    ensures InPlace(Open(s, path, flags).0)
  {
    hide Open, FsInv, ShowsInode;
    var (s', r) := Open(s, path, flags);
    var cs := Components(path);
    OpenAddsReference(s, path, flags);
    ComponentsClean(path);
    ComponentsOfJoin(cs);
    forall ino | ino in s'.openFiles
      ensures ShowsInode(s'.root, Components(s'.openFiles[ino].path), ino)
    {
      if ino in s.openFiles {
        PlaceKept(s, OpOpen(path, flags), ino);
      } else {
        OpenedInPlace(s, path, flags);
      }
    }
  }

  lemma PlaceKept(s: FsState, op: Op, ino: nat)
    requires FsInv(s) && InPlace(s) && ino in s.openFiles
    ensures ShowsInode(Step(s, op).0.root, Components(s.openFiles[ino].path), ino) <==>
            !TakesAway(s, op, Components(s.openFiles[ino].path))
  {
    hide FsInv, Step, TakesAway;
    StepKeeps(s, op, Components(s.openFiles[ino].path));
  }

  /** A call keeps every open inode at its recorded path exactly when it takes none of them away. */
  lemma StepInPlace(s: FsState, op: Op)
    requires FsInv(s) && InPlace(s)
    ensures InPlace(Step(s, op).0) <==> Undisturbed(s, op)
  {
    hide FsInv, ShowsInode, Open;
    if op.OpOpen? {
      OpenInPlace(s, op.path, op.flags);
    } else {
      hide Step, TakesAway;
      NotOpened(s, op);
    }
  }

  lemma NotOpened(s: FsState, op: Op)
    requires FsInv(s) && InPlace(s) && !op.OpOpen?
    ensures InPlace(Step(s, op).0) <==> Undisturbed(s, op)
  {
    hide FsInv, ShowsInode;
    OpenEntriesAfter(s, op);
    hide Step, TakesAway;
    var s' := Step(s, op).0;
    forall ino | ino in s.openFiles
      ensures ShowsInode(s'.root, Components(s.openFiles[ino].path), ino) <==>
              !TakesAway(s, op, Components(s.openFiles[ino].path))
    {
      PlaceKept(s, op, ino);
    }
  }

  /** Other calls keep the recorded paths; a close may drop an entry and moves nothing. */
  lemma OpenEntriesAfter(s: FsState, op: Op)
    requires FsInv(s) && !op.OpOpen?
    ensures var s' := Step(s, op).0;
            && (forall ino :: ino in s'.openFiles ==>
                  ino in s.openFiles && s'.openFiles[ino].path == s.openFiles[ino].path)
            && (op.OpClose? ==> forall q: Path :: !TakesAway(s, op, q))
            && (!op.OpClose? ==> s'.openFiles == s.openFiles)
  {
    StepOpenFiles(s, op);
    hide FsInv, Open, Write, Mkdir, Rmdir, Unlink, Rename, SymlinkOp, Read;
  }

  // ---------- whole runs ----------

  ghost predicate AlwaysInPlace(ops: seq<Op>) {
    InPlace(Run(ops)) && (ops != [] ==> AlwaysInPlace(ops[..|ops| - 1]))
  }

  ghost predicate AlwaysUndisturbed(ops: seq<Op>) {
    ops != [] ==>
      Undisturbed(Run(ops[..|ops| - 1]), ops[|ops| - 1]) && AlwaysUndisturbed(ops[..|ops| - 1])
  }

  /**
   In every state of a run all open inodes are at their recorded paths if and only if no call
   unlinks, removes, renames away or renames over an inode that is open.
   */
  lemma {:induction false} InPlaceIffUndisturbed(ops: seq<Op>)
    ensures AlwaysInPlace(ops) <==> AlwaysUndisturbed(ops)
  {
    hide Step, Undisturbed;
    if ops != [] {
      hide InPlace;
      var before := ops[..|ops| - 1];
      InPlaceIffUndisturbed(before);
      RunInv(before);
      if InPlace(Run(before)) {
        StepInPlace(Run(before), ops[|ops| - 1]);
      }
    }
  }

  /**
   While the inode is at its recorded path, a handle reads and writes exactly the file with its
   own inode; while it is not, a successful write goes to a file with another inode.
   */
  lemma HandleReachesItsFile(s: FsState, handle: FileHandle, offset: nat, length: nat, data: seq<byte>, q: Path)
    requires FsInv(s) && Write(s, handle, offset, data).1.Ok? && See(s.root, q).Present?
    ensures handle.backendInternalId.Some? && handle.backendInternalId.value in s.openFiles
    ensures var ino := handle.backendInternalId.value;
            var cs := Components(s.openFiles[ino].path);
            var s' := Write(s, handle, offset, data).0;
            && (ShowsInode(s.root, cs, ino) && See(s.root, q).ino == ino ==>
                  && See(s.root, q).kind.FileKind?
                  && See(s'.root, q) ==
                     Present(FileKind(WriteAt(See(s.root, q).kind.content, offset, data)), ino)
                  && Read(s, handle, offset, length) == Ok(ReadAt(See(s.root, q).kind.content, offset, length)))
            && (ShowsInode(s.root, cs, ino) && See(s.root, q).ino != ino ==> See(s'.root, q) == See(s.root, q))
            && (!ShowsInode(s.root, cs, ino) && See(s.root, q).ino == ino ==> See(s'.root, q) == See(s.root, q))
            && (!ShowsInode(s.root, cs, ino) ==>
                  See(s.root, cs).Present? && See(s.root, cs).ino != ino && See(s.root, cs).kind.FileKind? &&
                  See(s'.root, cs).Present? && See(s'.root, cs).kind ==
                  FileKind(WriteAt(See(s.root, cs).kind.content, offset, data)))
  {
    assert HandlePath(s, handle).Some?;
    WriteThenRead(s, handle, offset, data);
    ReadsPath(s, handle, offset, length, data);
    hide Write, Read, WriteAt, ReadAt;
  }

  lemma ReadsPath(s: FsState, handle: FileHandle, offset: nat, length: nat, data: seq<byte>)
    requires FsInv(s) && Write(s, handle, offset, data).1.Ok?
    ensures var v := See(s.root, Components(HandlePath(s, handle).value));
            && v.Present? && v.kind.FileKind?
            && Read(s, handle, offset, length) == Ok(ReadAt(v.kind.content, offset, length))
  {
    hide ReadAt, WriteAt;
    var path := HandlePath(s, handle).value;
    NormalPath(path);
    WalkNormal(s.root, Components(path));
  }

  // ---------- a handle that writes another file ----------

  const CREATING := OpenFlags(CREATE)
  const FIRST := FileHandle(Some(2))

  function ReopenedName(): seq<Op> {
    [OpOpen("f", CREATING), OpRename("f", "g"), OpOpen("f", CREATING), OpWrite(FIRST, 0, [7])]
  }

  function Files(files: map<string, Node>, open: map<nat, OpenFileInfo>, counter: nat): FsState {
    FsState(Directory(files, ROOT_INO), open, counter)
  }

  lemma NamesAreComponents()
    ensures Components("f") == ["f"] && Components("g") == ["g"] && Join(["f"]) == "f" && Join(["g"]) == "g"
    ensures CREATING.IsCreate() && !CREATING.IsExcl() && !CREATING.IsTrunc() && !CREATING.IsDirectory()
  {
    assert Join(["f"]) == "f" && Join(["g"]) == "g";
    ComponentsOfJoin(["f"]);
    ComponentsOfJoin(["g"]);
  }

  lemma CreateFile(files: map<string, Node>, open: map<nat, OpenFileInfo>, counter: nat)
    requires "f" !in files && counter !in open
    ensures Step(Files(files, open, counter), OpOpen("f", CREATING)) ==
            (Files(files["f" := File([], counter)], open[counter := OpenFileInfo("f", 1)], counter + 1),
             Opened(FileHandle(Some(counter))))
  {
    NamesAreComponents();
    hide Components, Join, OpenFlags.IsCreate, OpenFlags.IsExcl, OpenFlags.IsTrunc, OpenFlags.IsDirectory;
  }

  lemma RenameFile(n: Node, open: map<nat, OpenFileInfo>, counter: nat)
    ensures Step(Files(map["f" := n], open, counter), OpRename("f", "g")).0 ==
            Files(map["g" := n], open, counter)
  {
    NamesAreComponents();
    hide Components, Join;
    assert map["f" := n] - {"f"} == map[];
  }

  lemma WriteFirst(s: FsState)
    requires 2 in s.openFiles && s.openFiles[2].path == "f" && FsInv(s)
    requires See(s.root, ["f"]) == Present(FileKind([]), 3) && See(s.root, ["g"]) == Present(FileKind([]), 2)
    ensures var (s', outcome) := Step(s, OpWrite(FIRST, 0, [7]));
            && outcome.Written?
            && See(s'.root, ["f"]) == Present(FileKind([7]), 3) && See(s'.root, ["g"]) == Present(FileKind([]), 2)
  {
    NamesAreComponents();
    hide Components, Join, Read, Write, FsInv;
    ReadWriteOutcome(s, FIRST, 0, 0, [7]);
    WriteThenRead(s, FIRST, 0, [7]);
    assert WriteAt([], 0, [7]) == [7];
  }

  /**
   A file is opened and renamed, and its old name is created again.  The first handle still names
   the renamed file's inode 2, but its write changes the new file, inode 3.
   */
  lemma ReopenedNameRun()
    ensures var s := Run(ReopenedName());
            && LastOutcome(ReopenedName()[..1]) == Opened(FIRST)
            && LastOutcome(ReopenedName()).Written?
            && See(s.root, ["g"]) == Present(FileKind([]), 2)
            && See(s.root, ["f"]) == Present(FileKind([7]), 3)
  {
    hide Step, FsInv;
    var ops := ReopenedName();
    assert ops[..4] == ops && ops[..4][..3] == ops[..3] && ops[..3][..2] == ops[..2] && ops[..2][..1] == ops[..1] &&
           ops[..1][..0] == [];
    CreateFile(map[], map[], 2);
    var open1 := map[2 := OpenFileInfo("f", 1)];
    assert Run(ops[..1]) == Files(map["f" := File([], 2)], open1, 3);
    RenameFile(File([], 2), open1, 3);
    assert Run(ops[..2]) == Files(map["g" := File([], 2)], open1, 3);
    CreateFile(map["g" := File([], 2)], open1, 3);
    var s3 := Run(ops[..3]);
    assert s3 == Files(map["g" := File([], 2)]["f" := File([], 3)], open1[3 := OpenFileInfo("f", 1)], 4);
    RunInv(ops[..3]);
    WriteFirst(s3);
  }
}
