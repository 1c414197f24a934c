/** The in-memory storage backend as an object whose methods change its fields. */
module MemoryBackend {
  import opened Core
  import opened Vfs
  import opened Paths
  import opened MemoryTree
  import Fs = MemoryFs

  /** Follow the components of a normalised path from the root. */
  method WalkTo(root: Node, path: string) returns (r: Result<Node, VfsError>)
    ensures r == Fs.Walk(root, path)
  {
    if path == "" {
      return Ok(root);
    }
    var parts := Split(path);
    var current := root;
    for i := 0 to |parts|
      invariant Resolve(root, parts) == Resolve(current, parts[i..])
    {
      assert parts[i..][1..] == parts[i + 1..];
      match current {
        case Directory(children, _) =>
          if parts[i] !in children {
            return Err(NotFound(path));
          }
          current := children[parts[i]];
        case _ =>
          return Err(NotADirectory(path));
      }
    }
    assert parts[|parts|..] == [];
    r := Ok(current);
  }

  method WalkToDirectory(root: Node, path: string) returns (r: Result<Node, VfsError>)
    ensures r == Fs.WalkToDirectory(root, path)
  {
    r := WalkTo(root, path);
    if r.Ok? && !r.value.Directory? {
      r := Err(NotADirectory(path));
    }
  }

  class Backend {
    var root: Node
    var openFiles: map<nat, Fs.OpenFileInfo>
    var inodeCounter: nat

    ghost function State(): Fs.FsState
      reads this
    {
      Fs.FsState(root, openFiles, inodeCounter)
    }

    constructor ()
      ensures State() == Fs.InitialState()
    {
      root := Directory(map[], 1);
      openFiles := map[];
      inodeCounter := 2;
    }

    method NextInode() returns (ino: nat)
      modifies this`inodeCounter
      ensures ino == old(inodeCounter) && inodeCounter == old(inodeCounter) + 1
    {
      ino := inodeCounter;
      inodeCounter := inodeCounter + 1;
    }

    /** The parent directory and last name of a normalised non-root path. */
    method FindParent(tree: Node, path: string, ghost cs: Path)
      returns (parentPath: string, name: string, r: Result<Node, VfsError>)
      requires cs != [] && Clean(cs) && path == Join(cs)
      ensures parentPath == Join(ParentOf(cs)) && name == NameOf(cs)
      ensures r == Fs.ParentDir(tree, cs)
      ensures PathParts(parentPath) == ParentOf(cs)
    {
      SplitPathOfJoin(cs);
      var parts := SplitPath(path).value;
      name := parts.1;
      parentPath := NormalizePath(parts.0);
      ComponentsOfJoin(ParentOf(cs));
      r := WalkToDirectory(tree, parentPath);
      Fs.ParentDirIsWalk(tree, cs);
      PathPartsOfJoin(ParentOf(cs));
    }

    method GetNode(path: string) returns (r: Result<Node, VfsError>)
      ensures r == Fs.GetNode(State(), path)
    {
      var p := NormalizePath(path);
      r := WalkTo(root, p);
    }

    method Mkdir(path: string) returns (r: Result<(), VfsError>)
      modifies this`root, this`inodeCounter
      ensures (State(), r) == Fs.Mkdir(old(State()), path)
    {
      var p := NormalizePath(path);
      ghost var cs := Components(path);
      NormalForm(path);
      if p == "" {
        return Err(AlreadyExists("/"));
      }
      var parentPath, name, parent := FindParent(root, p, cs);
      if parent.Err? {
        return Err(parent.error);
      }
      if name in parent.value.children {
        return Err(AlreadyExists(p));
      }
      var ino := NextInode();
      var dir := parent.value.(children := parent.value.children[name := Directory(map[], ino)]);
      root := Replace(root, PathParts(parentPath), dir);
      r := Ok(());
    }

    method Symlink(target: string, path: string) returns (r: Result<(), VfsError>)
      modifies this`root, this`inodeCounter
      ensures (State(), r) == Fs.SymlinkOp(old(State()), target, path)
    {
      var p := NormalizePath(path);
      ghost var cs := Components(path);
      NormalForm(path);
      if p == "" {
        return Err(InvalidPath("Cannot create symlink at root"));
      }
      var parentPath, name, parent := FindParent(root, p, cs);
      if parent.Err? {
        return Err(parent.error);
      }
      if name in parent.value.children {
        return Err(AlreadyExists(p));
      }
      var ino := NextInode();
      var dir := parent.value.(children := parent.value.children[name := Node.Symlink(target, ino)]);
      root := Replace(root, PathParts(parentPath), dir);
      r := Ok(());
    }

    method Rmdir(path: string) returns (r: Result<(), VfsError>)
      modifies this`root
      ensures (State(), r) == Fs.Rmdir(old(State()), path)
    {
      var p := NormalizePath(path);
      ghost var cs := Components(path);
      NormalForm(path);
      if p == "" {
        return Err(InvalidPath("Cannot remove root"));
      }
      var parentPath, name, parent := FindParent(root, p, cs);
      if parent.Err? {
        return Err(parent.error);
      }
      if name !in parent.value.children {
        return Err(NotFound(p));
      }
      match parent.value.children[name] {
        case Directory(children, _) =>
          if children != map[] {
            return Err(DirectoryNotEmpty(p));
          }
        case _ =>
          return Err(NotADirectory(p));
      }
      var dir := parent.value.(children := parent.value.children - {name});
      root := Replace(root, PathParts(parentPath), dir);
      r := Ok(());
    }

    method Unlink(path: string) returns (r: Result<(), VfsError>)
      modifies this`root
      ensures (State(), r) == Fs.Unlink(old(State()), path)
    {
      var p := NormalizePath(path);
      ghost var cs := Components(path);
      NormalForm(path);
      if p == "" {
        return Err(InvalidPath("Cannot unlink root"));
      }
      var parentPath, name, parent := FindParent(root, p, cs);
      if parent.Err? {
        return Err(parent.error);
      }
      if name !in parent.value.children {
        return Err(NotFound(p));
      }
      if parent.value.children[name].Directory? {
        return Err(IsADirectory(p));
      }
      var dir := parent.value.(children := parent.value.children - {name});
      root := Replace(root, PathParts(parentPath), dir);
      r := Ok(());
    }

    method Rename(oldPath: string, newPath: string) returns (r: Result<(), VfsError>)
      modifies this`root
      ensures (State(), r) == Fs.Rename(old(State()), oldPath, newPath)
    {
      var oldP := NormalizePath(oldPath);
      var newP := NormalizePath(newPath);
      ghost var from, to := Components(oldPath), Components(newPath);
      NormalForm(oldPath);
      NormalForm(newPath);
      if oldP == "" || newP == "" {
        return Err(InvalidPath("Cannot rename root"));
      }
      if oldP == newP {
        ComponentsOfJoin(from);
        ComponentsOfJoin(to);
        return Ok(());
      }

      // Take the node out of its old place.
      var oldParentPath, oldName, oldParent := FindParent(root, oldP, from);
      if oldParent.Err? {
        return Err(oldParent.error);
      }
      if oldName !in oldParent.value.children {
        return Err(NotFound(oldP));
      }
      var node := oldParent.value.children[oldName];
      var oldDir := oldParent.value.(children := oldParent.value.children - {oldName});
      root := Replace(root, PathParts(oldParentPath), oldDir);

      // Put it in its new place.
      var newParentPath, newName, newParent := FindParent(root, newP, to);
      if newParent.Err? {
        return Err(newParent.error);
      }
      var newDir := newParent.value.(children := newParent.value.children[newName := node]);
      root := Replace(root, PathParts(newParentPath), newDir);
      r := Ok(());
    }

    /** Count one more open of `ino`. */
    method CountOpen(ino: nat, path: string)
      modifies this`openFiles
      ensures openFiles == Fs.AddOpen(old(openFiles), ino, path)
    {
      if ino in openFiles {
        var info := openFiles[ino];
        openFiles := openFiles[ino := info.(refCount := info.refCount + 1)];
      } else {
        openFiles := openFiles[ino := Fs.OpenFileInfo(path, 1)];
      }
    }

    method OpenDirectory(p: string, flags: OpenFlags, ghost cs: Path) returns (r: Result<FileHandle, VfsError>)
      requires Clean(cs) && p == Join(cs)
      modifies this
      ensures (State(), r) == Fs.OpenDirectory(old(State()), cs, flags)
    {
      Fs.WalkNormal(root, cs);
      ComponentsOfJoin(cs);
      var existing := GetNode(p);
      if existing.Ok? {
        if !existing.value.Directory? {
          return Err(NotADirectory(p));
        }
        if flags.IsCreate() && flags.IsExcl() {
          return Err(AlreadyExists(p));
        }
        var ino := existing.value.ino;
        CountOpen(ino, p);
        return Ok(FileHandle(Some(ino)));
      }
      if !(existing.error.NotFound? && flags.IsCreate()) {
        return Err(existing.error);
      }
      var made := Mkdir(p);
      if made.Err? {
        return Err(made.error);
      }
      var node := GetNode(p);
      if node.Err? {
        return Err(node.error);
      }
      openFiles := openFiles[node.value.ino := Fs.OpenFileInfo(p, 1)];
      r := Ok(FileHandle(Some(node.value.ino)));
    }

    method OpenFile(p: string, flags: OpenFlags, ghost cs: Path) returns (r: Result<FileHandle, VfsError>)
      requires Clean(cs) && p == Join(cs)
      modifies this
      ensures (State(), r) == Fs.OpenFile(old(State()), cs, flags)
    {
      JoinEmpty(cs);
      SplitPathOfJoin(cs);
      if SplitPath(p).None? {
        return Err(InvalidPath("Cannot open root as file"));
      }
      var parentPath, name, parent := FindParent(root, p, cs);
      if parent.Err? {
        return Err(parent.error);
      }
      var ino: nat;
      if name in parent.value.children {
        if flags.IsCreate() && flags.IsExcl() {
          return Err(AlreadyExists(p));
        }
        var node := parent.value.children[name];
        if node.Directory? {
          return Err(IsADirectory(p));
        }
        ino := node.ino;
        if flags.IsTrunc() && node.File? {
          PathPartsOfJoin(cs);
          root := Replace(root, PathParts(p), node.(content := []));
        }
      } else if flags.IsCreate() {
        ino := NextInode();
        var dir := parent.value.(children := parent.value.children[name := File([], ino)]);
        root := Replace(root, PathParts(parentPath), dir);
      } else {
        return Err(NotFound(p));
      }
      CountOpen(ino, p);
      r := Ok(FileHandle(Some(ino)));
    }

    method Open(path: string, params: CreateParams) returns (r: Result<FileHandle, VfsError>)
      modifies this
      ensures (State(), r) == Fs.Open(old(State()), path, params.ToOpenFlags())
    {
      var p := NormalizePath(path);
      NormalForm(path);
      var flags := params.ToOpenFlags();
      if flags.IsDirectory() {
        r := OpenDirectory(p, flags, Components(path));
      } else {
        r := OpenFile(p, flags, Components(path));
      }
    }

    method Close(handle: FileHandle) returns (r: Result<(), VfsError>)
      requires forall ino :: ino in openFiles ==> openFiles[ino].refCount > 0
      modifies this`openFiles
      ensures (State(), r) == Fs.Close(old(State()), handle)
    {
      if handle.backendInternalId.None? {
        return Err(InvalidHandle);
      }
      var ino := handle.backendInternalId.value;
      if ino in openFiles {
        var count := openFiles[ino].refCount - 1;
        openFiles := openFiles[ino := openFiles[ino].(refCount := count)];
        if count == 0 {
          openFiles := openFiles - {ino};
          assert openFiles == old(openFiles) - {ino};
        }
      }
      r := Ok(());
    }

    method Read(handle: FileHandle, offset: nat, length: nat) returns (r: Result<seq<byte>, VfsError>)
      ensures r == Fs.Read(State(), handle, offset, length)
    {
      if handle.backendInternalId.None? || handle.backendInternalId.value !in openFiles {
        return Err(InvalidHandle);
      }
      var path := openFiles[handle.backendInternalId.value].path;
      var node := GetNode(path);
      if node.Err? {
        return Err(node.error);
      }
      match node.value {
        case File(content, _) =>
          if offset >= |content| {
            return Ok([]);
          }
          var end := if offset + length < |content| then offset + length else |content|;
          return Ok(content[offset..end]);
        case Directory(_, _) => return Err(IsADirectory(path));
        case Symlink(_, _) => return Err(InvalidHandle);
      }
    }

    method Write(handle: FileHandle, offset: nat, data: seq<byte>) returns (r: Result<nat, VfsError>)
      modifies this`root
      ensures (State(), r) == Fs.Write(old(State()), handle, offset, data)
    {
      if handle.backendInternalId.None? || handle.backendInternalId.value !in openFiles {
        return Err(InvalidHandle);
      }
      var path := openFiles[handle.backendInternalId.value].path;
      if path == "" {
        return Err(IsADirectory(path));
      }
      var node := WalkTo(root, path);
      if node.Err? {
        return Err(node.error);
      }
      match node.value {
        case File(content, ino) =>
          var end := offset + |data|;
          var buffer := content;
          if end > |buffer| {
            buffer := buffer + Fs.Zeros(end - |buffer|);
          }
          buffer := buffer[..offset] + data + buffer[end..];
          root := Replace(root, Split(path), File(buffer, ino));
          return Ok(|data| % U32_MODULUS);
        case Directory(_, _) => return Err(IsADirectory(path));
        case Symlink(_, _) => return Err(InvalidHandle);
      }
    }
  }

  /** The components of a normalised path. */
  function PathParts(path: string): Path {
    if path == "" then [] else Split(path)
  }

  lemma PathPartsOfJoin(cs: Path)
    requires Clean(cs)
    ensures PathParts(Join(cs)) == cs
  {
    JoinEmpty(cs);
    if cs != [] {
      SplitJoin(cs);
    }
  }

  lemma NormalForm(path: string)
    ensures Clean(Components(path)) && Normalize(path) == Join(Components(path))
    ensures Normalize(path) == "" <==> Components(path) == []
  {
    ComponentsClean(path);
    JoinEmpty(Components(path));
  }
}
