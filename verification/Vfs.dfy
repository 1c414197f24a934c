/** Open flags and errors shared by the storage backends. */
module Vfs {
  import opened Core

  datatype VfsError =
    | NotFound(path: string)
    | NotADirectory(path: string)
    | IsADirectory(path: string)
    | AlreadyExists(path: string)
    | DirectoryNotEmpty(path: string)
    | InvalidPath(message: string)
    | InvalidHandle

  /** The part of a handle the memory backend uses: the inode, if any. */
  datatype FileHandle = FileHandle(backendInternalId: Option<nat>)

  const READ: bv32 := 0x0001
  const WRITE: bv32 := 0x0002
  const CREATE: bv32 := 0x0040
  const EXCL: bv32 := 0x0080
  const TRUNC: bv32 := 0x0200
  const DIRECTORY: bv32 := 0x10000

  const DISPOSITION_SUPERSEDE: nat := 0
  const DISPOSITION_CREATE: nat := 2
  const DISPOSITION_OPEN_IF: nat := 3
  const DISPOSITION_OVERWRITE: nat := 4
  const DISPOSITION_OVERWRITE_IF: nat := 5

  const FILE_DIRECTORY_FILE: bv32 := 0x00000001
  const FILE_READ_DATA: bv32 := 0x00000001
  const FILE_WRITE_DATA: bv32 := 0x00000002
  const GENERIC_READ: bv32 := 0x80000000
  const GENERIC_WRITE: bv32 := 0x40000000
  const GENERIC_ALL: bv32 := 0x10000000

  datatype OpenFlags = OpenFlags(bits: bv32) {
    predicate IsRead() { bits & READ != 0 }
    predicate IsWrite() { bits & WRITE != 0 }
    predicate IsCreate() { bits & CREATE != 0 }
    predicate IsExcl() { bits & EXCL != 0 }
    predicate IsTrunc() { bits & TRUNC != 0 }
    predicate IsDirectory() { bits & DIRECTORY != 0 }
  }

  datatype CreateParams = CreateParams(desiredAccess: bv32, createDisposition: nat, createOptions: bv32) {
    predicate IsDirectory() { createOptions & FILE_DIRECTORY_FILE != 0 }

    predicate WantsRead() {
      desiredAccess & FILE_READ_DATA != 0 || desiredAccess & GENERIC_READ != 0 ||
      desiredAccess & GENERIC_ALL != 0
    }

    predicate WantsWrite() {
      desiredAccess & FILE_WRITE_DATA != 0 || desiredAccess & GENERIC_WRITE != 0 ||
      desiredAccess & GENERIC_ALL != 0
    }

    /** Flags a disposition adds. */
    function DispositionBits(): bv32 {
      if createDisposition == DISPOSITION_CREATE then CREATE | EXCL
      else if createDisposition == DISPOSITION_OPEN_IF then CREATE
      else if createDisposition == DISPOSITION_OVERWRITE then TRUNC
      else if createDisposition == DISPOSITION_OVERWRITE_IF || createDisposition == DISPOSITION_SUPERSEDE
      then CREATE | TRUNC
      else 0
    }

    function ToOpenFlags(): OpenFlags {
      var read := if WantsRead() then READ else 0;
      var write := if WantsWrite() then WRITE else 0;
      var directory := if IsDirectory() then DIRECTORY else 0;
      OpenFlags(read | write | DispositionBits() | directory)
    }
  }

  /** Every flag is set for exactly the dispositions whose documented behaviour needs it. */
  lemma OpenFlagsMeaning(p: CreateParams)
    ensures p.ToOpenFlags().IsCreate() <==>
            p.createDisposition in {DISPOSITION_SUPERSEDE, DISPOSITION_CREATE, DISPOSITION_OPEN_IF,
                                    DISPOSITION_OVERWRITE_IF}
    ensures p.ToOpenFlags().IsExcl() <==> p.createDisposition == DISPOSITION_CREATE
    ensures p.ToOpenFlags().IsTrunc() <==>
            p.createDisposition in {DISPOSITION_SUPERSEDE, DISPOSITION_OVERWRITE,
                                    DISPOSITION_OVERWRITE_IF}
    ensures p.ToOpenFlags().IsDirectory() <==> p.IsDirectory()
    ensures p.ToOpenFlags().IsRead() <==> p.WantsRead()
    ensures p.ToOpenFlags().IsWrite() <==> p.WantsWrite()
  {
  }

  /** The same by the numbers of the protocol: the access bits, the option bit and the dispositions. */
  lemma OpenFlagsByNumber(p: CreateParams)
    ensures p.ToOpenFlags().IsRead() <==> p.desiredAccess & 0x9000_0001 != 0
    ensures p.ToOpenFlags().IsWrite() <==> p.desiredAccess & 0x5000_0002 != 0
    ensures p.ToOpenFlags().IsDirectory() <==> p.createOptions & 0x1 != 0
    ensures p.ToOpenFlags().IsCreate() <==> p.createDisposition in {0, 2, 3, 5}
    ensures p.ToOpenFlags().IsExcl() <==> p.createDisposition == 2
    ensures p.ToOpenFlags().IsTrunc() <==> p.createDisposition in {0, 4, 5}
  {
    OpenFlagsMeaning(p);
    AccessBits(p);
  }

  lemma AccessBits(p: CreateParams)
    ensures p.WantsRead() <==> p.desiredAccess & 0x9000_0001 != 0
    ensures p.WantsWrite() <==> p.desiredAccess & 0x5000_0002 != 0
    ensures p.IsDirectory() <==> p.createOptions & 0x1 != 0
  {
  }
}
