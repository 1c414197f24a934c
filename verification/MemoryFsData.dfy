/**
 The bytes that reads and writes through handles move, told by what is seen at the path of the
 handle and byte by byte.
 */
module MemoryFsData {
  import opened Core
  import opened Vfs
  import opened Paths
  import opened MemoryTree
  import opened MemoryFs
  import opened MemoryFsEffects

  /** The handle is open on a path that shows a file with this content. */
  predicate ReadsFrom(s: FsState, handle: FileHandle, content: seq<byte>) {
    HandlePath(s, handle).Some? &&
    var v := See(s.root, Components(HandlePath(s, handle).value));
    v.Present? && v.kind == FileKind(content)
  }

  /** `bytes` is what a file holds from `offset` on, cut to `length` and to the end of the file. */
  predicate IsPart(bytes: seq<byte>, content: seq<byte>, offset: nat, length: nat) {
    && |bytes| <= length
    && (bytes != [] ==> offset + |bytes| <= |content|)
    && (|bytes| < length ==> offset + |bytes| >= |content|)
    && forall i :: 0 <= i < |bytes| ==> offset + i < |content| && bytes[i] == content[offset + i]
  }

  /** A read gives the bytes of the file from the offset on, as many as asked for or as there are. */
  lemma ReadGives(s: FsState, handle: FileHandle, offset: nat, length: nat, content: seq<byte>)
    requires FsInv(s) && ReadsFrom(s, handle, content)
    ensures var r := Read(s, handle, offset, length);
            && r.Ok? && IsPart(r.value, content, offset, length)
            && |r.value| == if offset + length <= |content| then length
                            else if offset < |content| then |content| - offset else 0
  {
    NormalPath(HandlePath(s, handle).value);
    WalkNormal(s.root, Components(HandlePath(s, handle).value));
  }

  /** There is only one such part. */
  lemma OnePart(a: seq<byte>, b: seq<byte>, content: seq<byte>, offset: nat, length: nat)
    requires IsPart(a, content, offset, length) && IsPart(b, content, offset, length)
    ensures a == b
  {
  }

  lemma PartsJoin(a: seq<byte>, b: seq<byte>, content: seq<byte>, offset: nat, n: nat, m: nat)
    requires IsPart(a, content, offset, n) && IsPart(b, content, offset + n, m)
    ensures IsPart(a + b, content, offset, n + m)
  {
  }

  /** Reading on where a read was meant to end gives, together with it, one longer read. */
  lemma ReadsJoin(s: FsState, handle: FileHandle, offset: nat, n: nat, m: nat)
    requires FsInv(s) && Read(s, handle, offset, n).Ok?
    ensures Read(s, handle, offset + n, m).Ok?
    ensures Read(s, handle, offset, n + m) ==
            Ok(Read(s, handle, offset, n).value + Read(s, handle, offset + n, m).value)
  {
    hide Read, FsInv, IsPart;
    var content := ContentOf(s, handle, offset, n);
    ReadGives(s, handle, offset, n, content);
    ReadGives(s, handle, offset + n, m, content);
    ReadGives(s, handle, offset, n + m, content);
    var a, b := Read(s, handle, offset, n).value, Read(s, handle, offset + n, m).value;
    PartsJoin(a, b, content, offset, n, m);
    OnePart(a + b, Read(s, handle, offset, n + m).value, content, offset, n + m);
  }

  lemma ContentOf(s: FsState, handle: FileHandle, offset: nat, n: nat) returns (content: seq<byte>)
    requires FsInv(s) && Read(s, handle, offset, n).Ok?
    ensures ReadsFrom(s, handle, content)
  {
    hide Read, FsInv;
    ReadWriteOutcome(s, handle, offset, n, []);
    content := See(s.root, Components(HandlePath(s, handle).value)).kind.content;
  }

  /** A read from the start that asks for enough gives the whole file. */
  lemma ReadWhole(s: FsState, handle: FileHandle, length: nat, content: seq<byte>)
    requires FsInv(s) && ReadsFrom(s, handle, content) && length >= |content|
    ensures Read(s, handle, 0, length) == Ok(content)
  {
    hide Read, FsInv;
    ReadGives(s, handle, 0, length, content);
    OnePart(Read(s, handle, 0, length).value, content, content, 0, length);
  }

  /**
   After a write, every read of the same path, through any handle and of any range, gives the
   written bytes where it meets them, the old bytes elsewhere and zeros in the gap; a read of
   another path gives what it gave before.
   */
  lemma ReadAfterWrite(s: FsState, writer: FileHandle, at: nat, data: seq<byte>, reader: FileHandle,
                       offset: nat, length: nat, before: seq<byte>)
    requires FsInv(s) && ReadsFrom(s, writer, before) && HandlePath(s, reader).Some?
    ensures var (s', w) := Write(s, writer, at, data);
            var r := Read(s', reader, offset, length);
            && w == Ok(|data| % 0x1_0000_0000)
            && (HandlePath(s, reader) != HandlePath(s, writer) ==> r == Read(s, reader, offset, length))
            && (HandlePath(s, reader) == HandlePath(s, writer) ==>
                  && r.Ok?
                  && (var end := if at + |data| > |before| then at + |data| else |before|;
                      |r.value| == if offset + length <= end then length
                                   else if offset < end then end - offset else 0)
                  && forall i :: 0 <= i < |r.value| ==>
                       r.value[i] == if at <= offset + i < at + |data| then data[offset + i - at]
                                     else if offset + i < |before| then before[offset + i] else 0)
  {
    WriteGives(s, writer, at, data, before);
    var s' := Write(s, writer, at, data).0;
    if HandlePath(s, reader) == HandlePath(s, writer) {
      hide Write, Read, FsInv, WriteAt;
      var new' := WriteAt(before, at, data);
      ReadGives(s', reader, offset, length, new');
      forall i | 0 <= i < |Read(s', reader, offset, length).value|
        ensures Read(s', reader, offset, length).value[i] ==
                if at <= offset + i < at + |data| then data[offset + i - at]
                else if offset + i < |before| then before[offset + i] else 0
      {
        WriteAtBytes(before, at, data, offset + i);
      }
      WriteAtBytes(before, at, data, 0);
    } else {
      SameRead(s, s', reader, offset, length);
    }
  }

  lemma WriteGives(s: FsState, writer: FileHandle, at: nat, data: seq<byte>, before: seq<byte>)
    requires FsInv(s) && ReadsFrom(s, writer, before)
    ensures var (s', w) := Write(s, writer, at, data);
            && w == Ok(|data| % 0x1_0000_0000) && FsInv(s') && s'.openFiles == s.openFiles
            && ReadsFrom(s', writer, WriteAt(before, at, data))
            && forall q: Path :: q != Components(HandlePath(s, writer).value) ==> See(s'.root, q) == See(s.root, q)
  {
    hide WriteAt, FsInv;
    WriteCounts(s, writer, at, data, before);
    WriteInv(s, writer, at, data);
    WriteThenRead(s, writer, at, data);
  }

  lemma WriteCounts(s: FsState, writer: FileHandle, at: nat, data: seq<byte>, before: seq<byte>)
    requires FsInv(s) && ReadsFrom(s, writer, before)
    ensures Write(s, writer, at, data).1 == Ok(|data| % 0x1_0000_0000)
  {
    hide WriteAt;
    NormalPath(HandlePath(s, writer).value);
    WalkNormal(s.root, Components(HandlePath(s, writer).value));
  }

  /** A read depends on the recorded path and on what is seen there. */
  lemma SameRead(s: FsState, s': FsState, handle: FileHandle, offset: nat, length: nat)
    requires FsInv(s) && FsInv(s') && s'.openFiles == s.openFiles && HandlePath(s, handle).Some?
    requires var cs := Components(HandlePath(s, handle).value); See(s'.root, cs) == See(s.root, cs)
    ensures Read(s', handle, offset, length) == Read(s, handle, offset, length)
  {
    hide ReadAt;
    var path := HandlePath(s, handle).value;
    NormalPath(path);
    WalkNormal(s.root, Components(path));
    WalkNormal(s'.root, Components(path));
  }
}
