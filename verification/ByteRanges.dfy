/** The byte-range lock and its conflict rule. */
module ByteRanges {
  import opened Core

  datatype DistributedLock = DistributedLock(
    lockId: nat,
    handleId: nat,
    sessionId: nat,
    serverId: string,
    filePath: string,
    offset: u64,
    length: u64,
    exclusive: bool)
  {
    /** First offset behind the range; length 0 and overflow both give the largest offset. */
    function End(): u64 {
      if length == 0 then U64_MAX
      else if offset + length > U64_MAX then U64_MAX
      else offset + length
    }

    predicate Overlaps(other: DistributedLock) {
      offset < other.End() && other.offset < End()
    }

    predicate ConflictsWith(other: DistributedLock) {
      if filePath != other.filePath then false
      else if handleId == other.handleId then false
      else if !Overlaps(other) then false
      else exclusive || other.exclusive
    }
  }

  /** The offsets a lock means to cover, without any saturation; length 0 reaches the end. */
  predicate Covers(l: DistributedLock, at: u64) {
    l.offset <= at && (l.length == 0 || at < l.offset + l.length)
  }

  /** The saturating comparison is intersection of the covered bytes below the largest offset. */
  lemma OverlapIsIntersection(a: DistributedLock, b: DistributedLock)
    ensures a.Overlaps(b) <==> exists at: u64 :: at < U64_MAX && Covers(a, at) && Covers(b, at)
  {
    if a.Overlaps(b) {
      var at: u64 := if a.offset < b.offset then b.offset else a.offset;
      assert at < U64_MAX && Covers(a, at) && Covers(b, at);
    }
  }

  predicate ReachesTop(l: DistributedLock) {
    Covers(l, U64_MAX)
  }

  /**
   Over all 2^64 offsets the comparison misses exactly the pairs that meet only at the
   largest offset: both reach it and one starts there.
   */
  lemma TopByteGap(a: DistributedLock, b: DistributedLock)
    ensures (exists at: u64 :: Covers(a, at) && Covers(b, at)) <==>
            a.Overlaps(b) ||
            (ReachesTop(a) && ReachesTop(b) && (a.offset == U64_MAX || b.offset == U64_MAX))
  {
    OverlapIsIntersection(a, b);
    if ReachesTop(a) && ReachesTop(b) {
      assert Covers(a, U64_MAX) && Covers(b, U64_MAX);
    }
    if exists at: u64 :: Covers(a, at) && Covers(b, at) {
      var at: u64 :| Covers(a, at) && Covers(b, at);
      if at == U64_MAX && !(a.offset == U64_MAX || b.offset == U64_MAX) {
        var m: u64 := if a.offset < b.offset then b.offset else a.offset;
        assert m < U64_MAX && Covers(a, m) && Covers(b, m);
      }
    }
  }

  /** Two exclusive locks of different handles on the last byte do not conflict. */
  lemma TopByteExample()
    ensures exists a: DistributedLock, b: DistributedLock ::
              a.filePath == b.filePath && a.handleId != b.handleId && a.exclusive && b.exclusive &&
              Covers(a, U64_MAX) && Covers(b, U64_MAX) && !a.ConflictsWith(b)
  {
    var a := DistributedLock(1, 1, 1, "s", "f", U64_MAX, 1, true);
    var b := DistributedLock(2, 2, 1, "s", "f", U64_MAX, 1, true);
    assert Covers(a, U64_MAX) && Covers(b, U64_MAX) && !a.ConflictsWith(b);
  }

  const MAX_LOCK_END: nat := 0x7FFF_FFFF_FFFF_FFFF

  /** The range check of the lock handler: the range ends within the signed 64-bit offsets. */
  predicate Requestable(l: DistributedLock) {
    l.offset + l.length <= MAX_LOCK_END
  }

  /** For locks that pass it, the comparison is intersection over all offsets. */
  lemma RequestedOverlap(a: DistributedLock, b: DistributedLock)
    requires Requestable(a) && Requestable(b)
    ensures a.Overlaps(b) <==> exists at: u64 :: Covers(a, at) && Covers(b, at)
  {
    TopByteGap(a, b);
  }

  /** What a conflict means: a shared byte of one file, two handles, one of them exclusive. */
  lemma ConflictMeaning(a: DistributedLock, b: DistributedLock)
    ensures a.ConflictsWith(b) <==>
            a.filePath == b.filePath && a.handleId != b.handleId && (a.exclusive || b.exclusive) &&
            exists at: u64 :: at < U64_MAX && Covers(a, at) && Covers(b, at)
    ensures a.ConflictsWith(b) == b.ConflictsWith(a)
  {
    OverlapIsIntersection(a, b);
  }

  /**
   No byte below the largest offset is covered by an exclusive lock of one handle and by
   any lock of another handle on the same file.
   */
  ghost predicate Exclusion(locks: set<DistributedLock>) {
    forall a, b, at: u64 ::
      (a in locks && b in locks && a.filePath == b.filePath && a.handleId != b.handleId &&
       a.exclusive && at < U64_MAX && Covers(a, at)) ==> !Covers(b, at)
  }

  /** When every lock passed the handler's range check, that holds at every offset. */
  lemma RequestedExclusion(locks: set<DistributedLock>, a: DistributedLock, b: DistributedLock, at: u64)
    requires Exclusion(locks) && a in locks && b in locks && Requestable(a) && Requestable(b)
    requires a.filePath == b.filePath && a.handleId != b.handleId && a.exclusive && Covers(a, at)
    ensures !Covers(b, at)
  {
    RequestedOverlap(a, b);
    OverlapIsIntersection(a, b);
  }

  /** Granting a lock that conflicts with nothing held keeps the exclusion. */
  lemma GrantKeepsExclusion(locks: set<DistributedLock>, l: DistributedLock)
    requires Exclusion(locks)
    requires forall b :: b in locks ==> !l.ConflictsWith(b)
    ensures Exclusion(locks + {l})
  {
  }

  /** Holding fewer locks keeps the exclusion. */
  lemma FewerKeepExclusion(locks: set<DistributedLock>, fewer: set<DistributedLock>)
    requires Exclusion(locks) && fewer <= locks
    ensures Exclusion(fewer)
  {
  }

  /** Refusing a conflicting lock is needed: granting it would break the exclusion. */
  lemma ConflictBreaksExclusion(locks: set<DistributedLock>, l: DistributedLock, b: DistributedLock)
    requires b in locks && l.ConflictsWith(b)
    ensures !Exclusion(locks + {l})
  {
    ConflictMeaning(l, b);
    var at: u64 :| at < U64_MAX && Covers(l, at) && Covers(b, at);
    assert l in locks + {l} && b in locks + {l};
  }
}
