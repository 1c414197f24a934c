/**
 Two tables of byte-range locks: the flat store of the in-memory state store and the
 per-file table of the coordination state machine.
 */
module LockTables {
  import opened Core
  import opened ByteRanges

  datatype Request =
    | AcquireLock(lock: DistributedLock)
    | ReleaseLock(lockId: nat)
    | ReleaseLocksForSession(sessionId: nat)
    | ReleaseLocksForHandle(handleId: nat)
    | ReleaseLocksForServer(serverId: string)

  datatype Response = Released | LockGranted(granted: bool)

  /** The locks a release request leaves in place. */
  predicate Keeps(r: Request, l: DistributedLock)
    requires !r.AcquireLock?
  {
    match r
    case ReleaseLock(id) => l.lockId != id
    case ReleaseLocksForSession(id) => l.sessionId != id
    case ReleaseLocksForHandle(id) => l.handleId != id
    case ReleaseLocksForServer(id) => l.serverId != id
  }

  // ---------- flat store ----------

  datatype FlatTable = FlatTable(fileLocks: map<nat, DistributedLock>, nextLockId: nat)

  /** All locks of the flat store. */
  ghost function FlatLocks(t: FlatTable): set<DistributedLock> {
    set id | id in t.fileLocks :: t.fileLocks[id]
  }

  predicate FlatFree(locks: map<nat, DistributedLock>, l: DistributedLock) {
    forall id :: id in locks ==> !l.ConflictsWith(locks[id])
  }

  /** The store's own acquire: the caller has put an id into the lock. */
  function FlatAcquire(t: FlatTable, l: DistributedLock): (FlatTable, bool) {
    if FlatFree(t.fileLocks, l) then (t.(fileLocks := t.fileLocks[l.lockId := l]), true) else (t, false)
  }

  function FlatRetain(t: FlatTable, r: Request): FlatTable
    requires !r.AcquireLock?
  {
    t.(fileLocks := map id | id in t.fileLocks && Keeps(r, t.fileLocks[id]) :: t.fileLocks[id])
  }

  /** A request as the lock handler issues it: it takes the next id before each acquire. */
  function FlatApply(t: FlatTable, r: Request): (FlatTable, Response) {
    if r.AcquireLock? then
      var (t', granted) := FlatAcquire(t.(nextLockId := t.nextLockId + 1), r.lock.(lockId := t.nextLockId));
      (t', LockGranted(granted))
    else if r.ReleaseLock? then (t.(fileLocks := t.fileLocks - {r.lockId}), Released)
    else (FlatRetain(t, r), Released)
  }

  // ---------- per-file table ----------

  datatype FileTable = FileTable(locks: map<string, seq<DistributedLock>>, nextLockId: nat)

  ghost function TableLocks(t: FileTable): set<DistributedLock> {
    set f, l | f in t.locks && l in t.locks[f] :: l
  }

  function LocksOf(t: FileTable, file: string): seq<DistributedLock> {
    if file in t.locks then t.locks[file] else []
  }

  predicate ListFree(locks: seq<DistributedLock>, l: DistributedLock) {
    forall i :: 0 <= i < |locks| ==> !l.ConflictsWith(locks[i])
  }

  function Retain(locks: seq<DistributedLock>, r: Request): seq<DistributedLock>
    requires !r.AcquireLock?
  {
    if locks == [] then []
    else (if Keeps(r, locks[0]) then [locks[0]] else []) + Retain(locks[1..], r)
  }

  function TableApply(t: FileTable, r: Request): (FileTable, Response) {
    if r.AcquireLock? then
      var l := r.lock.(lockId := t.nextLockId);
      var existing := LocksOf(t, l.filePath);
      var granted := ListFree(existing, l);
      (FileTable(t.locks[l.filePath := if granted then existing + [l] else existing], t.nextLockId + 1),
       LockGranted(granted))
    else
      (t.(locks := map f | f in t.locks :: Retain(t.locks[f], r)), Released)
  }

  // ---------- runs ----------

  const EMPTY_FLAT := FlatTable(map[], 1)
  const EMPTY_TABLE := FileTable(map[], 1)

  function FlatRun(requests: seq<Request>): FlatTable {
    if requests == [] then EMPTY_FLAT
    else FlatApply(FlatRun(requests[..|requests| - 1]), requests[|requests| - 1]).0
  }

  function TableRun(requests: seq<Request>): FileTable {
    if requests == [] then EMPTY_TABLE
    else TableApply(TableRun(requests[..|requests| - 1]), requests[|requests| - 1]).0
  }

  /** The answers of every request of a run. */
  function FlatAnswers(requests: seq<Request>): seq<Response> {
    if requests == [] then []
    else
      var before, last := requests[..|requests| - 1], requests[|requests| - 1];
      FlatAnswers(before) + [FlatApply(FlatRun(before), last).1]
  }

  function TableAnswers(requests: seq<Request>): seq<Response> {
    if requests == [] then []
    else
      var before, last := requests[..|requests| - 1], requests[|requests| - 1];
      TableAnswers(before) + [TableApply(TableRun(before), last).1]
  }

  // ---------- safety of the flat store, for any ids its caller chooses ----------

  /** A call on the flat store itself, with a lock id the caller made up. */
  datatype StoreCall = TakeId | Acquire(lock: DistributedLock) | Release(request: Request)

  function StoreStep(t: FlatTable, c: StoreCall): FlatTable {
    match c
    case TakeId => t.(nextLockId := t.nextLockId + 1)
    case Acquire(l) => FlatAcquire(t, l).0
    case Release(r) =>
      if r.AcquireLock? then t
      else if r.ReleaseLock? then t.(fileLocks := t.fileLocks - {r.lockId})
      else FlatRetain(t, r)
  }

  function StoreRun(calls: seq<StoreCall>): FlatTable {
    if calls == [] then EMPTY_FLAT else StoreStep(StoreRun(calls[..|calls| - 1]), calls[|calls| - 1])
  }

  lemma FlatAcquireKeepsExclusion(t: FlatTable, l: DistributedLock)
    requires Exclusion(FlatLocks(t))
    ensures Exclusion(FlatLocks(FlatAcquire(t, l).0))
  {
  }

  /** Over every run of the flat store no byte is locked exclusively and also by another handle. */
  lemma {:induction false} StoreRunExclusion(calls: seq<StoreCall>)
    ensures Exclusion(FlatLocks(StoreRun(calls)))
  {
    if calls != [] {
      var before, last := calls[..|calls| - 1], calls[|calls| - 1];
      StoreRunExclusion(before);
      var t := StoreRun(before);
      if last.Acquire? {
        FlatAcquireKeepsExclusion(t, last.lock);
      } else {
        FewerKeepExclusion(FlatLocks(t), FlatLocks(StoreStep(t, last)));
      }
    }
  }

  /** The ids taken along a run are 1, 2, 3 and so on: none is given out twice. */
  lemma {:induction false} TakenIds(calls: seq<StoreCall>)
    ensures StoreRun(calls).nextLockId == 1 + multiset(calls)[TakeId]
  {
    if calls != [] {
      TakenIds(calls[..|calls| - 1]);
      assert calls == calls[..|calls| - 1] + [calls[|calls| - 1]];
    }
  }

  // ---------- safety of the per-file table ----------

  ghost predicate Distinct(locks: seq<DistributedLock>) {
    forall i, j :: 0 <= i < j < |locks| ==> locks[i].lockId != locks[j].lockId
  }

  /** Locks stand in the list of their own file, with distinct ids below the counter. */
  ghost predicate TableValid(t: FileTable) {
    && (forall f :: f in t.locks ==> Distinct(t.locks[f]))
    && (forall f, l :: f in t.locks && l in t.locks[f] ==> l.filePath == f && l.lockId < t.nextLockId)
  }

  lemma {:induction false} RetainMembers(locks: seq<DistributedLock>, r: Request)
    requires !r.AcquireLock?
    ensures forall l :: l in Retain(locks, r) <==> l in locks && Keeps(r, l)
  {
    if locks != [] {
      RetainMembers(locks[1..], r);
      assert locks == [locks[0]] + locks[1..];
    }
  }

  /** The locks that stay keep their order and number. */
  lemma {:induction false} RetainInOrder(a: seq<DistributedLock>, b: seq<DistributedLock>, r: Request)
    requires !r.AcquireLock?
    ensures Retain(a + b, r) == Retain(a, r) + Retain(b, r)
    decreases |a|
  {
    hide Keeps;
    if a == [] {
      assert a + b == b;
    } else {
      RetainInOrder(a[1..], b, r);
      assert (a + b)[1..] == a[1..] + b;
      RetainFirst(a, r);
      RetainFirst(a + b, r);
      hide Retain;
      Regroup(if Keeps(r, a[0]) then [a[0]] else [], Retain(a[1..], r), Retain(b, r));
    }
  }

  lemma RetainFirst(locks: seq<DistributedLock>, r: Request)
    requires locks != [] && !r.AcquireLock?
    ensures Retain(locks, r) == (if Keeps(r, locks[0]) then [locks[0]] else []) + Retain(locks[1..], r)
  {
    hide Keeps;
  }

  lemma Regroup<T>(a: seq<T>, b: seq<T>, c: seq<T>)
    ensures a + (b + c) == a + b + c
  {
  }

  lemma RetainOne(l: DistributedLock, r: Request)
    requires !r.AcquireLock?
    ensures Retain([l], r) == if Keeps(r, l) then [l] else []
  {
    assert [l][1..] == [];
  }

  lemma {:induction false} RetainDistinct(locks: seq<DistributedLock>, r: Request)
    requires !r.AcquireLock? && Distinct(locks)
    ensures Distinct(Retain(locks, r))
  {
    if locks != [] {
      RetainDistinct(locks[1..], r);
      RetainMembers(locks[1..], r);
      var rest := Retain(locks[1..], r);
      forall j | 0 <= j < |rest|
        ensures rest[j].lockId != locks[0].lockId
      {
        assert rest[j] in locks[1..];
        var k :| 0 <= k < |locks[1..]| && locks[1..][k] == rest[j];
        assert locks[k + 1] == rest[j];
      }
    }
  }

  /** A release removes exactly the matching locks, whichever file they are on. */
  lemma TableReleaseEffect(t: FileTable, r: Request)
    requires TableValid(t) && !r.AcquireLock?
    ensures var (t', answer) := TableApply(t, r);
            && TableValid(t') && answer == Released && t'.nextLockId == t.nextLockId
            && TableLocks(t') == set l | l in TableLocks(t) && Keeps(r, l)
  {
    var t' := TableApply(t, r).0;
    forall f | f in t.locks
      ensures Distinct(t'.locks[f])
      ensures forall l :: l in t'.locks[f] <==> l in t.locks[f] && Keeps(r, l)
    {
      RetainMembers(t.locks[f], r);
      RetainDistinct(t.locks[f], r);
    }
  }

  /** Only the list of the requested file can conflict. */
  lemma ListFreeMeansFree(t: FileTable, l: DistributedLock)
    requires TableValid(t)
    ensures ListFree(LocksOf(t, l.filePath), l) <==> forall b :: b in TableLocks(t) ==> !l.ConflictsWith(b)
  {
    var existing := LocksOf(t, l.filePath);
    if ListFree(existing, l) {
      forall b | b in TableLocks(t)
        ensures !l.ConflictsWith(b)
      {
        if b.filePath == l.filePath {
          var f :| f in t.locks && b in t.locks[f];
          var i :| 0 <= i < |existing| && existing[i] == b;
        }
      }
    } else {
      var i :| 0 <= i < |existing| && l.ConflictsWith(existing[i]);
      assert existing[i] in t.locks[l.filePath];
      assert existing[i] in TableLocks(t);
    }
  }

  /** Setting the list of one file. */
  lemma SetListLocks(t: FileTable, f: string, list: seq<DistributedLock>, added: set<DistributedLock>)
    requires forall l :: l in list <==> l in LocksOf(t, f) || l in added
    ensures TableLocks(t.(locks := t.locks[f := list])) == TableLocks(t) + added
  {
    var t' := t.(locks := t.locks[f := list]);
    forall l
      ensures l in TableLocks(t') <==> l in TableLocks(t) || l in added
    {
      if l in TableLocks(t) {
        var g :| g in t.locks && l in t.locks[g];
        assert g in t'.locks && l in t'.locks[g];
      }
      if l in added {
        assert l in t'.locks[f];
      }
      if l in TableLocks(t') {
        var g :| g in t'.locks && l in t'.locks[g];
      }
    }
  }

  lemma TableAcquireValid(t: FileTable, r: Request)
    requires TableValid(t) && r.AcquireLock?
    ensures TableValid(TableApply(t, r).0)
  {
    var t' := TableApply(t, r).0;
    var l := r.lock.(lockId := t.nextLockId);
    var existing := LocksOf(t, l.filePath);
    forall i, j | 0 <= i < j < |t'.locks[l.filePath]|
      ensures t'.locks[l.filePath][i].lockId != t'.locks[l.filePath][j].lockId
    {
      assert t'.locks[l.filePath][i] == existing[i] && existing[i] in t.locks[l.filePath];
    }
  }

  /** A lock is granted exactly when no lock held on any file conflicts with it, and then added. */
  lemma TableAcquireEffect(t: FileTable, r: Request)
    requires TableValid(t) && r.AcquireLock?
    ensures var (t', answer) := TableApply(t, r);
            var l := r.lock.(lockId := t.nextLockId);
            && TableValid(t') && answer.LockGranted? && t'.nextLockId == t.nextLockId + 1
            && (answer.granted <==> forall b :: b in TableLocks(t) ==> !l.ConflictsWith(b))
            && TableLocks(t') == TableLocks(t) + (if answer.granted then {l} else {})
  {
    var l := r.lock.(lockId := t.nextLockId);
    var existing := LocksOf(t, l.filePath);
    ListFreeMeansFree(t, l);
    TableAcquireValid(t, r);
    if ListFree(existing, l) {
      SetListLocks(t, l.filePath, existing + [l], {l});
    } else {
      SetListLocks(t, l.filePath, existing, {});
    }
  }

  lemma EmptyTableSafe()
    ensures TableValid(EMPTY_TABLE) && Exclusion(TableLocks(EMPTY_TABLE))
  {
  }

  /** Over every run of the per-file table the same exclusion holds. */
  lemma {:induction false} TableRunExclusion(requests: seq<Request>)
    ensures TableValid(TableRun(requests))
    ensures Exclusion(TableLocks(TableRun(requests)))
  {
    hide TableApply, TableValid, Exclusion;
    if requests == [] {
      EmptyTableSafe();
    } else {
      var before, last := requests[..|requests| - 1], requests[|requests| - 1];
      TableRunExclusion(before);
      var t := TableRun(before);
      if last.AcquireLock? {
        TableAcquireEffect(t, last);
        if TableApply(t, last).1.granted {
          GrantKeepsExclusion(TableLocks(t), last.lock.(lockId := t.nextLockId));
        } else {
          assert TableLocks(t) + {} == TableLocks(t);
        }
      } else {
        TableReleaseEffect(t, last);
        FewerKeepExclusion(TableLocks(t), TableLocks(TableRun(requests)));
      }
    }
  }

  // ---------- the per-file table refines the flat store ----------

  /** Same counter, same locks, each flat lock under its own id. */
  ghost predicate Agree(flat: FlatTable, t: FileTable) {
    && flat.nextLockId == t.nextLockId
    && (forall id :: id in flat.fileLocks ==> flat.fileLocks[id].lockId == id && id < flat.nextLockId)
    && FlatLocks(flat) == TableLocks(t)
  }

  lemma FlatReleaseEffect(t: FlatTable, r: Request)
    requires !r.AcquireLock?
    requires forall id :: id in t.fileLocks ==> t.fileLocks[id].lockId == id
    ensures var (t', answer) := FlatApply(t, r);
            && answer == Released && t'.nextLockId == t.nextLockId
            && FlatLocks(t') == (set l | l in FlatLocks(t) && Keeps(r, l))
            && forall id :: id in t'.fileLocks ==> id in t.fileLocks && t'.fileLocks[id] == t.fileLocks[id]
  {
    var t' := FlatApply(t, r).0;
    forall id | id in t.fileLocks && Keeps(r, t.fileLocks[id])
      ensures id in t'.fileLocks && t'.fileLocks[id] == t.fileLocks[id]
    {
    }
  }

  lemma FlatAcquireEffect(t: FlatTable, r: Request)
    requires r.AcquireLock?
    requires forall id :: id in t.fileLocks ==> id < t.nextLockId
    ensures var (t', answer) := FlatApply(t, r);
            var l := r.lock.(lockId := t.nextLockId);
            && answer.LockGranted? && t'.nextLockId == t.nextLockId + 1
            && (answer.granted <==> forall b :: b in FlatLocks(t) ==> !l.ConflictsWith(b))
            && FlatLocks(t') == FlatLocks(t) + (if answer.granted then {l} else {})
            && forall id :: id in t'.fileLocks ==>
                 (id == t.nextLockId && t'.fileLocks[id] == l) ||
                 (id in t.fileLocks && t'.fileLocks[id] == t.fileLocks[id])
  {
    var l := r.lock.(lockId := t.nextLockId);
    var (t', answer) := FlatApply(t, r);
    if answer.granted {
      assert t'.fileLocks == t.fileLocks[t.nextLockId := l];
      assert forall id :: id in t.fileLocks ==> id in t'.fileLocks && t'.fileLocks[id] == t.fileLocks[id];
      assert t.nextLockId in t'.fileLocks && t'.fileLocks[t.nextLockId] == l;
    } else {
      var id :| id in t.fileLocks && l.ConflictsWith(t.fileLocks[id]);
      assert t.fileLocks[id] in FlatLocks(t);
    }
  }

  lemma StepAgrees(flat: FlatTable, t: FileTable, r: Request)
    requires Agree(flat, t) && TableValid(t)
    ensures FlatApply(flat, r).1 == TableApply(t, r).1
    ensures Agree(FlatApply(flat, r).0, TableApply(t, r).0)
  {
    hide FlatApply, TableApply, TableLocks, FlatLocks;
    if r.AcquireLock? {
      FlatAcquireEffect(flat, r);
      TableAcquireEffect(t, r);
    } else {
      FlatReleaseEffect(flat, r);
      TableReleaseEffect(t, r);
    }
  }

  /**
   For every sequence of requests the per-file table gives the flat store's answers, assigns
   the same ids and holds the same locks.
   */
  lemma {:induction false} TableRefinesFlat(requests: seq<Request>)
    ensures FlatAnswers(requests) == TableAnswers(requests)
    ensures FlatRun(requests).nextLockId == TableRun(requests).nextLockId
    ensures Agree(FlatRun(requests), TableRun(requests))
  {
    if requests != [] {
      var before, last := requests[..|requests| - 1], requests[|requests| - 1];
      TableRefinesFlat(before);
      TableRunExclusion(before);
      StepAgrees(FlatRun(before), TableRun(before), last);
    }
  }

  /** File by file: the list of a file holds exactly the flat store's locks of that file, once each. */
  lemma SameLocksPerFile(requests: seq<Request>, file: string, l: DistributedLock)
    ensures l in LocksOf(TableRun(requests), file) <==>
            l.filePath == file && l.lockId in FlatRun(requests).fileLocks &&
            FlatRun(requests).fileLocks[l.lockId] == l
    ensures Distinct(LocksOf(TableRun(requests), file))
  {
    TableRefinesFlat(requests);
    TableRunExclusion(requests);
    var flat, t := FlatRun(requests), TableRun(requests);
    if l in LocksOf(t, file) {
      assert l in TableLocks(t);
      var id :| id in flat.fileLocks && flat.fileLocks[id] == l;
    }
    if l.filePath == file && l.lockId in flat.fileLocks && flat.fileLocks[l.lockId] == l {
      assert l in FlatLocks(flat);
      var f :| f in t.locks && l in t.locks[f];
    }
  }

  // ---------- releases by owner ----------

  /**
   Each release of the per-file table, told by the field it goes by: a lock is held after it
   exactly when it was held before and has another session, handle, server or id.
   */
  lemma TableReleasesByField(t: FileTable, l: DistributedLock, x: nat, server: string)
    requires TableValid(t)
    ensures l in TableLocks(TableApply(t, ReleaseLocksForSession(x)).0) <==> l in TableLocks(t) && l.sessionId != x
    ensures l in TableLocks(TableApply(t, ReleaseLocksForHandle(x)).0) <==> l in TableLocks(t) && l.handleId != x
    ensures l in TableLocks(TableApply(t, ReleaseLocksForServer(server)).0) <==>
            l in TableLocks(t) && l.serverId != server
    ensures l in TableLocks(TableApply(t, ReleaseLock(x)).0) <==> l in TableLocks(t) && l.lockId != x
  {
    hide TableApply, TableLocks, TableValid;
    TableReleaseEffect(t, ReleaseLocksForSession(x));
    TableReleaseEffect(t, ReleaseLocksForHandle(x));
    TableReleaseEffect(t, ReleaseLocksForServer(server));
    TableReleaseEffect(t, ReleaseLock(x));
  }

  /** The lock that the flat store holds under an id. */
  function Held(t: FlatTable, id: nat): Option<DistributedLock> {
    if id in t.fileLocks then Some(t.fileLocks[id]) else None
  }

  /** The same for the calls of the flat store, whatever ids its callers made up. */
  lemma StoreReleasesByField(t: FlatTable, id: nat, x: nat, server: string)
    ensures Held(StoreStep(t, Release(ReleaseLocksForSession(x))), id) ==
            if Held(t, id).Some? && Held(t, id).value.sessionId == x then None else Held(t, id)
    ensures Held(StoreStep(t, Release(ReleaseLocksForHandle(x))), id) ==
            if Held(t, id).Some? && Held(t, id).value.handleId == x then None else Held(t, id)
    ensures Held(StoreStep(t, Release(ReleaseLocksForServer(server))), id) ==
            if Held(t, id).Some? && Held(t, id).value.serverId == server then None else Held(t, id)
    ensures Held(StoreStep(t, Release(ReleaseLock(x))), id) == if id == x then None else Held(t, id)
    ensures StoreStep(t, Release(ReleaseLocksForSession(x))).nextLockId == t.nextLockId
    ensures StoreStep(t, Release(ReleaseLocksForHandle(x))).nextLockId == t.nextLockId
    ensures StoreStep(t, Release(ReleaseLocksForServer(server))).nextLockId == t.nextLockId
    ensures StoreStep(t, Release(ReleaseLock(x))).nextLockId == t.nextLockId
  {
  }

  /**
   After a release, an acquire is granted exactly when every lock in its way belonged to the
   released owner: locks of other owners still refuse it, in every table a run can reach and
   for both tables alike.
   */
  lemma AcquireAfterRelease(requests: seq<Request>, r: Request, lock: DistributedLock)
    requires !r.AcquireLock?
    ensures var flat, t := FlatRun(requests), TableRun(requests);
            var granted := forall b :: b in TableLocks(t) && lock.ConflictsWith(b) ==> !Keeps(r, b);
            && FlatLocks(flat) == TableLocks(t)
            && TableApply(TableApply(t, r).0, AcquireLock(lock)).1 == LockGranted(granted)
            && FlatApply(FlatApply(flat, r).0, AcquireLock(lock)).1 == LockGranted(granted)
  {
    hide FlatApply, TableApply, TableLocks, FlatLocks, TableValid, Exclusion, FlatRun, TableRun;
    var flat, t := FlatRun(requests), TableRun(requests);
    TableRefinesFlat(requests);
    TableRunExclusion(requests);
    StepAgrees(flat, t, r);
    TableReleaseEffect(t, r);
    var t' := TableApply(t, r).0;
    StepAgrees(FlatApply(flat, r).0, t', AcquireLock(lock));
    TableAcquireEffect(t', AcquireLock(lock));
    IdDoesNotMatter(lock, t'.nextLockId);
  }

  lemma IdDoesNotMatter(lock: DistributedLock, id: nat)
    ensures forall b :: lock.(lockId := id).ConflictsWith(b) <==> lock.ConflictsWith(b)
  {
  }

  // ---------- the object of the Raft state machine ----------

  /** Byte-range locks of CoordinationState. */
  class CoordinationLocks {
    var locks: map<string, seq<DistributedLock>>
    var nextLockId: nat

    ghost function Table(): FileTable
      reads this
    {
      FileTable(locks, nextLockId)
    }

    constructor ()
      ensures Table() == EMPTY_TABLE
    {
      locks := map[];
      nextLockId := 1;
    }

    method Acquire(request: DistributedLock) returns (granted: bool)
      modifies this
      ensures (Table(), LockGranted(granted)) == TableApply(old(Table()), AcquireLock(request))
    {
      var l := request.(lockId := nextLockId);
      nextLockId := nextLockId + 1;
      if l.filePath !in locks {
        locks := locks[l.filePath := []];
      }
      var existing := locks[l.filePath];
      assert existing == LocksOf(old(Table()), l.filePath);
      assert locks == old(locks)[l.filePath := existing];
      for i := 0 to |existing|
        invariant forall j :: 0 <= j < i ==> !l.ConflictsWith(existing[j])
      {
        if l.ConflictsWith(existing[i]) {
          return false;
        }
      }
      locks := locks[l.filePath := existing + [l]];
      assert locks == old(locks)[l.filePath := existing + [l]];
      granted := true;
    }

    method ReleaseMatching(r: Request)
      requires !r.AcquireLock?
      modifies this`locks
      ensures (Table(), Released) == TableApply(old(Table()), r)
    {
      var files := locks.Keys;
      while files != {}
        invariant files <= locks.Keys && locks.Keys == old(locks).Keys
        invariant forall f :: f in files ==> locks[f] == old(locks)[f]
        invariant forall f :: f in locks && f !in files ==> locks[f] == Retain(old(locks)[f], r)
        decreases files
      {
        var f :| f in files;
        locks := locks[f := Retain(locks[f], r)];
        files := files - {f};
      }
      assert locks == map f | f in old(locks) :: Retain(old(locks)[f], r);
    }

    /** The lock requests of CoordinationState::apply. */
    method Apply(r: Request) returns (answer: Response)
      modifies this
      ensures (Table(), answer) == TableApply(old(Table()), r)
    {
      match r {
        case AcquireLock(l) =>
          var granted := Acquire(l);
          answer := LockGranted(granted);
        case _ =>
          ReleaseMatching(r);
          answer := Released;
      }
    }
  }
}
