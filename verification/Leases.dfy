/**
 The lease conflict rule, the granted state, and the lease table of the in-memory state
 store; the coordination state machine and the Redis store compute the same grants.
 */
module Leases {
  import opened Core
  import opened LeaseStates

  datatype LeaseEntry = LeaseEntry(
    leaseKey: string, serverId: string, filePath: string, leaseState: LeaseState, epoch: nat)

  datatype ConflictResult = ConflictResult(
    canGrant: bool, conflicts: seq<LeaseEntry>, grantedState: LeaseState)

  /** leases_conflict of both stores. */
  predicate Conflict(existing: LeaseState, requested: LeaseState) {
    (HasWrite(existing) && requested != 0) || (HasWrite(requested) && existing != 0)
  }

  /**
   A break to the calculated state removes the conflict if and only if a request for write
   caching meets no read caching and a request for handle caching alone meets no writer.
   */
  lemma BreakRemovesConflict(existing: LeaseState, requested: LeaseState)
    ensures !Conflict(BreakState(existing, requested), requested) <==>
            if HasWrite(requested) then existing & READ_CACHING == 0
            else requested & HANDLE_CACHING != 0 ==> !HasWrite(existing)
  {
    BreakStateFalls(existing, requested);
    if !HasWrite(requested) {
      hide BreakState;
    }
  }

  // ---------- one list of existing leases ----------

  function ConflictList(existing: seq<LeaseEntry>, requested: LeaseState): seq<LeaseEntry> {
    if existing == [] then []
    else
      var before := ConflictList(existing[..|existing| - 1], requested);
      var last := existing[|existing| - 1];
      if Conflict(last.leaseState, requested) then before + [last] else before
  }

  predicate AnyWrite(leases: seq<LeaseEntry>) {
    exists i :: 0 <= i < |leases| && HasWrite(leases[i].leaseState)
  }

  /** reduce_lease_state of both stores. */
  function Reduce(requested: LeaseState, conflicts: seq<LeaseEntry>): LeaseState {
    if AnyWrite(conflicts) then 0
    else if HasWrite(requested) then WithoutWrite(requested)
    else requested
  }

  /** The state the memory store and the coordination state machine grant. */
  function Granted(existing: seq<LeaseEntry>, requested: LeaseState): LeaseState {
    var conflicts := ConflictList(existing, requested);
    if conflicts == [] then requested else Reduce(requested, conflicts)
  }

  function CheckResult(existing: seq<LeaseEntry>, requested: LeaseState): ConflictResult {
    var conflicts := ConflictList(existing, requested);
    ConflictResult(conflicts == [], conflicts, Granted(existing, requested))
  }

  /** The state conflicts with no lease of the list. */
  predicate Compatible(existing: seq<LeaseEntry>, s: LeaseState) {
    forall i :: 0 <= i < |existing| ==> !Conflict(existing[i].leaseState, s)
  }

  lemma {:induction false} ConflictListMembers(existing: seq<LeaseEntry>, requested: LeaseState, e: LeaseEntry)
    ensures e in ConflictList(existing, requested) <==> e in existing && Conflict(e.leaseState, requested)
  {
    hide Conflict;
    if existing != [] {
      ConflictListMembers(existing[..|existing| - 1], requested, e);
      assert existing == existing[..|existing| - 1] + [existing[|existing| - 1]];
    }
  }

  /** Conflicts come in the order of the list and as often as they are listed. */
  lemma {:induction false} ConflictsInOrder(a: seq<LeaseEntry>, b: seq<LeaseEntry>, requested: LeaseState)
    ensures ConflictList(a + b, requested) == ConflictList(a, requested) + ConflictList(b, requested)
    ensures forall e :: ConflictList([e], requested) == if Conflict(e.leaseState, requested) then [e] else []
    decreases |b|
  {
    hide Conflict;
    forall e: LeaseEntry
      ensures ConflictList([e], requested) == if Conflict(e.leaseState, requested) then [e] else []
    {
      assert [e][..0] == [];
    }
    if b == [] {
      assert a + b == a;
    } else {
      var n := |b| - 1;
      assert (a + b)[..|a + b| - 1] == a + b[..n];
      ConflictsInOrder(a, b[..n], requested);
    }
  }

  lemma AnyWriteOfConflicts(existing: seq<LeaseEntry>, requested: LeaseState)
    ensures AnyWrite(ConflictList(existing, requested)) <==> requested != 0 && AnyWrite(existing)
  {
    hide HasWrite, ConflictList;
    var conflicts := ConflictList(existing, requested);
    if AnyWrite(conflicts) {
      var i :| 0 <= i < |conflicts| && HasWrite(conflicts[i].leaseState);
      ConflictListMembers(existing, requested, conflicts[i]);
      var j :| 0 <= j < |existing| && existing[j] == conflicts[i];
      SubsetBounds(0);
    }
    if requested != 0 && AnyWrite(existing) {
      var i :| 0 <= i < |existing| && HasWrite(existing[i].leaseState);
      ConflictListMembers(existing, requested, existing[i]);
      var j :| 0 <= j < |conflicts| && conflicts[j] == existing[i];
    }
  }

  lemma NoConflictsMeansCompatible(existing: seq<LeaseEntry>, requested: LeaseState)
    ensures ConflictList(existing, requested) == [] <==> Compatible(existing, requested)
  {
  }

  /** The three cases of a grant, told by the whole list instead of the conflicts. */
  lemma GrantedCases(existing: seq<LeaseEntry>, requested: LeaseState)
    ensures Granted(existing, requested) ==
            if requested != 0 && AnyWrite(existing) then 0
            else if Compatible(existing, requested) then requested
            else WithoutWrite(requested)
    ensures !AnyWrite(existing) && !Compatible(existing, requested) ==>
              HasWrite(requested) && exists i :: 0 <= i < |existing| && existing[i].leaseState != 0
  {
    hide HasWrite, WithoutWrite, ConflictList;
    NoConflictsMeansCompatible(existing, requested);
    AnyWriteOfConflicts(existing, requested);
    if !AnyWrite(existing) && !Compatible(existing, requested) {
      var i :| 0 <= i < |existing| && Conflict(existing[i].leaseState, requested);
    }
    if requested != 0 && AnyWrite(existing) {
      var i :| 0 <= i < |existing| && HasWrite(existing[i].leaseState);
      assert Conflict(existing[i].leaseState, requested);
    }
  }

  /**
   The granted state is the greatest subset of the requested state that conflicts with no
   existing lease.
   */
  lemma GrantedIsGreatest(existing: seq<LeaseEntry>, requested: LeaseState, s: LeaseState)
    ensures Subset(Granted(existing, requested), requested)
    ensures Compatible(existing, Granted(existing, requested))
    ensures Subset(s, requested) && Compatible(existing, s) ==> Subset(s, Granted(existing, requested))
  {
    hide HasWrite, Subset, WithoutWrite, Granted;
    GrantedCases(existing, requested);
    SubsetBounds(requested);
    SubsetBounds(s);
    if requested != 0 && AnyWrite(existing) {
      SubsetBounds(0);
      var w :| 0 <= w < |existing| && HasWrite(existing[w].leaseState);
      if Compatible(existing, s) {
        assert !Conflict(existing[w].leaseState, s);
      }
    } else if !Compatible(existing, requested) {
      WithoutWriteIsSubset(requested);
      if AnyWrite(existing) {
        SubsetBounds(0);
      }
      var i :| 0 <= i < |existing| && existing[i].leaseState != 0;
      if Subset(s, requested) && Compatible(existing, s) {
        assert !Conflict(existing[i].leaseState, s);
        WithoutWriteIsGreatest(s, requested);
      }
    }
  }

  // ---------- the Redis computation ----------

  /** check_lease_conflicts of the Redis store: the same conflicts and the same grant. */
  method CheckLeaseConflicts(existing: seq<LeaseEntry>, requested: LeaseState)
    returns (conflicts: seq<LeaseEntry>, granted: LeaseState)
    ensures conflicts == ConflictList(existing, requested)
    ensures granted == Granted(existing, requested)
  {
    hide HasWrite, WithoutWrite, Granted;
    conflicts := [];
    granted := requested;
    for i := 0 to |existing|
      invariant conflicts == ConflictList(existing[..i], requested)
      invariant conflicts == [] ==> granted == requested
      invariant conflicts != [] && !AnyWrite(existing[..i]) ==> granted == WithoutWrite(requested)
    {
      var e := existing[i];
      AnyWriteSnoc(existing, i);
      assert existing[..i + 1][..i] == existing[..i];
      if HasWrite(e.leaseState) && requested != 0 {
        conflicts := conflicts + [e];
        granted := 0;
      } else if HasWrite(requested) && e.leaseState != 0 {
        conflicts := conflicts + [e];
        WithoutWriteTwice(requested);
        granted := WithoutWrite(granted);
      }
    }
    assert existing[..|existing|] == existing;
    NoConflictsMeansCompatible(existing, requested);
    GrantedCases(existing, requested);
    if AnyWrite(existing) {
      granted := 0;
      if requested == 0 {
        GrantOfNothing(existing);
      }
    }
  }

  lemma AnyWriteSnoc(existing: seq<LeaseEntry>, i: nat)
    requires i < |existing|
    ensures AnyWrite(existing[..i + 1]) <==> AnyWrite(existing[..i]) || HasWrite(existing[i].leaseState)
  {
  }

  /** Asking for nothing is never reduced. */
  lemma GrantOfNothing(existing: seq<LeaseEntry>)
    ensures Granted(existing, 0) == 0
  {
  }

  // ---------- the lease table ----------

  type LeaseTable = map<string, LeaseEntry>

  /**
   At most one writer: while one lease on a file holds write caching, every other lease on
   the file has state 0.
   */
  ghost predicate OneWriter(t: LeaseTable) {
    forall k, m ::
      (k in t && m in t && k != m && t[k].filePath == t[m].filePath && HasWrite(t[k].leaseState)) ==>
        t[m].leaseState == 0
  }

  /** `list` enumerates the leases on a file other than those under `except`, once each, in any order. */
  ghost predicate Enumerates(list: seq<LeaseEntry>, t: LeaseTable, file: string, except: Option<string>) {
    exists keys: seq<string> :: EnumeratesKeys(keys, list, t, file, except)
  }

  ghost predicate EnumeratesKeys(keys: seq<string>, list: seq<LeaseEntry>, t: LeaseTable, file: string,
                                 except: Option<string>)
  {
    && |keys| == |list|
    && (forall i, j :: 0 <= i < j < |keys| ==> keys[i] != keys[j])
    && (forall i :: 0 <= i < |keys| ==> keys[i] in t && t[keys[i]] == list[i])
    && (forall k :: k in keys <==> k in t && t[k].filePath == file && Some(k) != except)
  }

  /** Storing a lease under its key. */
  function Store(t: LeaseTable, e: LeaseEntry): LeaseTable {
    t[e.leaseKey := e]
  }

  /** No other lease on the entry's file conflicts with the entry's state. */
  ghost predicate Fits(t: LeaseTable, e: LeaseEntry) {
    forall k :: k in t && k != e.leaseKey && t[k].filePath == e.filePath ==>
      !Conflict(t[k].leaseState, e.leaseState)
  }

  /** Exactly when storing an entry keeps one writer per file. */
  lemma StoreKeepsOneWriter(t: LeaseTable, e: LeaseEntry)
    requires OneWriter(t)
    ensures OneWriter(Store(t, e)) <==> Fits(t, e)
  {
    hide HasWrite;
    SubsetBounds(0);
    var t' := Store(t, e);
    if OneWriter(t') {
      forall k | k in t && k != e.leaseKey && t[k].filePath == e.filePath
        ensures !Conflict(t[k].leaseState, e.leaseState)
      {
        assert k in t' && e.leaseKey in t';
        assert t'[k] == t[k] && t'[e.leaseKey] == e;
      }
    }
    if Fits(t, e) {
      forall k, m | k in t' && m in t' && k != m && t'[k].filePath == t'[m].filePath &&
                    HasWrite(t'[k].leaseState)
        ensures t'[m].leaseState == 0
      {
        if k == e.leaseKey {
          assert !Conflict(t[m].leaseState, e.leaseState);
        } else if m == e.leaseKey {
          assert !Conflict(t[k].leaseState, e.leaseState);
        }
      }
    }
  }

  /** A change of state that needs no look at the other leases on the file. */
  predicate SafeUpdate(current: LeaseState, next: LeaseState) {
    next == 0 || HasWrite(current) || (current != 0 && !HasWrite(next))
  }

  /** Lowering a state is such a change. */
  lemma LoweringIsSafe(current: LeaseState, next: LeaseState)
    requires Subset(next, current)
    ensures SafeUpdate(current, next)
  {
  }

  lemma SafeUpdateKeepsOneWriter(t: LeaseTable, e: LeaseEntry)
    requires OneWriter(t) && e.leaseKey in t && e.filePath == t[e.leaseKey].filePath
    requires SafeUpdate(t[e.leaseKey].leaseState, e.leaseState)
    ensures OneWriter(Store(t, e))
  {
  }

  /** One other lease on the file, with a state that the update does not look at. */
  function Other(e: LeaseEntry, current: LeaseState, other: LeaseState): LeaseTable {
    map[e.leaseKey := e.(leaseState := current),
        e.leaseKey + "x" := LeaseEntry(e.leaseKey + "x", "s", e.filePath, other, 1)]
  }

  /** update_lease keeps one writer in every table exactly when the change of state is safe by itself. */
  lemma UpdateExactly(e: LeaseEntry, current: LeaseState)
    ensures (forall t: LeaseTable ::
               (OneWriter(t) && e.leaseKey in t && t[e.leaseKey].filePath == e.filePath &&
                t[e.leaseKey].leaseState == current) ==> OneWriter(Store(t, e))) <==>
            SafeUpdate(current, e.leaseState)
  {
    hide HasWrite, Fits;
    if SafeUpdate(current, e.leaseState) {
      forall t: LeaseTable | OneWriter(t) && e.leaseKey in t && t[e.leaseKey].filePath == e.filePath &&
                             t[e.leaseKey].leaseState == current
        ensures OneWriter(Store(t, e))
      {
        SafeUpdateKeepsOneWriter(t, e);
      }
    } else {
      UnsafeUpdate(e, current, if current == 0 then WRITE_CACHING else READ_CACHING);
    }
  }

  lemma UnsafeUpdate(e: LeaseEntry, current: LeaseState, other: LeaseState)
    requires !SafeUpdate(current, e.leaseState)
    requires other == if current == 0 then WRITE_CACHING else READ_CACHING
    ensures OneWriter(Other(e, current, other)) && !OneWriter(Store(Other(e, current, other), e))
  {
    CachingFlags();
    hide HasWrite;
    var t, k := Other(e, current, other), e.leaseKey + "x";
    assert |k| == |e.leaseKey| + 1;
    var t' := Store(t, e);
    assert t'[k] == t[k] && t'[e.leaseKey] == e;
  }

  lemma CachingFlags()
    ensures HasWrite(WRITE_CACHING) && !HasWrite(READ_CACHING) && READ_CACHING != 0
  {
  }

  // ---------- check-and-create ----------

  /** The result of check_and_create_lease for one enumeration of the existing leases. */
  function CreateChecked(t: LeaseTable, existing: seq<LeaseEntry>, lease: LeaseEntry, requested: LeaseState)
    : (LeaseTable, ConflictResult)
  {
    (Store(t, lease.(leaseState := Granted(existing, requested))), CheckResult(existing, requested))
  }

  /** Whatever the enumeration order, the stored state fits its own file when the paths agree. */
  lemma CreateCheckedKeepsOneWriter(t: LeaseTable, existing: seq<LeaseEntry>, file: string,
                                    lease: LeaseEntry, requested: LeaseState)
    requires OneWriter(t) && Enumerates(existing, t, file, Some(lease.leaseKey))
    requires lease.filePath == file || requested == 0
    ensures OneWriter(CreateChecked(t, existing, lease, requested).0)
  {
    hide HasWrite, Granted, Conflict;
    var e := lease.(leaseState := Granted(existing, requested));
    StoreKeepsOneWriter(t, e);
    GrantedIsGreatest(existing, requested, 0);
    if requested == 0 {
      GrantOfNothing(existing);
      NothingNeverConflicts(t, e);
    } else {
      forall k | k in t && k != e.leaseKey && t[k].filePath == e.filePath
        ensures !Conflict(t[k].leaseState, e.leaseState)
      {
        EnumeratedIndex(existing, t, file, Some(lease.leaseKey), k);
      }
    }
  }

  lemma NothingNeverConflicts(t: LeaseTable, e: LeaseEntry)
    requires e.leaseState == 0
    ensures Fits(t, e)
  {
  }

  lemma EnumeratedIndex(list: seq<LeaseEntry>, t: LeaseTable, file: string, except: Option<string>, k: string)
    requires Enumerates(list, t, file, except)
    requires k in t && t[k].filePath == file && Some(k) != except
    ensures exists i :: 0 <= i < |list| && list[i] == t[k]
  {
    var keys: seq<string> :| EnumeratesKeys(keys, list, t, file, except);
    assert k in keys;
    var i :| 0 <= i < |keys| && keys[i] == k;
    assert list[i] == t[k];
  }

  /** Every listed lease is in the table. */
  lemma ListedInTable(list: seq<LeaseEntry>, t: LeaseTable, file: string, except: Option<string>, i: nat)
    requires Enumerates(list, t, file, except) && i < |list|
    ensures exists k :: k in t && t[k].filePath == file && Some(k) != except && t[k] == list[i]
  {
    var keys: seq<string> :| EnumeratesKeys(keys, list, t, file, except);
    assert keys[i] in keys;
  }

  /** The conflicts found in an enumeration are the conflicting leases of the file, however listed. */
  lemma ConflictsOfFile(list: seq<LeaseEntry>, t: LeaseTable, file: string, except: Option<string>,
                        requested: LeaseState, e: LeaseEntry)
    requires Enumerates(list, t, file, except)
    ensures e in ConflictList(list, requested) <==>
            Conflict(e.leaseState, requested) &&
            exists k :: k in t && t[k].filePath == file && Some(k) != except && t[k] == e
  {
    hide Conflict, Enumerates, ConflictList;
    ConflictListMembers(list, requested, e);
    if e in list {
      var i :| 0 <= i < |list| && list[i] == e;
      ListedInTable(list, t, file, except, i);
    }
    if k :| k in t && t[k].filePath == file && Some(k) != except && t[k] == e {
      EnumeratedIndex(list, t, file, except, k);
    }
  }

  /** Two enumerations of the same leases allow the same states, so they grant the same state. */
  lemma GrantOrderIndependent(a: seq<LeaseEntry>, b: seq<LeaseEntry>, t: LeaseTable, file: string,
                              except: Option<string>, requested: LeaseState)
    requires Enumerates(a, t, file, except) && Enumerates(b, t, file, except)
    ensures Granted(a, requested) == Granted(b, requested)
    ensures forall e :: e in ConflictList(a, requested) <==> e in ConflictList(b, requested)
  {
    hide Granted, Conflict, Subset, Enumerates, ConflictList;
    SameMembers(a, b, t, file, except);
    SameMembers(b, a, t, file, except);
    GrantedIsGreatest(a, requested, Granted(b, requested));
    GrantedIsGreatest(b, requested, Granted(a, requested));
    CompatibleMembers(a, b, Granted(a, requested));
    CompatibleMembers(b, a, Granted(b, requested));
    SubsetAntisymmetric(Granted(a, requested), Granted(b, requested));
    forall e
      ensures e in ConflictList(a, requested) <==> e in ConflictList(b, requested)
    {
      ConflictListMembers(a, requested, e);
      ConflictListMembers(b, requested, e);
    }
  }

  lemma SameMembers(a: seq<LeaseEntry>, b: seq<LeaseEntry>, t: LeaseTable, file: string, except: Option<string>)
    requires Enumerates(a, t, file, except) && Enumerates(b, t, file, except)
    ensures forall e :: e in a ==> e in b
  {
  }

  lemma CompatibleMembers(a: seq<LeaseEntry>, b: seq<LeaseEntry>, s: LeaseState)
    requires Compatible(a, s) && forall e :: e in b ==> e in a
    ensures Compatible(b, s)
  {
    hide Conflict;
    forall i | 0 <= i < |b|
      ensures !Conflict(b[i].leaseState, s)
    {
      assert b[i] in a;
    }
  }

  /** The table that shows why the entry's own path must be the path that was checked. */
  function WriterElsewhere(lease: LeaseEntry): LeaseTable {
    map[lease.leaseKey + "x" := LeaseEntry(lease.leaseKey + "x", "s", lease.filePath, WRITE_CACHING, 1)]
  }

  /**
   check_and_create_lease keeps one writer in every table exactly when the entry's own path
   is the checked path or nothing is requested.
   */
  lemma CheckedPathMatters(file: string, lease: LeaseEntry, requested: LeaseState)
    ensures (forall t: LeaseTable, existing: seq<LeaseEntry> ::
               OneWriter(t) && Enumerates(existing, t, file, Some(lease.leaseKey)) ==>
               OneWriter(CreateChecked(t, existing, lease, requested).0)) <==>
            lease.filePath == file || requested == 0
  {
    if lease.filePath == file || requested == 0 {
      forall t: LeaseTable, existing: seq<LeaseEntry> |
        OneWriter(t) && Enumerates(existing, t, file, Some(lease.leaseKey))
        ensures OneWriter(CreateChecked(t, existing, lease, requested).0)
      {
        CreateCheckedKeepsOneWriter(t, existing, file, lease, requested);
      }
    } else {
      var t := WriterElsewhere(lease);
      EmptyEnumeration(t, file, lease);
      UncheckedWriter(t, lease, requested);
    }
  }

  lemma EmptyEnumeration(t: LeaseTable, file: string, lease: LeaseEntry)
    requires t == WriterElsewhere(lease) && lease.filePath != file
    ensures OneWriter(t) && Enumerates([], t, file, Some(lease.leaseKey))
  {
    var keys: seq<string> := [];
    assert EnumeratesKeys(keys, [], t, file, Some(lease.leaseKey));
  }

  lemma UncheckedWriter(t: LeaseTable, lease: LeaseEntry, requested: LeaseState)
    requires t == WriterElsewhere(lease) && requested != 0
    ensures !OneWriter(CreateChecked(t, [], lease, requested).0)
  {
    var t' := CreateChecked(t, [], lease, requested).0;
    var k := lease.leaseKey + "x";
    assert |k| == |lease.leaseKey| + 1;
    assert k in t' && t'[k] == t[k] && HasWrite(t'[k].leaseState);
    assert lease.leaseKey in t' && t'[lease.leaseKey].leaseState == requested;
  }

  /** create_lease stores without a check; it keeps one writer in every table only for state 0. */
  function CreateUnchecked(t: LeaseTable, lease: LeaseEntry): Option<LeaseTable> {
    if lease.leaseKey in t then None else Some(Store(t, lease))
  }

  lemma UncheckedCreate(lease: LeaseEntry)
    ensures (forall t: LeaseTable :: OneWriter(t) && CreateUnchecked(t, lease).Some? ==>
               OneWriter(CreateUnchecked(t, lease).value)) <==>
            lease.leaseState == 0
  {
    if lease.leaseState == 0 {
      forall t: LeaseTable | OneWriter(t) && CreateUnchecked(t, lease).Some?
        ensures OneWriter(CreateUnchecked(t, lease).value)
      {
        StoreKeepsOneWriter(t, lease);
        NothingNeverConflicts(t, lease);
      }
    } else {
      var t := WriterElsewhere(lease);
      var k := lease.leaseKey + "x";
      assert |k| == |lease.leaseKey| + 1;
      var t' := CreateUnchecked(t, lease).value;
      assert k in t' && t'[k] == t[k] && HasWrite(t'[k].leaseState);
      assert lease.leaseKey in t' && t'[lease.leaseKey] == lease;
    }
  }

  // ---------- runs ----------

  /** A step of the lease table; `existing` is the order in which the store saw the file's leases. */
  datatype LeaseOp =
    | CheckAndCreate(existing: seq<LeaseEntry>, lease: LeaseEntry, requested: LeaseState)
    | Update(lease: LeaseEntry)
    | Delete(leaseKey: string)
    | DeleteForServer(serverId: string)

  function LeaseStep(t: LeaseTable, op: LeaseOp): LeaseTable {
    match op
    case CheckAndCreate(existing, lease, requested) => CreateChecked(t, existing, lease, requested).0
    case Update(lease) => Store(t, lease)
    case Delete(key) => t - {key}
    case DeleteForServer(id) => map k | k in t && t[k].serverId != id :: t[k]
  }

  /**
   Creations check the lease's own file over all its leases; updates change the state of a
   lease they find in a safe way, as every lowering is.
   */
  ghost predicate LeaseOpAllowed(t: LeaseTable, op: LeaseOp) {
    match op
    case CheckAndCreate(existing, lease, _) => Enumerates(existing, t, lease.filePath, Some(lease.leaseKey))
    case Update(lease) =>
      lease.leaseKey in t && t[lease.leaseKey].filePath == lease.filePath &&
      SafeUpdate(t[lease.leaseKey].leaseState, lease.leaseState)
    case Delete(_) => true
    case DeleteForServer(_) => true
  }

  function LeaseRun(ops: seq<LeaseOp>): LeaseTable {
    if ops == [] then map[] else LeaseStep(LeaseRun(ops[..|ops| - 1]), ops[|ops| - 1])
  }

  ghost predicate RunAllowed(ops: seq<LeaseOp>) {
    ops != [] ==>
      RunAllowed(ops[..|ops| - 1]) && LeaseOpAllowed(LeaseRun(ops[..|ops| - 1]), ops[|ops| - 1])
  }

  lemma LeaseStepKeepsOneWriter(t: LeaseTable, op: LeaseOp)
    requires OneWriter(t) && LeaseOpAllowed(t, op)
    ensures OneWriter(LeaseStep(t, op))
  {
    hide HasWrite, Subset, Granted, Enumerates;
    match op {
      case CheckAndCreate(existing, lease, requested) =>
        CreateCheckedKeepsOneWriter(t, existing, lease.filePath, lease, requested);
      case Update(lease) => SafeUpdateKeepsOneWriter(t, lease);
      case Delete(_) =>
      case DeleteForServer(_) =>
    }
  }

  /** Over every run of the lease table a writer on a file has the file to itself. */
  lemma {:induction false} LeaseRunOneWriter(ops: seq<LeaseOp>)
    requires RunAllowed(ops)
    ensures OneWriter(LeaseRun(ops))
  {
    if ops != [] {
      LeaseRunOneWriter(ops[..|ops| - 1]);
      LeaseStepKeepsOneWriter(LeaseRun(ops[..|ops| - 1]), ops[|ops| - 1]);
    }
  }

  // ---------- what each step leaves in the table ----------

  /** A key is found after a deletion exactly when it was found before and is another one. */
  lemma DeletedKey(t: LeaseTable, key: string, k: string)
    ensures k in LeaseStep(t, Delete(key)) <==> k in t && k != key
    ensures k in LeaseStep(t, Delete(key)) ==> LeaseStep(t, Delete(key))[k] == t[k]
  {
  }

  /** After the leases of a server are deleted, exactly the leases of other servers are there, unchanged. */
  lemma DeletedServer(t: LeaseTable, server: string, k: string)
    ensures k in LeaseStep(t, DeleteForServer(server)) <==> k in t && t[k].serverId != server
    ensures k in LeaseStep(t, DeleteForServer(server)) ==> LeaseStep(t, DeleteForServer(server))[k] == t[k]
  {
  }

  /** An update and a checked creation write the entry under its key and leave every other lease alone. */
  lemma StoredEntry(t: LeaseTable, existing: seq<LeaseEntry>, e: LeaseEntry, requested: LeaseState, k: string)
    ensures var t' := LeaseStep(t, Update(e));
            && (k in t' <==> k in t || k == e.leaseKey)
            && (k in t' ==> t'[k] == if k == e.leaseKey then e else t[k])
    ensures var t' := LeaseStep(t, CheckAndCreate(existing, e, requested));
            && (k in t' <==> k in t || k == e.leaseKey)
            && (k in t' && k != e.leaseKey ==> t'[k] == t[k])
            && (k == e.leaseKey ==>
                  t'[k].leaseKey == k && t'[k].serverId == e.serverId && t'[k].filePath == e.filePath &&
                  t'[k].epoch == e.epoch && t'[k].leaseState == Granted(existing, requested))
  {
  }

  /** An unchecked creation is refused exactly for a key that is there, and then writes just its entry. */
  lemma UncheckedEntry(t: LeaseTable, e: LeaseEntry, k: string)
    ensures CreateUnchecked(t, e).None? <==> e.leaseKey in t
    ensures e.leaseKey !in t ==>
              var t' := CreateUnchecked(t, e).value;
              && (k in t' <==> k in t || k == e.leaseKey)
              && (k in t' ==> t'[k] == if k == e.leaseKey then e else t[k])
  {
  }

  /**
   A failed server no longer stands in the way: after its leases are deleted, a check names
   exactly the conflicting leases that other servers have on the file, so what is granted is the
   greatest subset of the request that fits those.
   */
  lemma CheckAfterServerFailure(t: LeaseTable, server: string, list: seq<LeaseEntry>, file: string,
                                except: Option<string>, requested: LeaseState, e: LeaseEntry)
    requires Enumerates(list, LeaseStep(t, DeleteForServer(server)), file, except)
    ensures e in CheckResult(list, requested).conflicts <==>
            && Conflict(e.leaseState, requested) && e.serverId != server
            && exists k :: k in t && t[k].filePath == file && Some(k) != except && t[k] == e
    ensures CheckResult(list, requested).canGrant <==>
            forall k :: k in t && t[k].filePath == file && Some(k) != except && t[k].serverId != server ==>
              !Conflict(t[k].leaseState, requested)
  {
    hide Conflict, Enumerates, ConflictList;
    var t' := LeaseStep(t, DeleteForServer(server));
    forall e: LeaseEntry
      ensures e in ConflictList(list, requested) <==>
              Conflict(e.leaseState, requested) &&
              exists k :: k in t' && t'[k].filePath == file && Some(k) != except && t'[k] == e
    {
      ConflictsOfFile(list, t', file, except, requested, e);
    }
    if ConflictList(list, requested) != [] {
      var c := ConflictList(list, requested)[0];
      assert c in ConflictList(list, requested);
      var k :| k in t' && t'[k].filePath == file && Some(k) != except && t'[k] == c;
      assert k in t && t[k] == c;
    }
    if k :| k in t && t[k].filePath == file && Some(k) != except && t[k].serverId != server &&
            Conflict(t[k].leaseState, requested) {
      assert k in t' && t'[k] == t[k];
      assert t[k] in ConflictList(list, requested);
    }
  }

  // ---------- the stores ----------

  /** The leases on a file, leaving out the requestor's, in some order. */
  method LeasesForFile(t: LeaseTable, file: string, except: Option<string>) returns (list: seq<LeaseEntry>)
    ensures Enumerates(list, t, file, except)
  {
    list := [];
    var todo := t.Keys;
    ghost var keys: seq<string> := [];
    while todo != {}
      invariant todo <= t.Keys && |keys| == |list|
      invariant forall i, j :: 0 <= i < j < |keys| ==> keys[i] != keys[j]
      invariant forall i :: 0 <= i < |keys| ==> keys[i] in t && t[keys[i]] == list[i]
      invariant forall k :: k in keys <==>
                  k in t && k !in todo && t[k].filePath == file && Some(k) != except
      decreases todo
    {
      var k :| k in todo;
      todo := todo - {k};
      if t[k].filePath == file && Some(k) != except {
        list := list + [t[k]];
        keys := keys + [k];
      }
    }
    assert EnumeratesKeys(keys, list, t, file, except);
  }

  /** The loop and reduction shared by check_and_create_lease and check_lease_conflict. */
  method CheckExisting(existing: seq<LeaseEntry>, requested: LeaseState) returns (r: ConflictResult)
    ensures r == CheckResult(existing, requested)
  {
    hide HasWrite, WithoutWrite, Conflict;
    if existing == [] {
      return ConflictResult(true, [], requested);
    }
    var conflicts: seq<LeaseEntry> := [];
    var granted := requested;
    for i := 0 to |existing|
      invariant conflicts == ConflictList(existing[..i], requested)
    {
      assert existing[..i + 1][..i] == existing[..i];
      if Conflict(existing[i].leaseState, requested) {
        conflicts := conflicts + [existing[i]];
      }
    }
    assert existing[..|existing|] == existing;
    if conflicts != [] {
      granted := ReduceLeaseState(requested, conflicts);
    }
    r := ConflictResult(conflicts == [], conflicts, granted);
  }

  method ReduceLeaseState(requested: LeaseState, conflicts: seq<LeaseEntry>) returns (state: LeaseState)
    ensures state == Reduce(requested, conflicts)
  {
    hide HasWrite, WithoutWrite;
    state := requested;
    for i := 0 to |conflicts|
      invariant forall j :: 0 <= j < i ==> !HasWrite(conflicts[j].leaseState)
    {
      if HasWrite(conflicts[i].leaseState) {
        return 0;
      }
    }
    if HasWrite(state) {
      state := WithoutWrite(state);
    }
  }

  /** CoordinationState::check_lease_conflict. */
  method CheckLeaseConflict(t: LeaseTable, file: string, requestor: Option<string>, requested: LeaseState)
    returns (r: ConflictResult, ghost existing: seq<LeaseEntry>)
    ensures Enumerates(existing, t, file, requestor)
    ensures r == CheckResult(existing, requested)
    ensures r.canGrant <==> r.conflicts == []
    ensures r.canGrant ==> r.grantedState == requested
    ensures forall e :: e in r.conflicts <==>
              Conflict(e.leaseState, requested) &&
              exists k :: k in t && t[k].filePath == file && Some(k) != requestor && t[k] == e
  {
    hide Conflict, Enumerates, ConflictList;
    var list := LeasesForFile(t, file, requestor);
    existing := list;
    r := CheckExisting(list, requested);
    forall e: LeaseEntry
      ensures e in r.conflicts <==>
              Conflict(e.leaseState, requested) &&
              exists k :: k in t && t[k].filePath == file && Some(k) != requestor && t[k] == e
    {
      ConflictsOfFile(list, t, file, requestor, requested, e);
    }
  }
}
