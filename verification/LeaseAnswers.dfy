/**
 What the clients were told.  A creation is answered with the state that was granted, but after
 its breaks the handler looks at the file's leases again and may answer with the whole requested
 state, which it does not store.
 */
module LeaseAnswers {
  import opened Core
  import opened LeaseStates
  import opened Leases
  import B = LeaseBreaks
  import P = LeaseProtocol

  datatype Answering = Answering(
    server: P.Server,
    /** The state that counts for each client: the last answer, or what the server has stored since. */
    told: map<string, LeaseState>,
    /** Creations with conflicts on their own server, which are looked at again. */
    asked: multiset<(LeaseEntry, LeaseState)>)

  function Initial(timeout: nat): Answering {
    Answering(P.Initial(timeout), map[], multiset{})
  }

  datatype Action =
    | Serve(action: P.Action)
    /** `existing` is the order in which the store listed the file's other leases. */
    | Recheck(lease: LeaseEntry, requested: LeaseState, existing: seq<LeaseEntry>)

  /** has_lease_conflict of the handler: write caching conflicts with any other lease. */
  predicate NothingConflicts(existing: seq<LeaseEntry>, requested: LeaseState) {
    forall i :: 0 <= i < |existing| ==> !HasWrite(existing[i].leaseState) && !HasWrite(requested)
  }

  predicate OwnConflict(existing: seq<LeaseEntry>, server: string, requested: LeaseState) {
    exists i :: 0 <= i < |existing| && existing[i].serverId == server && Conflict(existing[i].leaseState, requested)
  }

  ghost function ToldAfter(s: Answering, a: P.Action): map<string, LeaseState> {
    match a
    case Create(existing, lease, requested) =>
      if Enumerates(existing, s.server.leases, lease.filePath, Some(lease.leaseKey))
      then s.told[lease.leaseKey := Granted(existing, requested)] else s.told
    case DeleteKey(key) => s.told - {key}
    case DeleteServer(_) => map k | k in s.told && k in P.Step(s.server, a).leases :: s.told[k]
    case StoreEntry(e) => if e in s.server.staged then s.told[e.leaseKey := e.leaseState] else s.told
    case _ => s.told
  }

  ghost function AskedAfter(s: Answering, a: P.Action): multiset<(LeaseEntry, LeaseState)> {
    if a.Create? && Enumerates(a.existing, s.server.leases, a.lease.filePath, Some(a.lease.leaseKey)) &&
       OwnConflict(a.existing, a.lease.serverId, a.requested)
    then s.asked + multiset{(a.lease, a.requested)} else s.asked
  }

  /** The second look is made, and it finds nothing in the way. */
  ghost predicate Raises(s: Answering, a: Action) {
    && a.Recheck? && (a.lease, a.requested) in s.asked
    && Enumerates(a.existing, s.server.leases, a.lease.filePath, Some(a.lease.leaseKey))
    && NothingConflicts(a.existing, a.requested)
  }

  ghost function Step(s: Answering, a: Action): Answering {
    match a
    case Serve(action) => Answering(P.Step(s.server, action), ToldAfter(s, action), AskedAfter(s, action))
    case Recheck(lease, requested, _) =>
      s.(told := if Raises(s, a) then s.told[lease.leaseKey := requested] else s.told,
         asked := s.asked - multiset{(lease, requested)})
  }

  ghost function Run(timeout: nat, actions: seq<Action>): Answering {
    if actions == [] then Initial(timeout)
    else Step(Run(timeout, actions[..|actions| - 1]), actions[|actions| - 1])
  }

  // ---------- one writer among the states told ----------

  /** The leases with the states their clients were told. */
  function ToldTable(leases: LeaseTable, told: map<string, LeaseState>): LeaseTable {
    map k | k in told && k in leases :: leases[k].(leaseState := told[k])
  }

  /** What each client was told is safe from what is stored for it. */
  ghost predicate ToldSafe(leases: LeaseTable, told: map<string, LeaseState>) {
    forall k :: k in told ==> k in leases && SafeUpdate(leases[k].leaseState, told[k])
  }

  /** Then the states told have one writer per file as well. */
  lemma ToldOneWriter(leases: LeaseTable, told: map<string, LeaseState>)
    requires OneWriter(leases) && ToldSafe(leases, told)
    ensures OneWriter(ToldTable(leases, told))
  {
    hide HasWrite;
    SubsetBounds(0);
    var t := ToldTable(leases, told);
    forall k, m | k in t && m in t && k != m && t[k].filePath == t[m].filePath && HasWrite(t[k].leaseState)
      ensures t[m].leaseState == 0
    {
      assert HasWrite(leases[k].leaseState);
      assert leases[m].leaseState == 0;
    }
  }

  lemma StoredIsSafe(state: LeaseState)
    ensures SafeUpdate(state, state)
  {
  }

  /** A raised answer is safe from what is stored for the client. */
  ghost predicate AnswerSafe(s: Answering, a: Action) {
    Raises(s, a) ==>
      a.lease.leaseKey in s.server.leases &&
      SafeUpdate(s.server.leases[a.lease.leaseKey].leaseState, a.requested)
  }

  lemma ToldStored(leases: LeaseTable, told: map<string, LeaseState>, e: LeaseEntry)
    requires ToldSafe(leases, told)
    ensures ToldSafe(leases[e.leaseKey := e], told[e.leaseKey := e.leaseState])
  {
    hide SafeUpdate;
    StoredIsSafe(e.leaseState);
  }

  lemma ToldDropped(leases: LeaseTable, told: map<string, LeaseState>, leases': LeaseTable,
                    told': map<string, LeaseState>)
    requires ToldSafe(leases, told)
    requires forall k :: k in told' ==> k in told && told'[k] == told[k] && k in leases'
    requires forall k :: k in leases' ==> k in leases && leases'[k] == leases[k]
    ensures ToldSafe(leases', told')
  {
    hide SafeUpdate;
  }

  lemma ServeToldSafe(s: Answering, a: P.Action)
    requires ToldSafe(s.server.leases, s.told)
    ensures ToldSafe(Step(s, Serve(a)).server.leases, Step(s, Serve(a)).told)
  {
    var leases, told := s.server.leases, s.told;
    if a.DeleteKey? || a.DeleteServer? {
      assert forall k :: k in told ==> k in leases;
      hide ToldSafe;
      var s' := Step(s, Serve(a));
      ToldDropped(leases, told, s'.server.leases, s'.told);
    } else {
      hide ToldSafe, Enumerates, Granted, P.BeginStep, P.RegistryStep;
      match a {
        case Create(existing, lease, requested) =>
          ToldStored(leases, told, lease.(leaseState := Granted(existing, requested)));
        case BeginBreak(c, requested, sent) => P.BeginKeepsTable(s.server, c, requested, sent);
        case Registry(step) => P.RegistryKeepsTable(s.server, step);
        case ReadForAck(_, _) =>
        case StoreEntry(e) => ToldStored(leases, told, e);
      }
    }
  }

  lemma StepToldSafe(s: Answering, a: Action)
    requires ToldSafe(s.server.leases, s.told)
    ensures ToldSafe(Step(s, a).server.leases, Step(s, a).told) <==> AnswerSafe(s, a)
  {
    hide SafeUpdate, Raises, P.Step;
    match a {
      case Serve(action) =>
        ServeToldSafe(s, action);
        OnlySecondLooksRaise(s, a);
      case Recheck(lease, requested, _) =>
    }
  }

  lemma OnlySecondLooksRaise(s: Answering, a: Action)
    ensures Raises(s, a) ==> a.Recheck?
  {
  }

  ghost predicate AlwaysToldSafe(timeout: nat, actions: seq<Action>) {
    var s := Run(timeout, actions);
    ToldSafe(s.server.leases, s.told) && (actions != [] ==> AlwaysToldSafe(timeout, actions[..|actions| - 1]))
  }

  ghost predicate AnswersSafe(timeout: nat, actions: seq<Action>) {
    actions != [] ==>
      && AnswerSafe(Run(timeout, actions[..|actions| - 1]), actions[|actions| - 1])
      && AnswersSafe(timeout, actions[..|actions| - 1])
  }

  /** Over every run the states told stay safe from the stored ones if and only if each raised answer is. */
  lemma {:induction false} ToldSafeIffAnswersSafe(timeout: nat, actions: seq<Action>)
    ensures AlwaysToldSafe(timeout, actions) <==> AnswersSafe(timeout, actions)
  {
    hide Step, AnswerSafe;
    if actions != [] {
      hide ToldSafe;
      var before := actions[..|actions| - 1];
      ToldSafeIffAnswersSafe(timeout, before);
      var s := Run(timeout, before);
      if ToldSafe(s.server.leases, s.told) {
        StepToldSafe(s, actions[|actions| - 1]);
      }
    }
  }

  ghost function ServerActions(actions: seq<Action>): seq<P.Action> {
    if actions == [] then []
    else
      var before, a := ServerActions(actions[..|actions| - 1]), actions[|actions| - 1];
      if a.Serve? then before + [a.action] else before
  }

  /** Second looks do not touch the server, so it runs as the lease protocol does. */
  lemma {:induction false} ServerRuns(timeout: nat, actions: seq<Action>)
    ensures Run(timeout, actions).server == P.Run(timeout, ServerActions(actions))
  {
    hide P.Step, ToldAfter, AskedAfter, Raises;
    if actions != [] {
      ServerRuns(timeout, actions[..|actions| - 1]);
      var before := ServerActions(actions[..|actions| - 1]);
      if actions[|actions| - 1].Serve? {
        assert (before + [actions[|actions| - 1].action])[..|before|] == before;
      }
    }
  }

  /** Over every run: if the stored results fit and the raised answers are safe, no two told states conflict. */
  lemma ToldStatesCompatible(timeout: nat, actions: seq<Action>)
    requires P.StoresFit(timeout, ServerActions(actions)) && AnswersSafe(timeout, actions)
    ensures OneWriter(ToldTable(Run(timeout, actions).server.leases, Run(timeout, actions).told))
  {
    hide Run, P.Run, OneWriter, ToldTable;
    ServerRuns(timeout, actions);
    P.OneWriterIffStoresFit(timeout, ServerActions(actions));
    ToldSafeIffAnswersSafe(timeout, actions);
    ToldOneWriter(Run(timeout, actions).server.leases, Run(timeout, actions).told);
  }

  /** While what was granted is still stored, the only safe answer is what was granted. */
  lemma RaisedAnswerSafeExactly(existing: seq<LeaseEntry>, requested: LeaseState)
    ensures SafeUpdate(Granted(existing, requested), requested) <==> Granted(existing, requested) == requested
  {
    GrantedCases(existing, requested);
    WithoutWriteTwice(requested);
    StoredIsSafe(requested);
    hide Granted, AnyWrite, Compatible;
  }

  // ---------- a run in which two told states conflict ----------

  const READER := LeaseEntry("b", "s", "f", READ_CACHING, 1)
  const NEWCOMER := LeaseEntry("c", "s", "f", READ_CACHING | WRITE_CACHING, 1)
  const LOWERED := LeaseEntry("a", "s", "f", 0, 2)

  /**
   Client a holds read and write caching.  Client b asks for read caching, a's break times out and
   a is stored with nothing.  The second look tells b read caching, while nothing is stored for it,
   so client c is granted read and write caching.
   */
  function RaisedActions(): seq<Action> {
    [ Serve(P.Create([], P.HOLDER, READ_CACHING | WRITE_CACHING)),
      Serve(P.Registry(B.Register(B.LeaseTarget("a"), 0))),
      Serve(P.Create([P.HOLDER], READER, READ_CACHING)),
      Serve(P.BeginBreak(P.HOLDER, READ_CACHING, true)),
      Serve(P.Registry(B.Park(1, 0))),
      Serve(P.Registry(B.GiveUp(1))),
      Serve(P.StoreEntry(LOWERED)),
      Recheck(READER, READ_CACHING, [LOWERED]),
      Serve(P.Create([LOWERED, READER.(leaseState := 0)], NEWCOMER, READ_CACHING | WRITE_CACHING)) ]
  }

  lemma Flags()
    ensures B.AckRequired(B.LeaseTarget("a"), READ_CACHING | WRITE_CACHING)
    ensures BreakState(READ_CACHING | WRITE_CACHING, READ_CACHING) == READ_CACHING
    ensures HasWrite(READ_CACHING | WRITE_CACHING) && !HasWrite(READ_CACHING) && !HasWrite(0)
    ensures READ_CACHING | WRITE_CACHING != READ_CACHING && READ_CACHING != 0
    ensures READ_CACHING | WRITE_CACHING != 0
  {
  }

  /** The registry up to the waiter's timeout. */
  lemma TimeoutRegistry(timeout: nat)
    ensures var a := B.LeaseTarget("a");
            var r1 := B.Apply(B.InitialRegistry(timeout), B.Register(a, 0)).0;
            var (r2, reply) := B.Apply(r1, B.Begin(a, READ_CACHING | WRITE_CACHING, READ_CACHING, true));
            var r3 := B.Apply(r2, B.Park(1, 0)).0;
            var (r4, done) := B.Apply(r3, B.GiveUp(1));
            && reply == B.Started(1) && done == B.Finished(B.TimedOut)
            && r3.waiting == map[1 := P.Waiting(B.Open)]
            && r4.returned == map[1 := B.Outcome(READ_CACHING, B.TimedOut)]
  {
    Flags();
    hide B.AckRequired;
    var a := B.LeaseTarget("a");
    var r1 := B.Apply(B.InitialRegistry(timeout), B.Register(a, 0)).0;
    var r2 := B.Apply(r1, B.Begin(a, READ_CACHING | WRITE_CACHING, READ_CACHING, true)).0;
    assert r2.starting == map[1 := P.Waiting(B.Open)] && r2.waiting == map[];
    var r3 := B.Apply(r2, B.Park(1, 0)).0;
    assert r3.waiting == map[1 := P.Waiting(B.Open)] && r3.returned == map[];
  }

  lemma TimeoutStages(s: P.Server)
    requires s.breaking == map[1 := P.HOLDER] && s.staged == multiset{}
    requires s.registry.waiting == map[1 := P.Waiting(B.Open)]
    requires B.Apply(s.registry, B.GiveUp(1)).1.Finished?
    requires B.Apply(s.registry, B.GiveUp(1)).0.returned == map[1 := B.Outcome(READ_CACHING, B.TimedOut)]
    ensures P.Step(s, P.Registry(B.GiveUp(1))).leases == s.leases
    ensures P.Step(s, P.Registry(B.GiveUp(1))).staged == multiset{LOWERED}
  {
    hide B.Apply;
    assert P.Returns(s, B.GiveUp(1));
    assert P.Broken(P.HOLDER, 0) == LOWERED;
  }

  /** The break of a's lease, up to the entry its handler is about to store. */
  lemma TimeoutBreak(timeout: nat, s: P.Server)
    requires s.registry == B.Apply(B.InitialRegistry(timeout), B.Register(B.LeaseTarget("a"), 0)).0
    requires s.toBreak == multiset{(P.HOLDER, READ_CACHING)} && s.breaking == map[] && s.staged == multiset{}
    ensures var s1 := P.Step(s, P.BeginBreak(P.HOLDER, READ_CACHING, true));
            var s2 := P.Step(s1, P.Registry(B.Park(1, 0)));
            var s3 := P.Step(s2, P.Registry(B.GiveUp(1)));
            s3.leases == s.leases && s3.staged == multiset{LOWERED}
  {
    Flags();
    TimeoutRegistry(timeout);
    hide B.Apply, BreakState, HasWrite, B.AckRequired, B.FinalState;
    var s1 := P.Step(s, P.BeginBreak(P.HOLDER, READ_CACHING, true));
    assert s1.breaking == map[1 := P.HOLDER] && s1.leases == s.leases && s1.staged == multiset{};
    var s2 := P.Step(s1, P.Registry(B.Park(1, 0)));
    assert s2.breaking == s1.breaking && s2.staged == s1.staged && s2.leases == s.leases;
    TimeoutStages(s2);
  }

  lemma NextState(timeout: nat, acts: seq<Action>, i: nat)
    requires i < |acts|
    ensures Run(timeout, acts[..i + 1]) == Step(Run(timeout, acts[..i]), acts[i])
  {
    hide Step;
    assert acts[..i + 1][..i] == acts[..i];
  }

  /** The first two creations, from any server that has only seen a's registration in between. */
  lemma FirstCreation(timeout: nat)
    ensures var s := Step(Initial(timeout), Serve(P.Create([], P.HOLDER, READ_CACHING | WRITE_CACHING)));
            && s.server == P.Initial(timeout).(leases := map["a" := P.HOLDER])
            && s.told == map["a" := READ_CACHING | WRITE_CACHING] && s.asked == multiset{}
  {
    hide P.Step, ToldAfter, AskedAfter;
    P.CreateAlone(P.Initial(timeout), P.HOLDER);
    ToldAlone(Initial(timeout), P.HOLDER);
  }

  lemma Registration(s: Answering)
    ensures var s' := Step(s, Serve(P.Registry(B.Register(B.LeaseTarget("a"), 0))));
            && s'.server == s.server.(registry := B.Apply(s.server.registry, B.Register(B.LeaseTarget("a"), 0)).0)
            && s'.told == s.told && s'.asked == s.asked
  {
    hide B.Apply;
  }

  lemma SecondCreation(s: Answering)
    requires s.server.leases == map["a" := P.HOLDER]
    ensures var s' := Step(s, Serve(P.Create([P.HOLDER], READER, READ_CACHING)));
            && s'.server == s.server.(leases := map["a" := P.HOLDER, "b" := READER.(leaseState := 0)],
                                      toBreak := s.server.toBreak + multiset{(P.HOLDER, READ_CACHING)})
            && s'.told == s.told["b" := 0] && s'.asked == s.asked + multiset{(READER, READ_CACHING)}
  {
    Flags();
    hide BreakState, HasWrite, P.Step, ToldAfter, AskedAfter;
    P.CreateBeside(s.server, P.HOLDER, READER, READ_CACHING);
    ToldBeside(s, P.HOLDER, READER, READ_CACHING);
    assert s.server.leases["b" := READER.(leaseState := 0)] == map["a" := P.HOLDER, "b" := READER.(leaseState := 0)];
  }

  /** The state before the break: b has nothing and is waiting for a second look. */
  lemma RaisedCreations(timeout: nat) returns (s: Answering)
    ensures s == Run(timeout, RaisedActions()[..3])
    ensures s.server.registry == B.Apply(B.InitialRegistry(timeout), B.Register(B.LeaseTarget("a"), 0)).0
    ensures s.server.toBreak == multiset{(P.HOLDER, READ_CACHING)}
    ensures s.server.breaking == map[] && s.server.staged == multiset{}
    ensures s.server.leases == map["a" := P.HOLDER, "b" := READER.(leaseState := 0)]
    ensures s.told == map["a" := READ_CACHING | WRITE_CACHING, "b" := 0]
    ensures s.asked == multiset{(READER, READ_CACHING)}
  {
    hide Step, Run, B.Apply;
    var acts := RaisedActions();
    StartState(timeout, acts);
    NextState(timeout, acts, 0);
    NextState(timeout, acts, 1);
    NextState(timeout, acts, 2);
    s := Run(timeout, acts[..3]);
    FirstCreation(timeout);
    Registration(Run(timeout, acts[..1]));
    SecondCreation(Run(timeout, acts[..2]));
  }

  lemma StartState(timeout: nat, acts: seq<Action>)
    ensures Run(timeout, acts[..0]) == Initial(timeout)
  {
  }

  lemma ToldAlone(s: Answering, lease: LeaseEntry)
    requires forall k :: k in s.server.leases ==> k == lease.leaseKey
    ensures ToldAfter(s, P.Create([], lease, lease.leaseState)) == s.told[lease.leaseKey := lease.leaseState]
    ensures AskedAfter(s, P.Create([], lease, lease.leaseState)) == s.asked
  {
    var keys: seq<string> := [];
    assert EnumeratesKeys(keys, [], s.server.leases, lease.filePath, Some(lease.leaseKey));
  }

  lemma ToldBeside(s: Answering, other: LeaseEntry, lease: LeaseEntry, requested: LeaseState)
    requires other.leaseKey in s.server.leases && s.server.leases[other.leaseKey] == other
    requires other.leaseKey != lease.leaseKey
    requires forall k :: k in s.server.leases ==> k == lease.leaseKey || k == other.leaseKey
    requires other.filePath == lease.filePath && other.serverId == lease.serverId
    requires HasWrite(other.leaseState) && requested != 0
    requires BreakState(other.leaseState, requested) != other.leaseState
    ensures ToldAfter(s, P.Create([other], lease, requested)) == s.told[lease.leaseKey := 0]
    ensures AskedAfter(s, P.Create([other], lease, requested)) == s.asked + multiset{(lease, requested)}
  {
    hide BreakState, HasWrite, Enumerates, Granted, ConflictList;
    P.OneConflict(other, requested);
    P.EnumeratedByKeys([other.leaseKey], [other], s.server.leases, lease.filePath, Some(lease.leaseKey));
    assert [other][0] == other;
    assert OwnConflict([other], lease.serverId, requested);
  }

  lemma StoreLowered(s: Answering)
    requires s.server.leases == map["a" := P.HOLDER, "b" := READER.(leaseState := 0)]
    requires s.server.staged == multiset{LOWERED}
    requires s.told == map["a" := READ_CACHING | WRITE_CACHING, "b" := 0]
    ensures var s1 := Step(s, Serve(P.StoreEntry(LOWERED)));
            && s1.server.leases == map["a" := LOWERED, "b" := READER.(leaseState := 0)]
            && s1.told == map["a" := 0, "b" := 0] && s1.asked == s.asked
  {
  }

  /** The second look after the store of the timed-out break. */
  lemma SecondLook(s: Answering)
    requires s.server.leases == map["a" := LOWERED, "b" := READER.(leaseState := 0)]
    requires s.asked == multiset{(READER, READ_CACHING)} && s.told == map["a" := 0, "b" := 0]
    ensures var s1 := Step(s, Recheck(READER, READ_CACHING, [LOWERED]));
            && Raises(s, Recheck(READER, READ_CACHING, [LOWERED]))
            && s1.server == s.server && s1.told == map["a" := 0, "b" := READ_CACHING]
  {
    Flags();
    hide HasWrite, Enumerates;
    P.EnumeratedByKeys(["a"], [LOWERED], s.server.leases, "f", Some("b"));
  }

  lemma GrantBesideNothing(s: Answering)
    requires s.server.leases == map["a" := LOWERED, "b" := READER.(leaseState := 0)]
    requires s.told == map["a" := 0, "b" := READ_CACHING]
    ensures var s1 := Step(s, Serve(P.Create([LOWERED, READER.(leaseState := 0)], NEWCOMER,
                                            READ_CACHING | WRITE_CACHING)));
            && s1.server.leases == map["a" := LOWERED, "b" := READER.(leaseState := 0), "c" := NEWCOMER]
            && s1.told == map["a" := 0, "b" := READ_CACHING, "c" := READ_CACHING | WRITE_CACHING]
  {
    var list := [LOWERED, READER.(leaseState := 0)];
    Flags();
    P.EnumeratedByKeys(["a", "b"], list, s.server.leases, "f", Some("c"));
    assert list[..1] == [LOWERED] && [LOWERED][..0] == [];
    hide HasWrite, Enumerates;
    assert ConflictList([LOWERED], READ_CACHING | WRITE_CACHING) == [];
    assert ConflictList(list, READ_CACHING | WRITE_CACHING) == [];
  }

  /**
   The table keeps one writer throughout this run, but after the second look has told b read
   caching, c is told read and write caching on the same file.
   */
  lemma RaisedAnswerRun(timeout: nat)
    ensures var s := Run(timeout, RaisedActions());
            && s.server.leases == map["a" := LOWERED, "b" := READER.(leaseState := 0), "c" := NEWCOMER]
            && s.told == map["a" := 0, "b" := READ_CACHING, "c" := READ_CACHING | WRITE_CACHING]
            && OneWriter(s.server.leases) && !OneWriter(ToldTable(s.server.leases, s.told))
  {
    hide Step, Run, OneWriter, ToldTable, RaisedActions;
    var acts := RaisedActions();
    var s3 := RaisedCreations(timeout);
    ActionsListed();
    NextState(timeout, acts, 3);
    NextState(timeout, acts, 4);
    NextState(timeout, acts, 5);
    NextState(timeout, acts, 6);
    NextState(timeout, acts, 7);
    NextState(timeout, acts, 8);
    BreakTold(timeout, s3);
    StoreLowered(Run(timeout, acts[..6]));
    SecondLook(Run(timeout, acts[..7]));
    GrantBesideNothing(Run(timeout, acts[..8]));
    assert acts[..9] == acts;
    ConflictingAnswers(Run(timeout, acts));
  }

  lemma ActionsListed()
    ensures var acts := RaisedActions();
            && |acts| == 9
            && acts[3] == Serve(P.BeginBreak(P.HOLDER, READ_CACHING, true))
            && acts[4] == Serve(P.Registry(B.Park(1, 0))) && acts[5] == Serve(P.Registry(B.GiveUp(1)))
            && acts[6] == Serve(P.StoreEntry(LOWERED)) && acts[7] == Recheck(READER, READ_CACHING, [LOWERED])
            && acts[8] == Serve(P.Create([LOWERED, READER.(leaseState := 0)], NEWCOMER, READ_CACHING | WRITE_CACHING))
  {
  }

  /** During the break nothing is told. */
  lemma BreakTold(timeout: nat, s: Answering)
    requires s.server.registry == B.Apply(B.InitialRegistry(timeout), B.Register(B.LeaseTarget("a"), 0)).0
    requires s.server.toBreak == multiset{(P.HOLDER, READ_CACHING)}
    requires s.server.breaking == map[] && s.server.staged == multiset{}
    ensures var s1 := Step(s, Serve(P.BeginBreak(P.HOLDER, READ_CACHING, true)));
            var s2 := Step(s1, Serve(P.Registry(B.Park(1, 0))));
            var s3 := Step(s2, Serve(P.Registry(B.GiveUp(1))));
            && s3.server.leases == s.server.leases && s3.server.staged == multiset{LOWERED}
            && s3.told == s.told && s3.asked == s.asked
  {
    hide P.Step, B.Apply;
    TimeoutBreak(timeout, s.server);
  }

  lemma ConflictingAnswers(s: Answering)
    requires s.server.leases == map["a" := LOWERED, "b" := READER.(leaseState := 0), "c" := NEWCOMER]
    requires s.told == map["a" := 0, "b" := READ_CACHING, "c" := READ_CACHING | WRITE_CACHING]
    ensures OneWriter(s.server.leases) && !OneWriter(ToldTable(s.server.leases, s.told))
  {
    Flags();
    hide HasWrite;
    var t := ToldTable(s.server.leases, s.told);
    assert "b" in t && "c" in t;
    assert t["c"].leaseState == READ_CACHING | WRITE_CACHING && t["b"].leaseState == READ_CACHING;
  }
}
