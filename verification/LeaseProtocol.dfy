/**
 The lease table and the registry of breaks as one protocol.  A creation reports conflicts, the
 handler breaks each of them and then stores the result, and the acknowledging side stores the
 acknowledged state as well.  Both stores write an entry that was put together earlier.
 */
module LeaseProtocol {
  import opened Core
  import opened LeaseStates
  import opened Leases
  import B = LeaseBreaks

  datatype Server = Server(
    leases: LeaseTable,
    registry: B.Registry,
    /** Conflicts that creations reported and that are still to be broken, with the state requested. */
    toBreak: multiset<(LeaseEntry, LeaseState)>,
    /** The conflicting lease, as reported, of each break under way. */
    breaking: map<nat, LeaseEntry>,
    /** Acknowledgments taken whose handler has not read the lease yet. */
    acks: multiset<(string, LeaseState)>,
    /** Entries that handlers are about to store. */
    staged: multiset<LeaseEntry>)

  function Initial(timeout: nat): Server {
    Server(map[], B.InitialRegistry(timeout), multiset{}, map[], multiset{}, multiset{})
  }

  datatype Action =
    /** check_and_create_lease; `existing` is the order in which the store listed the file's leases. */
    | Create(existing: seq<LeaseEntry>, lease: LeaseEntry, requested: LeaseState)
    | DeleteKey(leaseKey: string)
    | DeleteServer(serverId: string)
    /** The handler of a creation begins to break one of its conflicts. */
    | BeginBreak(conflict: LeaseEntry, requested: LeaseState, sent: bool)
    /** Any other step of the registry. */
    | Registry(step: B.Step)
    /** The handler of an acknowledgment reads the lease. */
    | ReadForAck(leaseKey: string, acked: LeaseState)
    /** update_lease */
    | StoreEntry(entry: LeaseEntry)

  /** The conflicts of a creation that its handler breaks: its own server's, where the state changes. */
  function Breaks(conflicts: seq<LeaseEntry>, server: string, requested: LeaseState)
    : multiset<(LeaseEntry, LeaseState)>
  {
    if conflicts == [] then multiset{}
    else
      var before, c := Breaks(conflicts[..|conflicts| - 1], server, requested), conflicts[|conflicts| - 1];
      if c.serverId == server && BreakState(c.leaseState, requested) != c.leaseState
      then before + multiset{(c, requested)} else before
  }

  /** The entry stored for a lease after its break. */
  function Broken(c: LeaseEntry, state: LeaseState): LeaseEntry {
    c.(leaseState := state, epoch := (c.epoch + 1) % 0x1_0000)
  }

  ghost function CreateStep(s: Server, existing: seq<LeaseEntry>, lease: LeaseEntry, requested: LeaseState): Server {
    if !Enumerates(existing, s.leases, lease.filePath, Some(lease.leaseKey)) then s
    else
      s.(leases := CreateChecked(s.leases, existing, lease, requested).0,
         toBreak := s.toBreak + Breaks(ConflictList(existing, requested), lease.serverId, requested))
  }

  function BeginStep(s: Server, c: LeaseEntry, requested: LeaseState, sent: bool): Server {
    if (c, requested) !in s.toBreak then s
    else
      var to := BreakState(c.leaseState, requested);
      var (r, reply) := B.Apply(s.registry, B.Begin(B.LeaseTarget(c.leaseKey), c.leaseState, to, sent));
      s.(registry := r,
         toBreak := s.toBreak - multiset{(c, requested)},
         breaking := if reply.Started? then s.breaking[reply.id := c] else s.breaking,
         staged := if reply.Finished? then s.staged + multiset{Broken(c, B.FinalState(B.Outcome(to, reply.result)))}
                   else s.staged)
  }

  /** The break whose waiter a step lets go on. */
  predicate Returns(s: Server, step: B.Step) {
    && (step.Wake? || step.GiveUp?)
    && step.id in s.breaking && step.id in s.registry.waiting && s.registry.waiting[step.id].target.LeaseTarget?
    && step.id in B.Apply(s.registry, step).0.returned
    && B.Apply(s.registry, step).1.Finished?
  }

  function RegistryStep(s: Server, step: B.Step): Server {
    if step.Begin? && step.target.LeaseTarget? then s
    else
      var (r, reply) := B.Apply(s.registry, step);
      var s' := s.(registry := r);
      if Returns(s, step) then
        s'.(breaking := s.breaking - {step.id},
            staged := s.staged + multiset{Broken(s.breaking[step.id], B.FinalState(r.returned[step.id]))})
      else if step.Acknowledge? && reply.AckTaken? && step.target.LeaseTarget? then
        s'.(acks := s.acks + multiset{(step.target.leaseKey, step.acked)})
      else s'
  }

  ghost function Step(s: Server, a: Action): Server {
    match a
    case Create(existing, lease, requested) => CreateStep(s, existing, lease, requested)
    case DeleteKey(key) => s.(leases := LeaseStep(s.leases, Delete(key)))
    case DeleteServer(id) => s.(leases := LeaseStep(s.leases, DeleteForServer(id)))
    case BeginBreak(c, requested, sent) => BeginStep(s, c, requested, sent)
    case Registry(step) => RegistryStep(s, step)
    case ReadForAck(key, acked) =>
      if (key, acked) !in s.acks then s
      else
        s.(acks := s.acks - multiset{(key, acked)},
           staged := if key in s.leases then s.staged + multiset{Broken(s.leases[key], acked)} else s.staged)
    case StoreEntry(e) =>
      if e !in s.staged then s else s.(leases := Store(s.leases, e), staged := s.staged - multiset{e})
  }

  ghost function Run(timeout: nat, actions: seq<Action>): Server {
    if actions == [] then Initial(timeout)
    else Step(Run(timeout, actions[..|actions| - 1]), actions[|actions| - 1])
  }

  // ---------- one writer per file ----------

  /** The entry to be stored conflicts with no other lease that the store finds on its file. */
  ghost predicate StoreFits(s: Server, a: Action) {
    a.StoreEntry? && a.entry in s.staged ==> Fits(s.leases, a.entry)
  }

  lemma StepOneWriter(s: Server, a: Action)
    requires OneWriter(s.leases)
    ensures OneWriter(Step(s, a).leases) <==> StoreFits(s, a)
  {
    hide OneWriter, Fits, Enumerates, BeginStep, RegistryStep;
    match a {
      case Create(existing, lease, requested) =>
        if Enumerates(existing, s.leases, lease.filePath, Some(lease.leaseKey)) {
          CreateCheckedKeepsOneWriter(s.leases, existing, lease.filePath, lease, requested);
        }
      case DeleteKey(key) => LeaseStepKeepsOneWriter(s.leases, Delete(key));
      case DeleteServer(id) => LeaseStepKeepsOneWriter(s.leases, DeleteForServer(id));
      case BeginBreak(c, requested, sent) => BeginKeepsTable(s, c, requested, sent);
      case Registry(step) => RegistryKeepsTable(s, step);
      case ReadForAck(_, _) =>
      case StoreEntry(e) => StoreKeepsOneWriter(s.leases, e);
    }
  }

  lemma BeginKeepsTable(s: Server, c: LeaseEntry, requested: LeaseState, sent: bool)
    ensures BeginStep(s, c, requested, sent).leases == s.leases
  {
    hide B.Apply, BreakState, B.FinalState;
  }

  lemma RegistryKeepsTable(s: Server, step: B.Step)
    ensures RegistryStep(s, step).leases == s.leases
  {
    hide B.Apply, Returns, B.FinalState;
  }

  ghost predicate AlwaysOneWriter(timeout: nat, actions: seq<Action>) {
    && OneWriter(Run(timeout, actions).leases)
    && (actions != [] ==> AlwaysOneWriter(timeout, actions[..|actions| - 1]))
  }

  ghost predicate StoresFit(timeout: nat, actions: seq<Action>) {
    actions != [] ==>
      && StoreFits(Run(timeout, actions[..|actions| - 1]), actions[|actions| - 1])
      && StoresFit(timeout, actions[..|actions| - 1])
  }

  /**
   Over every run of creations, deletions, breaks and stored results, a writer on a file has the
   file to itself in every state if and only if each stored result fits the table it meets.
   */
  lemma {:induction false} OneWriterIffStoresFit(timeout: nat, actions: seq<Action>)
    ensures AlwaysOneWriter(timeout, actions) <==> StoresFit(timeout, actions)
  {
    hide Step, StoreFits;
    if actions != [] {
      hide OneWriter;
      var before := actions[..|actions| - 1];
      OneWriterIffStoresFit(timeout, before);
      if OneWriter(Run(timeout, before).leases) {
        StepOneWriter(Run(timeout, before), actions[|actions| - 1]);
      }
    }
  }

  /** The store finds the lease, still on its file, in a state from which the change is safe. */
  predicate StoreSafe(s: Server, a: Action) {
    a.StoreEntry? && a.entry in s.staged ==>
      && a.entry.leaseKey in s.leases
      && s.leases[a.entry.leaseKey].filePath == a.entry.filePath
      && SafeUpdate(s.leases[a.entry.leaseKey].leaseState, a.entry.leaseState)
  }

  ghost predicate StoresSafe(timeout: nat, actions: seq<Action>) {
    actions != [] ==>
      && StoreSafe(Run(timeout, actions[..|actions| - 1]), actions[|actions| - 1])
      && StoresSafe(timeout, actions[..|actions| - 1])
  }

  /** A look at the lease itself is enough: when every store is a safe update, one writer is kept. */
  lemma {:induction false} SafeStoresKeepOneWriter(timeout: nat, actions: seq<Action>)
    requires StoresSafe(timeout, actions)
    ensures AlwaysOneWriter(timeout, actions)
  {
    hide Step, SafeUpdate;
    if actions != [] {
      hide OneWriter;
      var before, a := actions[..|actions| - 1], actions[|actions| - 1];
      SafeStoresKeepOneWriter(timeout, before);
      var s := Run(timeout, before);
      if a.StoreEntry? && a.entry in s.staged {
        SafeUpdateKeepsOneWriter(s.leases, a.entry);
        StoreKeepsOneWriter(s.leases, a.entry);
      }
      StepOneWriter(s, a);
    }
  }

  // ---------- what can be stored ----------

  /** Every entry that was ever in the table. */
  ghost function Ever(timeout: nat, actions: seq<Action>): set<LeaseEntry> {
    Run(timeout, actions).leases.Values +
    if actions == [] then {} else Ever(timeout, actions[..|actions| - 1])
  }

  /** The lease once held at least this state. */
  ghost predicate Held(ever: set<LeaseEntry>, key: string, state: LeaseState) {
    exists c :: c in ever && c.leaseKey == key && Subset(state, c.leaseState)
  }

  /** A break under way asks for less than the lease held when the conflict was reported. */
  ghost predicate Linked(breaking: map<nat, LeaseEntry>, id: nat, w: B.Waiter) {
    w.target.LeaseTarget? ==>
      id in breaking && breaking[id].leaseKey == w.target.leaseKey && Subset(w.newState, breaking[id].leaseState)
  }

  ghost predicate BreaksLinked(r: B.Registry, breaking: map<nat, LeaseEntry>) {
    && (forall id :: id in r.starting ==> Linked(breaking, id, r.starting[id]))
    && (forall id :: id in r.waiting ==> Linked(breaking, id, r.waiting[id]))
  }

  ghost predicate RegistryInv(s: Server) {
    BreaksLinked(s.registry, s.breaking) && B.Inv(s.registry)
  }

  ghost predicate TableHeld(t: LeaseTable, ever: set<LeaseEntry>) {
    forall k :: k in t ==> t[k].leaseKey == k && t[k] in ever
  }

  ghost predicate ConflictsHeld(toBreak: multiset<(LeaseEntry, LeaseState)>, ever: set<LeaseEntry>) {
    forall p :: p in toBreak ==> p.0 in ever && BreakState(p.0.leaseState, p.1) != p.0.leaseState
  }

  ghost predicate BreakingHeld(breaking: map<nat, LeaseEntry>, ever: set<LeaseEntry>) {
    forall id :: id in breaking ==> breaking[id] in ever
  }

  ghost predicate AcksHeld(acks: multiset<(string, LeaseState)>, ever: set<LeaseEntry>) {
    forall p :: p in acks ==> Held(ever, p.0, p.1)
  }

  ghost predicate StagedHeld(staged: multiset<LeaseEntry>, ever: set<LeaseEntry>) {
    forall e :: e in staged ==> Held(ever, e.leaseKey, e.leaseState)
  }

  ghost predicate HeldInv(s: Server, ever: set<LeaseEntry>) {
    && TableHeld(s.leases, ever)
    && ConflictsHeld(s.toBreak, ever)
    && BreakingHeld(s.breaking, ever)
    && AcksHeld(s.acks, ever)
    && StagedHeld(s.staged, ever)
  }

  ghost predicate Inv(s: Server, ever: set<LeaseEntry>) {
    HeldInv(s, ever) && RegistryInv(s)
  }

  lemma AcksHeldMore(acks: multiset<(string, LeaseState)>, ever: set<LeaseEntry>, more: set<LeaseEntry>)
    requires AcksHeld(acks, ever) && ever <= more
    ensures AcksHeld(acks, more)
  {
    hide Subset;
    forall p | p in acks
      ensures Held(more, p.0, p.1)
    {
      assert Held(ever, p.0, p.1);
    }
  }

  lemma StagedHeldMore(staged: multiset<LeaseEntry>, ever: set<LeaseEntry>, more: set<LeaseEntry>)
    requires StagedHeld(staged, ever) && ever <= more
    ensures StagedHeld(staged, more)
  {
    hide Subset;
    forall e | e in staged
      ensures Held(more, e.leaseKey, e.leaseState)
    {
      assert Held(ever, e.leaseKey, e.leaseState);
    }
  }

  lemma HeldMore(s: Server, ever: set<LeaseEntry>, more: set<LeaseEntry>)
    requires HeldInv(s, ever) && ever <= more
    ensures HeldInv(s, more)
  {
    hide AcksHeld, StagedHeld;
    AcksHeldMore(s.acks, ever, more);
    StagedHeldMore(s.staged, ever, more);
  }

  lemma StageHeld(staged: multiset<LeaseEntry>, e: LeaseEntry, ever: set<LeaseEntry>)
    requires StagedHeld(staged, ever) && Held(ever, e.leaseKey, e.leaseState)
    ensures StagedHeld(staged + multiset{e}, ever)
  {
    hide Held;
  }

  lemma FewerAcks(acks: multiset<(string, LeaseState)>, p: (string, LeaseState), ever: set<LeaseEntry>)
    requires AcksHeld(acks, ever)
    ensures AcksHeld(acks - multiset{p}, ever)
  {
    hide Held;
  }

  lemma FewerStaged(staged: multiset<LeaseEntry>, e: LeaseEntry, ever: set<LeaseEntry>)
    requires StagedHeld(staged, ever)
    ensures StagedHeld(staged - multiset{e}, ever)
  {
    hide Held;
  }

  lemma AckHeld(acks: multiset<(string, LeaseState)>, p: (string, LeaseState), ever: set<LeaseEntry>)
    requires AcksHeld(acks, ever) && Held(ever, p.0, p.1)
    ensures AcksHeld(acks + multiset{p}, ever)
  {
    hide Held;
  }

  lemma {:induction false} BreaksMembers(conflicts: seq<LeaseEntry>, server: string, requested: LeaseState,
                                         p: (LeaseEntry, LeaseState))
    requires p in Breaks(conflicts, server, requested)
    ensures p.0 in conflicts && BreakState(p.0.leaseState, p.1) != p.0.leaseState
  {
    hide BreakState;
    if conflicts != [] {
      var n := |conflicts| - 1;
      if p in Breaks(conflicts[..n], server, requested) {
        BreaksMembers(conflicts[..n], server, requested, p);
      }
    }
  }

  lemma CreateHeld(s: Server, ever: set<LeaseEntry>, existing: seq<LeaseEntry>, lease: LeaseEntry,
                   requested: LeaseState)
    requires HeldInv(s, ever)
    ensures var s' := CreateStep(s, existing, lease, requested); HeldInv(s', ever + s'.leases.Values)
  {
    hide Enumerates, ConflictList, Breaks, Granted, AcksHeld, StagedHeld, Conflict, BreakState;
    var s' := CreateStep(s, existing, lease, requested);
    HeldMore(s, ever, ever + s'.leases.Values);
    TableIsHeld(s'.leases, ever);
    if Enumerates(existing, s.leases, lease.filePath, Some(lease.leaseKey)) {
      var conflicts := ConflictList(existing, requested);
      forall p | p in Breaks(conflicts, lease.serverId, requested)
        ensures p.0 in ever && BreakState(p.0.leaseState, p.1) != p.0.leaseState
      {
        BreaksMembers(conflicts, lease.serverId, requested, p);
        ConflictsOfFile(existing, s.leases, lease.filePath, Some(lease.leaseKey), requested, p.0);
      }
    }
  }

  lemma TableIsHeld(t: LeaseTable, ever: set<LeaseEntry>)
    requires forall k :: k in t ==> t[k].leaseKey == k
    ensures TableHeld(t, ever + t.Values)
  {
    assert forall k :: k in t ==> t[k] in t.Values;
  }

  lemma DeleteHeld(s: Server, ever: set<LeaseEntry>, a: Action)
    requires HeldInv(s, ever) && (a.DeleteKey? || a.DeleteServer?)
    ensures HeldInv(Step(s, a), ever + Step(s, a).leases.Values)
  {
    hide AcksHeld, StagedHeld;
    HeldMore(s, ever, ever + Step(s, a).leases.Values);
    TableIsHeld(Step(s, a).leases, ever);
  }

  lemma ReadHeld(s: Server, ever: set<LeaseEntry>, key: string, acked: LeaseState)
    requires HeldInv(s, ever) && (key, acked) in s.acks
    ensures HeldInv(Step(s, ReadForAck(key, acked)), ever)
  {
    hide Held, AcksHeld, StagedHeld, ConflictsHeld, BreakingHeld;
    FewerAcks(s.acks, (key, acked), ever);
    AckedIsHeld(s.acks, key, acked, ever);
    if key in s.leases {
      StageHeld(s.staged, Broken(s.leases[key], acked), ever);
    }
  }

  lemma StoreHeld(s: Server, ever: set<LeaseEntry>, e: LeaseEntry)
    requires HeldInv(s, ever) && e in s.staged
    ensures HeldInv(Step(s, StoreEntry(e)), ever + Store(s.leases, e).Values)
  {
    hide Held, AcksHeld, StagedHeld;
    var more := ever + Store(s.leases, e).Values;
    HeldMore(s, ever, more);
    TableIsHeld(Store(s.leases, e), ever);
    FewerStaged(s.staged, e, more);
  }

  lemma OtherHeld(s: Server, ever: set<LeaseEntry>, a: Action)
    requires HeldInv(s, ever) && (a.DeleteKey? || a.DeleteServer? || a.ReadForAck? || a.StoreEntry?)
    ensures HeldInv(Step(s, a), ever + Step(s, a).leases.Values)
  {
    hide HeldInv;
    if a.DeleteKey? || a.DeleteServer? {
      DeleteHeld(s, ever, a);
    } else if a.ReadForAck? && (a.leaseKey, a.acked) in s.acks {
      ReadHeld(s, ever, a.leaseKey, a.acked);
      HeldMore(Step(s, a), ever, ever + Step(s, a).leases.Values);
    } else if a.StoreEntry? && a.entry in s.staged {
      StoreHeld(s, ever, a.entry);
    } else {
      HeldMore(s, ever, ever + s.leases.Values);
    }
  }

  lemma AckedIsHeld(acks: multiset<(string, LeaseState)>, key: string, acked: LeaseState, ever: set<LeaseEntry>)
    requires AcksHeld(acks, ever) && (key, acked) in acks
    ensures Held(ever, key, acked)
  {
    assert Held(ever, (key, acked).0, (key, acked).1);
  }

  lemma BeginHeld(s: Server, ever: set<LeaseEntry>, c: LeaseEntry, requested: LeaseState, sent: bool)
    requires HeldInv(s, ever)
    ensures HeldInv(BeginStep(s, c, requested, sent), ever)
  {
    var to := BreakState(c.leaseState, requested);
    BreakStateFalls(c.leaseState, requested);
    hide AcksHeld, StagedHeld, BreakState, B.Apply, Subset, TableHeld;
    if (c, requested) in s.toBreak {
      var (_, reply) := B.Apply(s.registry, B.Begin(B.LeaseTarget(c.leaseKey), c.leaseState, to, sent));
      if reply.Finished? {
        BeginReply(s.registry, c, to, sent);
        assert (c, requested).0 in ever;
        assert Held(ever, c.leaseKey, to);
        StageHeld(s.staged, Broken(c, to), ever);
      }
    }
  }

  lemma BeginReply(r: B.Registry, c: LeaseEntry, to: LeaseState, sent: bool)
    ensures var reply := B.Apply(r, B.Begin(B.LeaseTarget(c.leaseKey), c.leaseState, to, sent)).1;
            reply.Finished? ==> B.FinalState(B.Outcome(to, reply.result)) == to
  {
  }

  /** Begin puts at most the new id among the starting breaks and leaves the waiting ones alone. */
  lemma BeginAdds(r: B.Registry, c: LeaseEntry, to: LeaseState, sent: bool)
    ensures var (r', reply) := B.Apply(r, B.Begin(B.LeaseTarget(c.leaseKey), c.leaseState, to, sent));
            && r'.waiting == r.waiting
            && (reply.Started? ==> reply.id == r.nextBreakId)
            && (reply.Started? ==>
                  r'.starting == r.starting[r.nextBreakId := B.Waiter(B.LeaseTarget(c.leaseKey), to, B.Open)])
            && (!reply.Started? ==> r'.starting == r.starting)
  {
    hide B.AckRequired;
  }

  lemma NewBreakLinked(r: B.Registry, r': B.Registry, breaking: map<nat, LeaseEntry>, c: LeaseEntry, to: LeaseState)
    requires BreaksLinked(r, breaking) && Subset(to, c.leaseState)
    requires r.nextBreakId !in r.starting && r.nextBreakId !in r.waiting && r'.waiting == r.waiting
    requires r'.starting == r.starting[r.nextBreakId := B.Waiter(B.LeaseTarget(c.leaseKey), to, B.Open)]
    ensures BreaksLinked(r', breaking[r.nextBreakId := c])
  {
    hide Subset;
  }

  lemma BeginLinked(s: Server, c: LeaseEntry, requested: LeaseState, sent: bool)
    requires RegistryInv(s)
    ensures RegistryInv(BeginStep(s, c, requested, sent))
  {
    hide Subset, B.Inv, BreakState, B.FinalState, B.Apply, BreaksLinked;
    var r, to := s.registry, BreakState(c.leaseState, requested);
    var begin := B.Begin(B.LeaseTarget(c.leaseKey), c.leaseState, to, sent);
    BreakStateFalls(c.leaseState, requested);
    B.StepInv(r, begin);
    FreshBreak(r);
    BeginAdds(r, c, to, sent);
    var (r', reply) := B.Apply(r, begin);
    if reply.Started? {
      NewBreakLinked(r, r', s.breaking, c, to);
    } else {
      SameBreaksLinked(r, r', s.breaking);
    }
  }

  lemma SameBreaksLinked(r: B.Registry, r': B.Registry, breaking: map<nat, LeaseEntry>)
    requires BreaksLinked(r, breaking) && r'.starting == r.starting && r'.waiting == r.waiting
    ensures BreaksLinked(r', breaking)
  {
    hide Subset;
  }

  /** The id of a new break is not in use. */
  lemma FreshBreak(r: B.Registry)
    requires B.Inv(r)
    ensures r.nextBreakId !in r.starting && r.nextBreakId !in r.waiting
  {
    assert B.BreakInv(r, r.nextBreakId);
  }

  /** Registry steps hand breaks on from starting to waiting with the state they ask for. */
  lemma BreaksHandedOn(r: B.Registry, step: B.Step, id: nat)
    requires !(step.Begin? && step.target.LeaseTarget?)
    ensures HandedOn(r, B.Apply(r, step).0, id)
  {
    match step {
      case Register(_, _) =>
      case Unregister(_) =>
      case Begin(_, _, _, _) => OplockHandedOn(r, step, id);
      case Park(_, _) =>
      case Acknowledge(_, _, _) => AnsweredHandedOn(r, step, id);
      case Expire(_, _) => AnsweredHandedOn(r, step, id);
      case Wake(_) =>
      case GiveUp(_) =>
    }
  }

  ghost predicate HandedOn(r: B.Registry, r': B.Registry, id: nat) {
    && (id in r'.starting && r'.starting[id].target.LeaseTarget? ==>
          id in r.starting && r'.starting[id] == r.starting[id])
    && (id in r'.waiting ==>
          (id in r.waiting && SameBreak(r.waiting[id], r'.waiting[id])) ||
          (id in r.starting && SameBreak(r.starting[id], r'.waiting[id])))
  }

  lemma OplockHandedOn(r: B.Registry, step: B.Step, id: nat)
    requires step.Begin? && step.target.OplockTarget?
    ensures HandedOn(r, B.Apply(r, step).0, id)
  {
    hide B.AckRequired;
  }

  lemma AnsweredHandedOn(r: B.Registry, step: B.Step, id: nat)
    requires step.Acknowledge? || step.Expire?
    ensures HandedOn(r, B.Apply(r, step).0, id)
  {
    hide B.AckValid, B.Expired;
  }

  predicate SameBreak(a: B.Waiter, b: B.Waiter) {
    a.target == b.target && a.newState == b.newState
  }

  /** A waiter that goes on returns with the state its break asked for. */
  lemma ReturnedBreak(r: B.Registry, step: B.Step)
    requires B.Inv(r) && (step.Wake? || step.GiveUp?) && step.id in r.waiting && B.Apply(r, step).1.Finished?
    ensures var r' := B.Apply(r, step).0;
            && step.id in r'.returned && r'.returned[step.id].breakTo == r.waiting[step.id].newState
            && step.id !in r'.waiting && step.id !in r'.starting
            && Subset(B.FinalState(r'.returned[step.id]), r.waiting[step.id].newState)
  {
    assert B.BreakInv(r, step.id);
    B.StepInv(r, step);
    var r' := B.Apply(r, step).0;
    assert B.BreakInv(r', step.id);
    hide Subset, B.Count;
    B.FinalWithinBreakTo(r'.returned[step.id]);
  }

  lemma RegistryLinked(s: Server, step: B.Step)
    requires RegistryInv(s)
    ensures RegistryInv(RegistryStep(s, step))
  {
    hide Subset, B.Inv, B.Apply;
    B.StepInv(s.registry, step);
    if !(step.Begin? && step.target.LeaseTarget?) {
      var s' := RegistryStep(s, step);
      if Returns(s, step) {
        ReturnedBreak(s.registry, step);
      }
      forall id: nat
        ensures id in s'.registry.starting ==> Linked(s'.breaking, id, s'.registry.starting[id])
        ensures id in s'.registry.waiting ==> Linked(s'.breaking, id, s'.registry.waiting[id])
      {
        BreaksHandedOn(s.registry, step, id);
      }
    }
  }

  lemma RegistryHeld(s: Server, ever: set<LeaseEntry>, step: B.Step)
    requires Inv(s, ever)
    ensures HeldInv(RegistryStep(s, step), ever)
  {
    hide Subset, B.Inv, B.Apply, B.FinalState, AcksHeld, StagedHeld, TableHeld, ConflictsHeld;
    var r := s.registry;
    if Returns(s, step) {
      ReturnedBreak(r, step);
      var c, state := s.breaking[step.id], B.FinalState(B.Apply(r, step).0.returned[step.id]);
      assert Linked(s.breaking, step.id, r.waiting[step.id]);
      SubsetTransitive(state, r.waiting[step.id].newState, c.leaseState);
      assert Held(ever, c.leaseKey, state);
      StageHeld(s.staged, Broken(c, state), ever);
    } else if step.Acknowledge? && B.Apply(r, step).1.AckTaken? && step.target.LeaseTarget? {
      AcknowledgedBreak(r, step);
      var w := r.waiting[step.id];
      assert Linked(s.breaking, step.id, w);
      SubsetTransitive(step.acked, w.newState, s.breaking[step.id].leaseState);
      assert Held(ever, step.target.leaseKey, step.acked);
      AckHeld(s.acks, (step.target.leaseKey, step.acked), ever);
    }
  }

  lemma AcknowledgedBreak(r: B.Registry, step: B.Step)
    requires B.Inv(r) && step.Acknowledge? && B.Apply(r, step).1.AckTaken?
    ensures step.id in r.waiting && r.waiting[step.id].target == step.target
    ensures Subset(step.acked, r.waiting[step.id].newState)
  {
    assert B.BreakInv(r, step.id);
    B.AckValidIsSubset(r.pending[step.id], step.acked);
  }

  lemma StepHeld(s: Server, ever: set<LeaseEntry>, a: Action)
    requires Inv(s, ever)
    ensures HeldInv(Step(s, a), ever + Step(s, a).leases.Values)
  {
    hide HeldInv, RegistryInv, BeginStep, RegistryStep, CreateStep;
    match a {
      case Create(existing, lease, requested) => CreateHeld(s, ever, existing, lease, requested);
      case BeginBreak(c, requested, sent) =>
        BeginHeld(s, ever, c, requested, sent);
        HeldMore(Step(s, a), ever, ever + Step(s, a).leases.Values);
      case Registry(step) =>
        RegistryHeld(s, ever, step);
        HeldMore(Step(s, a), ever, ever + Step(s, a).leases.Values);
      case _ => OtherHeld(s, ever, a);
    }
  }

  lemma StepLinked(s: Server, a: Action)
    requires RegistryInv(s)
    ensures RegistryInv(Step(s, a))
  {
    hide BreaksLinked, B.Inv, BeginStep, RegistryStep;
    match a {
      case BeginBreak(c, requested, sent) => BeginLinked(s, c, requested, sent);
      case Registry(step) => RegistryLinked(s, step);
      case _ =>
    }
  }

  lemma {:induction false} RunInv(timeout: nat, actions: seq<Action>)
    ensures Inv(Run(timeout, actions), Ever(timeout, actions))
  {
    hide HeldInv, RegistryInv, Step;
    if actions == [] {
      InitialInv(timeout);
    } else {
      var before := actions[..|actions| - 1];
      RunInv(timeout, before);
      StepHeld(Run(timeout, before), Ever(timeout, before), actions[|actions| - 1]);
      StepLinked(Run(timeout, before), actions[|actions| - 1]);
      assert Ever(timeout, before) + Run(timeout, actions).leases.Values == Ever(timeout, actions);
    }
  }

  lemma InitialInv(timeout: nat)
    ensures forall ever :: Inv(Initial(timeout), ever)
  {
    B.InitialInv(timeout);
  }

  /** In every run, what is about to be stored for a lease is a subset of a state it once held. */
  lemma StoredWithinHeld(timeout: nat, actions: seq<Action>, e: LeaseEntry)
    requires e in Run(timeout, actions).staged
    ensures exists c :: c in Ever(timeout, actions) && c.leaseKey == e.leaseKey && Subset(e.leaseState, c.leaseState)
  {
    hide Run, Ever, Subset;
    RunInv(timeout, actions);
    assert Held(Ever(timeout, actions), e.leaseKey, e.leaseState);
  }

  /**
   Every break that a handler begins waits for an acknowledgment: a lease that would need none
   has read caching alone, and the handler leaves it as it is.
   */
  lemma EveryBreakIsAcknowledged(timeout: nat, actions: seq<Action>, c: LeaseEntry, requested: LeaseState, sent: bool)
    requires (c, requested) in Run(timeout, actions).toBreak
    ensures B.AckRequired(B.LeaseTarget(c.leaseKey), c.leaseState)
    ensures Step(Run(timeout, actions), BeginBreak(c, requested, sent)).staged == Run(timeout, actions).staged
  {
    hide Run, BreakState, Subset;
    RunInv(timeout, actions);
    assert BreakState((c, requested).0.leaseState, (c, requested).1) != c.leaseState;
    ReadLeaseStays(requested);
    BeginAsksForAck(Run(timeout, actions), c, requested, sent);
  }

  lemma BeginAsksForAck(s: Server, c: LeaseEntry, requested: LeaseState, sent: bool)
    requires c.leaseState != READ_CACHING
    ensures B.AckRequired(B.LeaseTarget(c.leaseKey), c.leaseState)
    ensures Step(s, BeginBreak(c, requested, sent)).staged == s.staged
  {
    hide BreakState, B.Apply, B.FinalState;
    BeginWaits(s.registry, c, BreakState(c.leaseState, requested), sent);
  }

  lemma BeginWaits(r: B.Registry, c: LeaseEntry, to: LeaseState, sent: bool)
    requires c.leaseState != READ_CACHING
    ensures !B.Apply(r, B.Begin(B.LeaseTarget(c.leaseKey), c.leaseState, to, sent)).1.Finished?
  {
  }

  // ---------- a run that breaks the rule ----------

  const HOLDER := LeaseEntry("a", "s", "f", READ_CACHING | WRITE_CACHING, 1)
  const WRITER := LeaseEntry("b", "s", "f", WRITE_CACHING, 1)
  const RESULT := LeaseEntry("a", "s", "f", READ_CACHING, 2)

  /**
   Client a holds read and write caching.  Client b asks for write caching, a's lease is broken
   and a acknowledges read caching.  Before the handler stores that, a closes, b gets write
   caching, and a opens again with nothing granted.
   */
  function StaleActions(): seq<Action> {
    [ Create([], HOLDER, READ_CACHING | WRITE_CACHING),
      Registry(B.Register(B.LeaseTarget("a"), 0)),
      Create([HOLDER], WRITER, WRITE_CACHING),
      BeginBreak(HOLDER, WRITE_CACHING, true),
      Registry(B.Park(1, 0)),
      Registry(B.Acknowledge(B.LeaseTarget("a"), READ_CACHING, 1)),
      Registry(B.Wake(1)),
      DeleteKey("a"),
      Create([], WRITER, WRITE_CACHING),
      Create([WRITER], HOLDER, READ_CACHING),
      StoreEntry(RESULT) ]
  }

  lemma CreateAlone(s: Server, lease: LeaseEntry)
    requires forall k :: k in s.leases ==> k == lease.leaseKey
    ensures Step(s, Create([], lease, lease.leaseState)) == s.(leases := s.leases[lease.leaseKey := lease])
  {
    var keys: seq<string> := [];
    assert EnumeratesKeys(keys, [], s.leases, lease.filePath, Some(lease.leaseKey));
  }

  /** Beside a writer on the file nothing is granted, and the writer is to be broken. */
  lemma CreateBeside(s: Server, other: LeaseEntry, lease: LeaseEntry, requested: LeaseState)
    requires other.leaseKey in s.leases && s.leases[other.leaseKey] == other && other.leaseKey != lease.leaseKey
    requires forall k :: k in s.leases ==> k == lease.leaseKey || k == other.leaseKey
    requires other.filePath == lease.filePath && other.serverId == lease.serverId
    requires HasWrite(other.leaseState) && requested != 0
    requires BreakState(other.leaseState, requested) != other.leaseState
    ensures Step(s, Create([other], lease, requested)) ==
            s.(leases := s.leases[lease.leaseKey := lease.(leaseState := 0)],
               toBreak := s.toBreak + multiset{(other, requested)})
  {
    hide BreakState, HasWrite, Enumerates, ConflictList, Granted, Breaks;
    OneConflict(other, requested);
    var keys := [other.leaseKey];
    EnumeratedByKeys(keys, [other], s.leases, lease.filePath, Some(lease.leaseKey));
  }

  lemma EnumeratedByKeys(keys: seq<string>, list: seq<LeaseEntry>, t: LeaseTable, file: string, except: Option<string>)
    requires EnumeratesKeys(keys, list, t, file, except)
    ensures Enumerates(list, t, file, except)
  {
  }

  lemma OneConflict(other: LeaseEntry, requested: LeaseState)
    requires HasWrite(other.leaseState) && requested != 0
    requires BreakState(other.leaseState, requested) != other.leaseState
    ensures ConflictList([other], requested) == [other] && Granted([other], requested) == 0
    ensures Breaks([other], other.serverId, requested) == multiset{(other, requested)}
  {
    hide BreakState, HasWrite;
    assert [other][..0] == [];
    assert ConflictList([], requested) == [];
    assert ConflictList([other], requested) == [other];
    assert [other][0] == other && AnyWrite([other]);
  }

  function Waiting(channel: B.Channel): B.Waiter {
    B.Waiter(B.LeaseTarget("a"), READ_CACHING, channel)
  }

  /** The registry along the run. */
  lemma StaleRegistry(timeout: nat)
    ensures var a := B.LeaseTarget("a");
            var r1 := B.Apply(B.InitialRegistry(timeout), B.Register(a, 0)).0;
            var (r2, reply) := B.Apply(r1, B.Begin(a, READ_CACHING | WRITE_CACHING, READ_CACHING, true));
            var r3 := B.Apply(r2, B.Park(1, 0)).0;
            var (r4, taken) := B.Apply(r3, B.Acknowledge(a, READ_CACHING, 1));
            var (r5, done) := B.Apply(r4, B.Wake(1));
            && reply == B.Started(1) && taken == B.AckTaken && done == B.Finished(B.Acknowledged(READ_CACHING))
            && r4.waiting == map[1 := Waiting(B.Sent(B.Acknowledged(READ_CACHING)))]
            && r5.returned == map[1 := B.Outcome(READ_CACHING, B.Acknowledged(READ_CACHING))]
  {
    AckFlags();
    hide B.AckRequired, B.AckValid;
    var a := B.LeaseTarget("a");
    var r1 := B.Apply(B.InitialRegistry(timeout), B.Register(a, 0)).0;
    var r2 := B.Apply(r1, B.Begin(a, READ_CACHING | WRITE_CACHING, READ_CACHING, true)).0;
    assert r2.starting == map[1 := Waiting(B.Open)] && r2.pending == map[] && r2.waiting == map[];
    var r3 := B.Apply(r2, B.Park(1, 0)).0;
    assert r3.pending == map[1 := B.Pending(a, READ_CACHING, timeout)] && r3.waiting == map[1 := Waiting(B.Open)];
    assert r3.returned == map[];
  }

  lemma AckFlags()
    ensures B.AckRequired(B.LeaseTarget("a"), READ_CACHING | WRITE_CACHING)
    ensures forall deadline :: B.AckValid(B.Pending(B.LeaseTarget("a"), READ_CACHING, deadline), READ_CACHING)
    ensures BreakState(READ_CACHING | WRITE_CACHING, WRITE_CACHING) == READ_CACHING
    ensures BreakState(WRITE_CACHING, READ_CACHING) == 0
    ensures HasWrite(READ_CACHING | WRITE_CACHING) && HasWrite(WRITE_CACHING)
    ensures READ_CACHING | WRITE_CACHING != READ_CACHING && WRITE_CACHING != 0 && READ_CACHING != 0
  {
  }

  /** The break of a's lease, from its begin to the waiter's return. */
  lemma StaleBreak(timeout: nat, s: Server)
    requires s.registry == B.Apply(B.InitialRegistry(timeout), B.Register(B.LeaseTarget("a"), 0)).0
    requires s.toBreak == multiset{(HOLDER, WRITE_CACHING)} && s.breaking == map[] && s.staged == multiset{}
    ensures var a := B.LeaseTarget("a");
            var s1 := Step(s, BeginBreak(HOLDER, WRITE_CACHING, true));
            var s2 := Step(s1, Registry(B.Park(1, 0)));
            var s3 := Step(s2, Registry(B.Acknowledge(a, READ_CACHING, 1)));
            var s4 := Step(s3, Registry(B.Wake(1)));
            && s4.leases == s.leases && s4.staged == multiset{RESULT}
            && s4.registry.returned == map[1 := B.Outcome(READ_CACHING, B.Acknowledged(READ_CACHING))]
  {
    AckFlags();
    StaleRegistry(timeout);
    hide B.Apply, BreakState, HasWrite, B.AckRequired, B.AckValid, B.FinalState;
    var s1 := Step(s, BeginBreak(HOLDER, WRITE_CACHING, true));
    assert s1.breaking == map[1 := HOLDER] && s1.leases == s.leases;
    var s2 := Step(s1, Registry(B.Park(1, 0)));
    assert s2.breaking == s1.breaking && s2.staged == s1.staged;
    var s3 := Step(s2, Registry(B.Acknowledge(B.LeaseTarget("a"), READ_CACHING, 1)));
    assert s3.breaking == s1.breaking && s3.staged == s1.staged;
    StaleWake(s3);
  }

  lemma StaleWake(s: Server)
    requires s.breaking == map[1 := HOLDER] && s.staged == multiset{}
    requires s.registry.waiting == map[1 := Waiting(B.Sent(B.Acknowledged(READ_CACHING)))]
    requires B.Apply(s.registry, B.Wake(1)).1.Finished?
    requires B.Apply(s.registry, B.Wake(1)).0.returned == map[1 := B.Outcome(READ_CACHING, B.Acknowledged(READ_CACHING))]
    ensures Step(s, Registry(B.Wake(1))).leases == s.leases
    ensures Step(s, Registry(B.Wake(1))).registry == B.Apply(s.registry, B.Wake(1)).0
    ensures Step(s, Registry(B.Wake(1))).staged == multiset{RESULT}
  {
    hide B.Apply;
    assert Returns(s, B.Wake(1));
    assert Broken(HOLDER, READ_CACHING) == RESULT;
  }

  lemma StaleStates(timeout: nat)
    ensures var acts := StaleActions();
            var s := Run(timeout, acts[..10]);
            && s.leases == map["a" := HOLDER.(leaseState := 0), "b" := WRITER]
            && s.staged == multiset{RESULT}
            && s.registry.returned == map[1 := B.Outcome(READ_CACHING, B.Acknowledged(READ_CACHING))]
  {
    hide Step;
    var acts := StaleActions();
    var s3 := StaleCreations(timeout);
    var s4 := Step(s3, acts[3]);
    var s5 := Step(s4, acts[4]);
    var s6 := Step(s5, acts[5]);
    var s7 := Step(s6, acts[6]);
    StaleBreak(timeout, s3);
    var s8 := Step(s7, acts[7]);
    var s9 := Step(s8, acts[8]);
    var s10 := Step(s9, acts[9]);
    StaleReopening(s7);
    assert acts[..10][..9] == acts[..9] && acts[..9][..8] == acts[..8] && acts[..8][..7] == acts[..7] &&
           acts[..7][..6] == acts[..6] && acts[..6][..5] == acts[..5] && acts[..5][..4] == acts[..4] &&
           acts[..4][..3] == acts[..3];
    assert Run(timeout, acts[..4]) == s4;
    assert Run(timeout, acts[..5]) == s5;
    assert Run(timeout, acts[..6]) == s6;
    assert Run(timeout, acts[..7]) == s7;
    assert Run(timeout, acts[..8]) == s8;
    assert Run(timeout, acts[..9]) == s9;
    assert Run(timeout, acts[..10]) == s10;
  }

  lemma StaleCreations(timeout: nat) returns (s3: Server)
    ensures s3 == Run(timeout, StaleActions()[..3])
    ensures s3.registry == B.Apply(B.InitialRegistry(timeout), B.Register(B.LeaseTarget("a"), 0)).0
    ensures s3.toBreak == multiset{(HOLDER, WRITE_CACHING)} && s3.breaking == map[] && s3.staged == multiset{}
    ensures s3.leases == map["a" := HOLDER, "b" := WRITER.(leaseState := 0)]
  {
    AckFlags();
    hide BreakState, HasWrite, CreateStep, B.Apply;
    var acts, s0 := StaleActions(), Initial(timeout);
    CreateAlone(s0, HOLDER);
    var s1 := Step(s0, acts[0]);
    var s2 := Step(s1, acts[1]);
    CreateBeside(s2, HOLDER, WRITER, WRITE_CACHING);
    s3 := Step(s2, acts[2]);
    assert acts[..3][..2] == acts[..2] && acts[..2][..1] == acts[..1] && acts[..1][..0] == [];
    assert Run(timeout, acts[..1]) == s1;
    assert Run(timeout, acts[..2]) == s2;
  }

  lemma StaleReopening(s: Server)
    requires s.leases == map["a" := HOLDER, "b" := WRITER.(leaseState := 0)]
    ensures var s1 := Step(s, DeleteKey("a"));
            var s2 := Step(s1, Create([], WRITER, WRITE_CACHING));
            var s3 := Step(s2, Create([WRITER], HOLDER, READ_CACHING));
            && s3.leases == map["a" := HOLDER.(leaseState := 0), "b" := WRITER]
            && s3.staged == s.staged && s3.registry == s.registry
  {
    AckFlags();
    hide BreakState, HasWrite, CreateStep;
    var s1 := Step(s, DeleteKey("a"));
    assert s1.leases == map["b" := WRITER.(leaseState := 0)];
    CreateAlone(s1, WRITER);
    var s2 := Step(s1, Create([], WRITER, WRITE_CACHING));
    assert s2.leases == map["b" := WRITER];
    CreateBeside(s2, WRITER, HOLDER, READ_CACHING);
  }

  /**
   The premise on stores is needed: this run keeps one writer until the handler stores the
   acknowledged result of a's break, which leaves a with read caching beside the writer b.
   */
  lemma StaleResultRun(timeout: nat)
    ensures var acts := StaleActions();
            && AlwaysOneWriter(timeout, acts[..10])
            && Run(timeout, acts[..10]).registry.returned ==
               map[1 := B.Outcome(READ_CACHING, B.Acknowledged(READ_CACHING))]
            && acts[10] == StoreEntry(RESULT) && RESULT in Run(timeout, acts[..10]).staged
            && !OneWriter(Run(timeout, acts).leases)
  {
    hide Step, OneWriter, Fits;
    var acts := StaleActions();
    StaleStates(timeout);
    NoStores(timeout, acts[..10]);
    OneWriterIffStoresFit(timeout, acts[..10]);
    StaleStore(Run(timeout, acts[..10]));
    assert acts[..11] == acts && acts[..11][..10] == acts[..10];
  }

  lemma {:induction false} NoStores(timeout: nat, actions: seq<Action>)
    requires forall i :: 0 <= i < |actions| ==> !actions[i].StoreEntry?
    ensures StoresFit(timeout, actions)
  {
    if actions != [] {
      NoStores(timeout, actions[..|actions| - 1]);
    }
  }

  lemma StaleStore(s: Server)
    requires s.leases == map["a" := HOLDER.(leaseState := 0), "b" := WRITER] && s.staged == multiset{RESULT}
    ensures !OneWriter(Step(s, StoreEntry(RESULT)).leases)
  {
    AckFlags();
    hide HasWrite;
    var t := Step(s, StoreEntry(RESULT)).leases;
    assert t["b"] == WRITER && t["a"] == RESULT;
  }
}
