/**
 The registry of oplock and lease breaks as a protocol of atomic steps: a break takes an id
 and is sent, its waiter parks it, and then an acknowledgment, the expiry scan or the waiter's
 own timer takes it out again.
 */
module LeaseBreaks {
  import opened Core
  import opened LeaseStates
  import Leases

  /** A lease by its key, or an oplock by its handle. */
  datatype Target = LeaseTarget(leaseKey: string) | OplockTarget(handleId: nat)

  datatype BreakResult =
    | Acknowledged(newState: LeaseState)
    | TimedOut
    | Disconnected
    | NoAckRequired

  /** The one-shot channel between a pending break and its waiter. */
  datatype Channel = Open | Sent(result: BreakResult) | Dropped

  datatype Pending = Pending(target: Target, newState: LeaseState, deadline: nat)

  datatype Waiter = Waiter(target: Target, newState: LeaseState, channel: Channel)

  datatype Event = Parked(id: nat) | Left(id: nat)

  datatype Outcome = Outcome(breakTo: LeaseState, result: BreakResult)

  datatype Registry = Registry(
    /** Registered targets, with the oplock level of a handle. */
    registered: map<Target, LeaseState>,
    /** Breaks sent whose waiter has not parked them yet. */
    starting: map<nat, Waiter>,
    pending: map<nat, Pending>,
    waiting: map<nat, Waiter>,
    nextBreakId: nat,
    timeout: nat,
    /** What has happened: parkings and departures, and the result each waiter returned. */
    log: seq<Event>,
    returned: map<nat, Outcome>)

  const OPLOCK_EXCLUSIVE: LeaseState := 0x08
  const OPLOCK_BATCH: LeaseState := 0x09

  function InitialRegistry(timeout: nat): Registry {
    Registry(map[], map[], map[], map[], 1, timeout, [], map[])
  }

  /** A break that is not acknowledged by the client. */
  predicate AckRequired(target: Target, current: LeaseState) {
    match target
    case LeaseTarget(_) => current != READ_CACHING
    case OplockTarget(_) => current == OPLOCK_BATCH || current == OPLOCK_EXCLUSIVE
  }

  /** The check an acknowledgment must pass. */
  predicate AckValid(p: Pending, acked: LeaseState) {
    match p.target
    case LeaseTarget(_) => acked & !p.newState == 0
    case OplockTarget(_) => acked == p.newState || acked == 0
  }

  /** Only lease breaks are scanned for expiry. */
  predicate Expired(p: Pending, now: nat) {
    p.target.LeaseTarget? && p.deadline <= now
  }

  lemma AckValidIsSubset(p: Pending, acked: LeaseState)
    requires AckValid(p, acked)
    ensures Subset(acked, p.newState)
  {
  }

  // ---------- steps ----------

  datatype Step =
    | Register(target: Target, level: LeaseState)
    | Unregister(target: Target)
    /** First half of break_lease and break_oplock; `sent` is whether the connection took the event. */
    | Begin(target: Target, current: LeaseState, newState: LeaseState, sent: bool)
    /** Second half: the waiter records the break and starts to wait. */
    | Park(id: nat, now: nat)
    /** `id` is the pending break of the target that the search met. */
    | Acknowledge(target: Target, acked: LeaseState, id: nat)
    | Expire(id: nat, now: nat)
    /** The waiter finds its channel filled or dropped. */
    | Wake(id: nat)
    /** The waiter's own timer fires first. */
    | GiveUp(id: nat)

  datatype Reply =
    | Started(id: nat)
    | Finished(result: BreakResult)
    | LeaseNotFound
    | SendFailed
    | AckTaken
    | NoPendingBreak
    | InvalidStateSubset
    | NoReply

  /** Current state of the target: given for a lease, stored for an oplock. */
  function CurrentState(s: Registry, target: Target, current: LeaseState): LeaseState {
    if target.OplockTarget? && target in s.registered then s.registered[target] else current
  }

  /** Take a pending break out and leave something in its channel. */
  function TakeOut(s: Registry, id: nat, channel: Channel): Registry {
    s.(pending := s.pending - {id},
       waiting := if id in s.waiting then s.waiting[id := s.waiting[id].(channel := channel)] else s.waiting,
       log := s.log + [Left(id)])
  }

  /** The waiter stops waiting and returns a result. */
  function Return(s: Registry, id: nat, result: BreakResult): Registry
    requires id in s.waiting
  {
    s.(waiting := s.waiting - {id}, returned := s.returned[id := Outcome(s.waiting[id].newState, result)])
  }

  function Apply(s: Registry, step: Step): (Registry, Reply) {
    match step
    case Register(target, level) => (s.(registered := s.registered[target := level]), NoReply)
    case Unregister(target) => (s.(registered := s.registered - {target}), NoReply)
    case Begin(target, current, newState, sent) =>
      if target !in s.registered then (s, LeaseNotFound)
      else
        var id := s.nextBreakId;
        var s' := s.(nextBreakId := id + 1);
        if !sent then (s', SendFailed)
        else if !AckRequired(target, CurrentState(s, target, current)) then (s', Finished(NoAckRequired))
        else (s'.(starting := s.starting[id := Waiter(target, newState, Open)]), Started(id))
    case Park(id, now) =>
      if id !in s.starting then (s, NoReply)
      else
        var w := s.starting[id];
        (s.(starting := s.starting - {id},
            pending := s.pending[id := Pending(w.target, w.newState, now + s.timeout)],
            waiting := s.waiting[id := w],
            log := s.log + [Parked(id)]), NoReply)
    case Acknowledge(target, acked, id) =>
      if id !in s.pending || s.pending[id].target != target then (s, NoPendingBreak)
      else if !AckValid(s.pending[id], acked) then (TakeOut(s, id, Dropped), InvalidStateSubset)
      else (TakeOut(s, id, Sent(Acknowledged(acked))), AckTaken)
    case Expire(id, now) =>
      if id in s.pending && Expired(s.pending[id], now)
      then (TakeOut(s, id, Sent(TimedOut)), NoReply)
      else (s, NoReply)
    case Wake(id) =>
      if id in s.waiting && s.waiting[id].channel.Sent?
      then (Return(s, id, s.waiting[id].channel.result), Finished(s.waiting[id].channel.result))
      else if id in s.waiting && s.waiting[id].channel.Dropped?
      then (Return(s, id, Disconnected), Finished(Disconnected))
      else (s, NoReply)
    case GiveUp(id) =>
      if id in s.waiting && s.waiting[id].channel.Open?
      then (Return(TakeOut(s, id, Open), id, TimedOut), Finished(TimedOut))
      else (s, NoReply)
  }

  function ApplyAll(s: Registry, steps: seq<Step>): Registry {
    if steps == [] then s else Apply(ApplyAll(s, steps[..|steps| - 1]), steps[|steps| - 1]).0
  }

  /** Every run starts with an empty registry. */
  function Run(timeout: nat, steps: seq<Step>): Registry {
    ApplyAll(InitialRegistry(timeout), steps)
  }

  // ---------- invariant ----------

  function Count(log: seq<Event>, e: Event): nat {
    multiset(log)[e]
  }

  ghost predicate BreakInv(s: Registry, id: nat) {
    && (id >= s.nextBreakId ==>
          id !in s.starting && id !in s.waiting && id !in s.pending && id !in s.returned)
    && (id in s.starting ==>
          id !in s.waiting && id !in s.pending && id !in s.returned && s.starting[id].channel == Open)
    && (id in s.waiting ==> id !in s.returned)
    && (id in s.pending <==> id in s.waiting && s.waiting[id].channel == Open)
    && (id in s.pending ==>
          s.waiting[id].target == s.pending[id].target && s.waiting[id].newState == s.pending[id].newState)
    && (id in s.waiting && s.waiting[id].channel.Sent? && s.waiting[id].channel.result.Acknowledged? ==>
          Subset(s.waiting[id].channel.result.newState, s.waiting[id].newState))
    && (id in s.returned && s.returned[id].result.Acknowledged? ==>
          Subset(s.returned[id].result.newState, s.returned[id].breakTo))
    && Count(s.log, Parked(id)) == (if id in s.waiting || id in s.returned then 1 else 0)
    && Count(s.log, Parked(id)) == Count(s.log, Left(id)) + if id in s.pending then 1 else 0
  }

  ghost predicate Inv(s: Registry) {
    forall id: nat :: BreakInv(s, id)
  }

  lemma CountAppend(log: seq<Event>, e: Event, f: Event)
    ensures Count(log + [f], e) == Count(log, e) + if e == f then 1 else 0
  {
  }

  lemma TakeOutInv(s: Registry, id: nat, channel: Channel, other: nat)
    requires Inv(s) && id in s.pending && !channel.Open?
    requires channel.Sent? && channel.result.Acknowledged? ==>
               Subset(channel.result.newState, s.pending[id].newState)
    ensures BreakInv(TakeOut(s, id, channel), other)
  {
    hide Subset;
    assert BreakInv(s, id) && BreakInv(s, other);
    CountAppend(s.log, Parked(other), Left(id));
    CountAppend(s.log, Left(other), Left(id));
  }

  lemma ParkInv(s: Registry, id: nat, now: nat, other: nat)
    requires Inv(s)
    ensures BreakInv(Apply(s, Park(id, now)).0, other)
  {
    hide Subset;
    assert BreakInv(s, id) && BreakInv(s, other);
    CountAppend(s.log, Parked(other), Parked(id));
    CountAppend(s.log, Left(other), Parked(id));
  }

  lemma ReturnInv(s: Registry, id: nat, result: BreakResult, other: nat)
    requires Inv(s) && id in s.waiting && !s.waiting[id].channel.Open?
    requires result.Acknowledged? ==> s.waiting[id].channel == Sent(result)
    ensures BreakInv(Return(s, id, result), other)
  {
    hide Subset;
    assert BreakInv(s, id) && BreakInv(s, other);
  }

  lemma GiveUpInv(s: Registry, id: nat, other: nat)
    requires Inv(s)
    ensures BreakInv(Apply(s, GiveUp(id)).0, other)
  {
    hide Subset;
    assert BreakInv(s, id) && BreakInv(s, other);
    CountAppend(s.log, Parked(other), Left(id));
    CountAppend(s.log, Left(other), Left(id));
  }

  lemma RegisterInv(s: Registry, step: Step, other: nat)
    requires Inv(s) && (step.Register? || step.Unregister?)
    ensures BreakInv(Apply(s, step).0, other)
  {
    hide Subset, Count;
    assert BreakInv(s, other);
  }

  lemma BeginInv(s: Registry, target: Target, current: LeaseState, newState: LeaseState, sent: bool, other: nat)
    requires Inv(s)
    ensures BreakInv(Apply(s, Begin(target, current, newState, sent)).0, other)
  {
    hide Subset, AckRequired, Count;
    assert BreakInv(s, other) && BreakInv(s, s.nextBreakId);
  }

  lemma AcknowledgeInv(s: Registry, target: Target, acked: LeaseState, id: nat, other: nat)
    requires Inv(s)
    ensures BreakInv(Apply(s, Acknowledge(target, acked, id)).0, other)
  {
    hide Subset, AckValid, Count, TakeOut;
    assert BreakInv(s, other);
    if id in s.pending && s.pending[id].target == target {
      if AckValid(s.pending[id], acked) {
        AckValidIsSubset(s.pending[id], acked);
        TakeOutInv(s, id, Sent(Acknowledged(acked)), other);
      } else {
        TakeOutInv(s, id, Dropped, other);
      }
    }
  }

  lemma ExpireInv(s: Registry, id: nat, now: nat, other: nat)
    requires Inv(s)
    ensures BreakInv(Apply(s, Expire(id, now)).0, other)
  {
    hide Subset, Count, TakeOut;
    assert BreakInv(s, other);
    if id in s.pending {
      TakeOutInv(s, id, Sent(TimedOut), other);
    }
  }

  lemma WakeInv(s: Registry, id: nat, other: nat)
    requires Inv(s)
    ensures BreakInv(Apply(s, Wake(id)).0, other)
  {
    hide Subset, Count, Return;
    assert BreakInv(s, other);
    if id in s.waiting && s.waiting[id].channel.Sent? {
      ReturnInv(s, id, s.waiting[id].channel.result, other);
    } else if id in s.waiting && s.waiting[id].channel.Dropped? {
      ReturnInv(s, id, Disconnected, other);
    }
  }

  lemma StepInv(s: Registry, step: Step)
    requires Inv(s)
    ensures Inv(Apply(s, step).0)
  {
    hide Apply, BreakInv;
    forall other: nat
      ensures BreakInv(Apply(s, step).0, other)
    {
      match step {
        case Register(_, _) => RegisterInv(s, step, other);
        case Unregister(_) => RegisterInv(s, step, other);
        case Begin(target, current, newState, sent) => BeginInv(s, target, current, newState, sent, other);
        case Park(id, now) => ParkInv(s, id, now, other);
        case Acknowledge(target, acked, id) => AcknowledgeInv(s, target, acked, id, other);
        case Expire(id, now) => ExpireInv(s, id, now, other);
        case Wake(id) => WakeInv(s, id, other);
        case GiveUp(id) => GiveUpInv(s, id, other);
      }
    }
  }

  lemma {:induction false} RunInv(timeout: nat, steps: seq<Step>)
    ensures Inv(Run(timeout, steps))
  {
    hide Subset, Apply;
    if steps == [] {
      InitialInv(timeout);
    } else {
      RunInv(timeout, steps[..|steps| - 1]);
      StepInv(Run(timeout, steps[..|steps| - 1]), steps[|steps| - 1]);
    }
  }

  lemma InitialInv(timeout: nat)
    ensures Inv(InitialRegistry(timeout))
  {
  }

  // ---------- what every run guarantees ----------

  /** The id a new break gets was never used before in the run. */
  lemma BreakIdsAreFresh(timeout: nat, steps: seq<Step>, target: Target, current: LeaseState,
                         newState: LeaseState, sent: bool)
    ensures var s := Run(timeout, steps);
            var (s', reply) := Apply(s, Begin(target, current, newState, sent));
            && s'.nextBreakId >= s.nextBreakId
            && (reply.Started? ==>
                  reply.id !in s.starting && reply.id !in s.pending && reply.id !in s.waiting &&
                  reply.id !in s.returned && Count(s.log, Parked(reply.id)) == 0 &&
                  Count(s.log, Left(reply.id)) == 0 && reply.id < s'.nextBreakId)
  {
    hide Subset, AckRequired, Count;
    RunInv(timeout, steps);
    var s := Run(timeout, steps);
    assert BreakInv(s, s.nextBreakId);
  }

  lemma StepCounter(s: Registry, step: Step)
    ensures Apply(s, step).0.nextBreakId >= s.nextBreakId
  {
    hide AckValid, AckRequired;
  }

  /** The counter never goes back, so an id taken once is never taken again. */
  lemma {:induction false} CounterGrows(timeout: nat, steps: seq<Step>, more: seq<Step>)
    ensures Run(timeout, steps).nextBreakId <= Run(timeout, steps + more).nextBreakId
    decreases |more|
  {
    hide Apply;
    if more == [] {
      assert steps + more == steps;
    } else {
      var all, n := steps + more, |more| - 1;
      assert all[..|all| - 1] == steps + more[..n];
      CounterGrows(timeout, steps, more[..n]);
      StepCounter(Run(timeout, steps + more[..n]), all[|all| - 1]);
    }
  }

  /** A parked break is parked once and leaves the map exactly once. */
  lemma LeavesExactlyOnce(timeout: nat, steps: seq<Step>, id: nat)
    ensures var s := Run(timeout, steps);
            && Count(s.log, Parked(id)) <= 1
            && Count(s.log, Left(id)) == Count(s.log, Parked(id)) - (if id in s.pending then 1 else 0)
            && (id in s.returned ==> Count(s.log, Left(id)) == 1)
  {
    RunInv(timeout, steps);
    assert BreakInv(Run(timeout, steps), id);
  }

  /** An acknowledged result never exceeds the state the break asked for. */
  lemma AcknowledgedWithinBreakTo(timeout: nat, steps: seq<Step>, id: nat)
    requires id in Run(timeout, steps).returned
    ensures var o := Run(timeout, steps).returned[id];
            o.result.Acknowledged? ==> Subset(o.result.newState, o.breakTo)
  {
    RunInv(timeout, steps);
    assert BreakInv(Run(timeout, steps), id);
  }

  // ---------- applying the result to the lease table ----------

  /** The state the server stores for the lease after its break. */
  function FinalState(o: Outcome): LeaseState {
    match o.result
    case Acknowledged(s) => s
    case TimedOut => 0
    case Disconnected => 0
    case NoAckRequired => o.breakTo
  }

  lemma FinalWithinBreakTo(o: Outcome)
    requires o.result.Acknowledged? ==> Subset(o.result.newState, o.breakTo)
    ensures Subset(FinalState(o), o.breakTo)
  {
  }

  /** The result of a break of the run, from its waiter or at once when no acknowledgment is asked for. */
  ghost predicate ResultOf(timeout: nat, steps: seq<Step>, o: Outcome) {
    || (exists id :: id in Run(timeout, steps).returned && Run(timeout, steps).returned[id] == o)
    || (exists target, current, sent ::
          Apply(Run(timeout, steps), Begin(target, current, o.breakTo, sent)).1 == Finished(o.result))
  }

  lemma ResultWithinBreakTo(timeout: nat, steps: seq<Step>, o: Outcome)
    requires ResultOf(timeout, steps, o)
    ensures Subset(FinalState(o), o.breakTo)
  {
    hide Run, Subset;
    if id :| id in Run(timeout, steps).returned && Run(timeout, steps).returned[id] == o {
      AcknowledgedWithinBreakTo(timeout, steps, id);
    }
    FinalWithinBreakTo(o);
  }

  /**
   Storing the result of a break computed by calculate_break_state keeps one writer per file,
   as long as the lease has not been lowered below its old state in the meantime.
   */
  lemma BreakResultKeepsOneWriter(timeout: nat, steps: seq<Step>, o: Outcome, t: Leases.LeaseTable,
                                  lease: Leases.LeaseEntry, oldState: LeaseState, requested: LeaseState)
    requires ResultOf(timeout, steps, o) && o.breakTo == BreakState(oldState, requested)
    requires Leases.OneWriter(t) && lease.leaseKey in t
    requires lease.filePath == t[lease.leaseKey].filePath
    requires Subset(oldState, t[lease.leaseKey].leaseState)
    requires lease.leaseState == FinalState(o)
    ensures Subset(lease.leaseState, oldState)
    ensures Leases.OneWriter(Leases.Store(t, lease))
  {
    hide Subset, BreakState, ResultOf, FinalState, Leases.OneWriter, Leases.Store, Leases.SafeUpdate;
    ResultWithinBreakTo(timeout, steps, o);
    BreakStateFalls(oldState, requested);
    SubsetTransitive(lease.leaseState, o.breakTo, oldState);
    SubsetTransitive(lease.leaseState, oldState, t[lease.leaseKey].leaseState);
    Leases.LoweringIsSafe(t[lease.leaseKey].leaseState, lease.leaseState);
    Leases.SafeUpdateKeepsOneWriter(t, lease);
  }

  // ---------- the registry object ----------

  /**
   LeaseBreakRegistry.  The channels its waiters hold and the history of the run are ghost
   fields; the source keeps oplock breaks in a map of their own, with ids from the same counter.
   */
  class LeaseBreakRegistry {
    var registered: map<Target, LeaseState>
    var pendingBreaks: map<nat, Pending>
    var nextBreakId: nat
    const breakTimeout: nat
    ghost var starting: map<nat, Waiter>
    ghost var waiting: map<nat, Waiter>
    ghost var log: seq<Event>
    ghost var returned: map<nat, Outcome>

    ghost function State(): Registry
      reads this
    {
      Registry(registered, starting, pendingBreaks, waiting, nextBreakId, breakTimeout, log, returned)
    }

    constructor (timeout: nat)
      ensures State() == InitialRegistry(timeout)
    {
      registered, pendingBreaks, nextBreakId, breakTimeout := map[], map[], 1, timeout;
      starting, waiting, log, returned := map[], map[], [], map[];
    }

    method RegisterTarget(target: Target, level: LeaseState)
      modifies this
      ensures State() == Apply(old(State()), Register(target, level)).0
    {
      registered := registered[target := level];
    }

    /** update_oplock_level: a registration of a handle that is registered. */
    method UpdateOplockLevel(handleId: nat, level: LeaseState)
      modifies this
      ensures State() ==
              if OplockTarget(handleId) in old(registered)
              then Apply(old(State()), Register(OplockTarget(handleId), level)).0 else old(State())
    {
      if OplockTarget(handleId) in registered {
        RegisterTarget(OplockTarget(handleId), level);
      }
    }

    method UnregisterTarget(target: Target) returns (removed: bool)
      modifies this
      ensures State() == Apply(old(State()), Unregister(target)).0
      ensures removed <==> target in old(registered)
    {
      removed := target in registered;
      registered := registered - {target};
    }

    /** break_lease and break_oplock up to the point where the waiter parks the break. */
    method BeginBreak(target: Target, current: LeaseState, newState: LeaseState, sent: bool)
      returns (reply: Reply)
      modifies this
      ensures (State(), reply) == Apply(old(State()), Begin(target, current, newState, sent))
    {
      if target !in registered {
        return LeaseNotFound;
      }
      var state := if target.OplockTarget? then registered[target] else current;
      var ackRequired := AckRequired(target, state);
      var id := nextBreakId;
      nextBreakId := nextBreakId + 1;
      if !sent {
        return SendFailed;
      }
      if !ackRequired {
        return Finished(NoAckRequired);
      }
      starting := starting[id := Waiter(target, newState, Open)];
      reply := Started(id);
    }

    method ParkBreak(id: nat, target: Target, newState: LeaseState, now: nat)
      requires id in starting && starting[id].target == target && starting[id].newState == newState
      modifies this
      ensures State() == Apply(old(State()), Park(id, now)).0
    {
      pendingBreaks := pendingBreaks[id := Pending(target, newState, now + breakTimeout)];
      waiting := waiting[id := starting[id]];
      starting := starting - {id};
      log := log + [Parked(id)];
    }

    ghost method Remove(id: nat, channel: Channel)
      modifies this`waiting, this`log
      ensures waiting == TakeOut(old(State()), id, channel).waiting
      ensures log == TakeOut(old(State()), id, channel).log
    {
      if id in waiting {
        waiting := waiting[id := waiting[id].(channel := channel)];
      }
      log := log + [Left(id)];
    }

    /** handle_acknowledgment and handle_oplock_acknowledgment; `id` is the break the search met. */
    method HandleAcknowledgment(target: Target, acked: LeaseState) returns (reply: Reply, ghost id: nat)
      modifies this
      ensures (State(), reply) == Apply(old(State()), Acknowledge(target, acked, id))
      ensures reply == NoPendingBreak <==>
              forall k :: k in old(pendingBreaks) ==> old(pendingBreaks)[k].target != target
    {
      var todo := pendingBreaks.Keys;
      while todo != {}
        invariant todo <= pendingBreaks.Keys
        invariant forall k :: k in pendingBreaks && k !in todo ==> pendingBreaks[k].target != target
        decreases todo
      {
        var k :| k in todo;
        if pendingBreaks[k].target == target {
          var pending := pendingBreaks[k];
          pendingBreaks := pendingBreaks - {k};
          id := k;
          if !AckValid(pending, acked) {
            Remove(k, Dropped);
            return InvalidStateSubset, k;
          }
          Remove(k, Sent(Acknowledged(acked)));
          return AckTaken, k;
        }
        todo := todo - {k};
      }
      id := nextBreakId;
      reply := NoPendingBreak;
    }

    /** One expired break: remove it and tell its waiter. */
    method ExpireBreak(id: nat, now: nat)
      requires id in pendingBreaks && Expired(pendingBreaks[id], now)
      modifies this
      ensures State() == Apply(old(State()), Expire(id, now)).0
      ensures pendingBreaks == old(pendingBreaks) - {id}
    {
      pendingBreaks := pendingBreaks - {id};
      Remove(id, Sent(TimedOut));
    }

    /** process_expired_breaks: the expiry step of every lease break whose deadline has passed. */
    method ProcessExpiredBreaks(now: nat) returns (keys: seq<string>, ghost steps: seq<Step>)
      modifies this
      ensures State() == ApplyAll(old(State()), steps)
      ensures forall i :: 0 <= i < |steps| ==> steps[i].Expire? && steps[i].now == now
      ensures forall k :: k in pendingBreaks <==> k in old(pendingBreaks) && !Expired(old(pendingBreaks)[k], now)
      ensures |keys| == |steps| && forall i :: 0 <= i < |steps| ==>
                steps[i].id in old(pendingBreaks) &&
                old(pendingBreaks)[steps[i].id].target == LeaseTarget(keys[i])
    {
      hide Apply;
      var todo := set k | k in pendingBreaks && Expired(pendingBreaks[k], now);
      keys, steps := [], [];
      while todo != {}
        invariant pendingBreaks.Keys <= old(pendingBreaks).Keys
        invariant forall k :: k in pendingBreaks ==> pendingBreaks[k] == old(pendingBreaks)[k]
        invariant forall k :: k in old(pendingBreaks) && !Expired(old(pendingBreaks)[k], now) ==> k in pendingBreaks
        invariant forall k :: k in todo <==> k in pendingBreaks && Expired(pendingBreaks[k], now)
        invariant State() == ApplyAll(old(State()), steps)
        invariant forall i :: 0 <= i < |steps| ==> steps[i].Expire? && steps[i].now == now
        invariant |keys| == |steps| && forall i :: 0 <= i < |steps| ==>
                    steps[i].id in old(pendingBreaks) &&
                    old(pendingBreaks)[steps[i].id].target == LeaseTarget(keys[i])
        decreases todo
      {
        var k :| k in todo;
        keys := keys + [pendingBreaks[k].target.leaseKey];
        ExpireBreak(k, now);
        todo := todo - {k};
        ghost var before := steps;
        steps := steps + [Expire(k, now)];
        assert steps[..|steps| - 1] == before;
      }
    }

    /** The waiter after its channel was filled or dropped; removing the break again changes nothing. */
    method FinishWait(id: nat, received: Option<BreakResult>) returns (result: BreakResult)
      requires Inv(State()) && id in waiting && !waiting[id].channel.Open?
      requires received == if waiting[id].channel.Sent? then Some(waiting[id].channel.result) else None
      modifies this
      ensures (State(), Finished(result)) == Apply(old(State()), Wake(id))
    {
      assert BreakInv(State(), id);
      assert pendingBreaks - {id} == pendingBreaks;
      pendingBreaks := pendingBreaks - {id};
      result := if received.Some? then received.value else Disconnected;
      returned := returned[id := Outcome(waiting[id].newState, result)];
      waiting := waiting - {id};
    }

    /** The waiter whose timer fires: it takes the break out itself. */
    method GiveUpWaiting(id: nat) returns (result: BreakResult)
      requires id in waiting && waiting[id].channel.Open?
      modifies this
      ensures (State(), Finished(result)) == Apply(old(State()), GiveUp(id))
    {
      pendingBreaks := pendingBreaks - {id};
      result := TimedOut;
      log := log + [Left(id)];
      returned := returned[id := Outcome(waiting[id].newState, TimedOut)];
      waiting := waiting - {id};
      assert waiting == TakeOut(old(State()), id, Open).waiting - {id};
    }
  }
}
