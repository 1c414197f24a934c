/** How a pending break ends: when the expiry scan takes it, and what its waiter is told. */
module LeaseBreakResults {
  import opened Core
  import opened LeaseStates
  import opened LeaseBreaks

  /** The break has been parked and is no longer in the map. */
  predicate Over(s: Registry, id: nat) {
    id < s.nextBreakId && id !in s.starting && id !in s.pending
  }

  lemma {:induction false} ApplyAllInv(s: Registry, steps: seq<Step>)
    requires Inv(s)
    ensures Inv(ApplyAll(s, steps)) && ApplyAll(s, steps).timeout == s.timeout
  {
    hide Inv, Apply;
    if steps != [] {
      var n := |steps| - 1;
      ApplyAllInv(s, steps[..n]);
      StepInv(ApplyAll(s, steps[..n]), steps[n]);
      TimeoutStays(ApplyAll(s, steps[..n]), steps[n]);
    }
  }

  lemma TimeoutStays(s: Registry, step: Step)
    ensures Apply(s, step).0.timeout == s.timeout
  {
  }

  lemma {:induction false} ApplyAllConcat(s: Registry, a: seq<Step>, b: seq<Step>)
    ensures ApplyAll(s, a + b) == ApplyAll(ApplyAll(s, a), b)
    decreases |b|
  {
    hide Apply;
    if b == [] {
      assert a + b == a;
    } else {
      var n := |b| - 1;
      assert (a + b)[..|a + b| - 1] == a + b[..n];
      ApplyAllConcat(s, a, b[..n]);
    }
  }

  // ---------- the start ----------

  /** The level a target was last registered with, unless it has been unregistered since. */
  function LevelOf(steps: seq<Step>, target: Target): Option<LeaseState> {
    if steps == [] then None
    else
      var last := steps[|steps| - 1];
      if last.Register? && last.target == target then Some(last.level)
      else if last.Unregister? && last.target == target then None
      else LevelOf(steps[..|steps| - 1], target)
  }

  lemma {:induction false} RegisteredLevel(timeout: nat, steps: seq<Step>, target: Target)
    ensures target in Run(timeout, steps).registered <==> LevelOf(steps, target).Some?
    ensures target in Run(timeout, steps).registered ==>
              Run(timeout, steps).registered[target] == LevelOf(steps, target).value
  {
    if steps != [] {
      RegisteredLevel(timeout, steps[..|steps| - 1], target);
      RegistrationStep(Run(timeout, steps[..|steps| - 1]), steps[|steps| - 1], target);
    }
  }

  lemma RegistrationStep(s: Registry, step: Step, target: Target)
    ensures var s' := Apply(s, step).0;
            && (target in s'.registered <==>
                  (step.Register? && step.target == target) ||
                  (target in s.registered && !(step.Unregister? && step.target == target)))
            && (target in s'.registered ==>
                  s'.registered[target] == if step.Register? && step.target == target then step.level
                                           else s.registered[target])
  {
  }

  /**
   In every run a break starts exactly for a target that is registered, if the notification was
   sent and an acknowledgment is due: for a lease with more than read caching as the caller knows
   it, for an oplock registered as exclusive (8) or batch (9).
   */
  lemma BreakStarts(timeout: nat, steps: seq<Step>, target: Target, current: LeaseState, newState: LeaseState,
                    sent: bool)
    ensures var s := Run(timeout, steps);
            var (s', reply) := Apply(s, Begin(target, current, newState, sent));
            && reply == (match LevelOf(steps, target)
                         case None => LeaseNotFound
                         case Some(level) =>
                           if !sent then SendFailed
                           else if (if target.LeaseTarget? then current == 1 else level != 8 && level != 9)
                           then Finished(NoAckRequired)
                           else Started(s.nextBreakId))
            && s'.nextBreakId == (if reply == LeaseNotFound then s.nextBreakId else s.nextBreakId + 1)
            && s'.starting == (if reply.Started? then s.starting[s.nextBreakId := Waiter(target, newState, Open)]
                               else s.starting)
            && s'.pending == s.pending && s'.waiting == s.waiting && s'.registered == s.registered
  {
    hide Run;
    RegisteredLevel(timeout, steps, target);
  }

  /** The break is sent, waited for, or its waiter has returned. */
  predicate Known(s: Registry, id: nat) {
    id in s.starting || id in s.waiting || id in s.returned
  }

  lemma KnownStays(s: Registry, step: Step, id: nat)
    requires Known(s, id)
    ensures Known(Apply(s, step).0, id)
  {
    hide AckValid, AckRequired, CurrentState, Expired;
  }

  lemma {:induction false} KnownAlong(s: Registry, steps: seq<Step>, id: nat)
    requires Known(s, id)
    ensures Known(ApplyAll(s, steps), id)
  {
    hide Known, Apply;
    if steps != [] {
      var n := |steps| - 1;
      KnownAlong(s, steps[..n], id);
      KnownStays(ApplyAll(s, steps[..n]), steps[n], id);
    }
  }

  /** No break that was started is ever lost, however the run goes on. */
  lemma NoBreakIsLost(timeout: nat, steps: seq<Step>, begin: Step, more: seq<Step>)
    requires begin.Begin? && Apply(Run(timeout, steps), begin).1.Started?
    ensures Known(Run(timeout, steps + [begin] + more), Apply(Run(timeout, steps), begin).1.id)
  {
    var s := Run(timeout, steps);
    var id := Apply(s, begin).1.id;
    assert Known(Apply(s, begin).0, id);
    assert (steps + [begin])[..|steps|] == steps;
    ApplyAllConcat(InitialRegistry(timeout), steps + [begin], more);
    KnownAlong(Apply(s, begin).0, more, id);
  }

  // ---------- the deadline ----------

  /** A step leaves a pending break as it is or takes it out for good. */
  lemma PendingStep(s: Registry, step: Step, id: nat)
    requires Inv(s) && id in s.pending
    ensures var s' := Apply(s, step).0;
            (id in s'.pending && s'.pending[id] == s.pending[id]) || Over(s', id)
  {
    hide AckValid, AckRequired, CurrentState, Expired;
    assert BreakInv(s, id) && BreakInv(s, s.nextBreakId);
    if step.Park? {
      assert BreakInv(s, step.id);
    }
  }

  /**
   Exactly which steps take a pending break out: any acknowledgment for it, allowed or not, a
   scan after its deadline if it is a lease break, and its waiter giving up.
   */
  lemma TakenOutExactly(s: Registry, step: Step, id: nat)
    requires Inv(s) && id in s.pending
    ensures id !in Apply(s, step).0.pending <==>
            match step
            case Acknowledge(target, _, k) => k == id && target == s.pending[id].target
            case Expire(k, now) => k == id && s.pending[id].target.LeaseTarget? && s.pending[id].deadline <= now
            case GiveUp(k) => k == id
            case _ => false
  {
    hide AckValid;
    assert BreakInv(s, id) && BreakInv(s, s.nextBreakId);
  }

  lemma OverStaysOver(s: Registry, step: Step, id: nat)
    requires Inv(s) && Over(s, id)
    ensures Over(Apply(s, step).0, id)
  {
    hide AckValid, AckRequired, CurrentState, Expired;
    assert BreakInv(s, id) && BreakInv(s, s.nextBreakId);
  }

  lemma {:induction false} PendingAlong(s: Registry, steps: seq<Step>, id: nat)
    requires Inv(s) && id in s.pending
    ensures var s' := ApplyAll(s, steps);
            (id in s'.pending && s'.pending[id] == s.pending[id]) || Over(s', id)
  {
    hide Inv, Apply, Over;
    if steps != [] {
      var n := |steps| - 1;
      PendingAlong(s, steps[..n], id);
      ApplyAllInv(s, steps[..n]);
      var s1 := ApplyAll(s, steps[..n]);
      if Over(s1, id) {
        OverStaysOver(s1, steps[n], id);
      } else {
        PendingStep(s1, steps[n], id);
      }
    }
  }

  /**
   In every run, a break parked at time `t` that is still pending is taken by a scan at `now`
   exactly when it is a lease break and t plus the timeout has been reached.
   */
  lemma ScanIsOnTime(timeout: nat, steps: seq<Step>, id: nat, t: nat, more: seq<Step>, now: nat)
    requires id in Run(timeout, steps).starting
    requires id in Run(timeout, steps + [Park(id, t)] + more).pending
    ensures var s := Run(timeout, steps + [Park(id, t)] + more);
            id !in Apply(s, Expire(id, now)).0.pending <==>
            Run(timeout, steps).starting[id].target.LeaseTarget? && t + timeout <= now
  {
    var s0 := Run(timeout, steps);
    var s1 := Apply(s0, Park(id, t)).0;
    RunInv(timeout, steps);
    ApplyAllInv(InitialRegistry(timeout), steps) by { InitialInv(timeout); }
    StepInv(s0, Park(id, t));
    assert (steps + [Park(id, t)])[..|steps|] == steps;
    ApplyAllConcat(InitialRegistry(timeout), steps + [Park(id, t)], more);
    PendingAlong(s1, more, id);
  }

  // ---------- the waiter ----------

  /** What the waiter of a break is to learn when this step takes the break out. */
  function Verdict(p: Pending, step: Step): BreakResult {
    match step
    case Acknowledge(_, acked, _) =>
      if (if p.target.LeaseTarget? then Subset(acked, p.newState) else acked == p.newState || acked == 0)
      then Acknowledged(acked) else Disconnected
    case _ => TimedOut
  }

  /** The waiter has the result, or it is in its channel; a dropped channel reads as a lost connection. */
  predicate Tells(s: Registry, id: nat, result: BreakResult) {
    || (id in s.returned && id !in s.waiting && s.returned[id].result == result)
    || (id in s.waiting && id !in s.returned && s.waiting[id].channel == Sent(result))
    || (id in s.waiting && id !in s.returned && s.waiting[id].channel == Dropped && result == Disconnected)
  }

  lemma VerdictIsTheCheck(p: Pending, target: Target, acked: LeaseState, id: nat)
    ensures Verdict(p, Acknowledge(target, acked, id)) == if AckValid(p, acked) then Acknowledged(acked) else Disconnected
  {
    hide Subset, AckValid;
    AckAllowed(p, acked);
  }

  /** Which states an acknowledgment may name. */
  lemma AckAllowed(p: Pending, acked: LeaseState)
    ensures p.target.LeaseTarget? ==> (AckValid(p, acked) <==> Subset(acked, p.newState))
    ensures p.target.OplockTarget? ==> (AckValid(p, acked) <==> acked == p.newState || acked == 0)
  {
    hide Subset;
    if p.target.LeaseTarget? {
      SubsetMeans(acked, p.newState);
    }
  }

  lemma SubsetMeans(a: LeaseState, b: LeaseState)
    ensures Subset(a, b) <==> a & !b == 0
  {
  }

  /** The client is told whether its acknowledgment was allowed, or that no break waits for one. */
  lemma AcknowledgmentReply(s: Registry, target: Target, acked: LeaseState, id: nat)
    ensures Apply(s, Acknowledge(target, acked, id)).1 ==
            if id !in s.pending || s.pending[id].target != target then NoPendingBreak
            else if Verdict(s.pending[id], Acknowledge(target, acked, id)) == Acknowledged(acked) then AckTaken
            else InvalidStateSubset
    ensures Apply(s, Acknowledge(target, acked, id)).1 == NoPendingBreak ==>
              Apply(s, Acknowledge(target, acked, id)).0 == s
  {
    hide Verdict, AckValid;
    if id in s.pending {
      VerdictIsTheCheck(s.pending[id], target, acked, id);
    }
  }

  lemma TakenOutTells(s: Registry, step: Step, id: nat)
    requires Inv(s) && id in s.pending && id !in Apply(s, step).0.pending
    ensures Tells(Apply(s, step).0, id, Verdict(s.pending[id], step))
  {
    hide Verdict, AckValid, AckRequired, CurrentState, Expired;
    assert BreakInv(s, id);
    match step {
      case Acknowledge(target, acked, _) => VerdictIsTheCheck(s.pending[id], target, acked, step.id);
      case Expire(_, _) => TimeoutVerdict(s.pending[id], step);
      case GiveUp(_) => TimeoutVerdict(s.pending[id], step);
      case _ =>
    }
  }

  lemma TimeoutVerdict(p: Pending, step: Step)
    requires !step.Acknowledge?
    ensures Verdict(p, step) == TimedOut
  {
  }

  /** A waiter that is told returns what it is told. */
  lemma WakeTells(s: Registry, id: nat, result: BreakResult)
    requires Tells(s, id, result)
    ensures id in s.returned || id in s.waiting
    ensures id in s.returned ==> s.returned[id].result == result
    ensures id in s.waiting ==> Apply(s, Wake(id)).1 == Finished(result)
  {
  }

  /** No step but its own wake touches the waiter of a break that is over. */
  lemma OthersDoNotTouch(s: Registry, step: Step, id: nat)
    requires id !in s.starting && id !in s.pending && (id in s.waiting ==> !s.waiting[id].channel.Open?)
    requires !(step.Wake? && step.id == id)
    ensures var s' := Apply(s, step).0;
            && (id in s'.waiting <==> id in s.waiting) && (id in s.waiting ==> s'.waiting[id] == s.waiting[id])
            && (id in s'.returned <==> id in s.returned) && (id in s.returned ==> s'.returned[id] == s.returned[id])
  {
    hide AckValid, AckRequired, CurrentState, Expired;
    if step.Wake? || step.GiveUp? {
      OthersReturn(s, step, id);
    }
  }

  lemma OthersReturn(s: Registry, step: Step, id: nat)
    requires step.Wake? || step.GiveUp?
    requires step.id != id || (step.GiveUp? && (id in s.waiting ==> !s.waiting[id].channel.Open?))
    ensures var s' := Apply(s, step).0;
            && (id in s'.waiting <==> id in s.waiting) && (id in s.waiting ==> s'.waiting[id] == s.waiting[id])
            && (id in s'.returned <==> id in s.returned) && (id in s.returned ==> s'.returned[id] == s.returned[id])
  {
  }

  lemma TellsOn(s: Registry, step: Step, id: nat, result: BreakResult)
    requires Inv(s) && Over(s, id) && Tells(s, id, result)
    ensures Tells(Apply(s, step).0, id, result)
  {
    if !(step.Wake? && step.id == id) {
      hide Apply;
      OthersDoNotTouch(s, step, id);
    }
  }

  lemma {:induction false} TellsAlong(s: Registry, steps: seq<Step>, id: nat, result: BreakResult)
    requires Inv(s) && Over(s, id) && Tells(s, id, result)
    ensures var s' := ApplyAll(s, steps); Over(s', id) && Tells(s', id, result)
  {
    hide Inv, Apply, Over, Tells;
    if steps != [] {
      var n := |steps| - 1;
      TellsAlong(s, steps[..n], id, result);
      ApplyAllInv(s, steps[..n]);
      var s1 := ApplyAll(s, steps[..n]);
      OverStaysOver(s1, steps[n], id);
      TellsOn(s1, steps[n], id, result);
    }
  }

  /**
   However a run goes on after a break was taken out, its waiter returns with the result of the
   step that took it: the acknowledged state if that was allowed, a lost connection if it was
   not, a timeout if the scan or the waiter's own timer was first.
   */
  lemma WaiterLearnsHowItEnded(timeout: nat, steps: seq<Step>, step: Step, id: nat, more: seq<Step>)
    requires id in Run(timeout, steps).pending && id !in Apply(Run(timeout, steps), step).0.pending
    ensures var s := Run(timeout, steps + [step] + more);
            && (id in s.returned ==> s.returned[id].result == Verdict(Run(timeout, steps).pending[id], step))
            && (id in s.waiting ==> Apply(s, Wake(id)).1 == Finished(Verdict(Run(timeout, steps).pending[id], step)))
            && (id in s.returned || id in s.waiting)
  {
    hide Inv, Apply, Over, Tells, Verdict;
    var s0 := Run(timeout, steps);
    var s1 := Apply(s0, step).0;
    RunInv(timeout, steps);
    StepInv(s0, step);
    PendingStep(s0, step, id);
    TakenOutTells(s0, step, id);
    assert (steps + [step])[..|steps|] == steps;
    ApplyAllConcat(InitialRegistry(timeout), steps + [step], more);
    TellsAlong(s1, more, id, Verdict(s0.pending[id], step));
    WakeTells(ApplyAll(s1, more), id, Verdict(s0.pending[id], step));
  }
}
