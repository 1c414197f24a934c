/**
 What the steps of the lease protocol and its answers come to: which conflicts are broken, what
 a break or an acknowledgment leaves in the table, and whom an answer is for.
 */
module LeaseEffects {
  import opened Core
  import opened LeaseStates
  import opened Leases
  import B = LeaseBreaks
  import P = LeaseProtocol
  import A = LeaseAnswers

  function Find(t: LeaseTable, k: string): Option<LeaseEntry> {
    if k in t then Some(t[k]) else None
  }

  // ---------- which conflicts are broken ----------

  /** A conflict is broken once for each time it is listed, if it is the server's own and its state changes. */
  lemma {:induction false} BrokenExactly(conflicts: seq<LeaseEntry>, server: string, requested: LeaseState,
                                         c: LeaseEntry, r: LeaseState)
    ensures P.Breaks(conflicts, server, requested)[(c, r)] ==
            if r == requested && c.serverId == server && BreakState(c.leaseState, requested) != c.leaseState
            then multiset(conflicts)[c] else 0
  {
    hide BreakState;
    if conflicts != [] {
      var n := |conflicts| - 1;
      BrokenExactly(conflicts[..n], server, requested, c, r);
      assert conflicts == conflicts[..n] + [conflicts[n]];
    }
  }

  /**
   A creation gives its handler something to break exactly for the other leases on the file that
   conflict with the request, belong to the same server and would not keep their state.
   */
  lemma CreationBreaks(s: P.Server, existing: seq<LeaseEntry>, lease: LeaseEntry, requested: LeaseState, c: LeaseEntry)
    requires Enumerates(existing, s.leases, lease.filePath, Some(lease.leaseKey))
    ensures var s' := P.Step(s, P.Create(existing, lease, requested));
            s'.toBreak[(c, requested)] > s.toBreak[(c, requested)] <==>
            && c.serverId == lease.serverId && Conflict(c.leaseState, requested)
            && BreakState(c.leaseState, requested) != c.leaseState
            && exists k :: k in s.leases && s.leases[k].filePath == lease.filePath &&
                           Some(k) != Some(lease.leaseKey) && s.leases[k] == c
  {
    hide Enumerates, ConflictList, P.Breaks, Conflict, BreakState, Granted;
    var conflicts := ConflictList(existing, requested);
    BrokenExactly(conflicts, lease.serverId, requested, c, requested);
    ConflictsOfFile(existing, s.leases, lease.filePath, Some(lease.leaseKey), requested, c);
    assert c in conflicts <==> multiset(conflicts)[c] > 0;
  }

  /**
   A reported conflict is taken up once: its break is begun for the calculated state, it is under
   way under the new id if the registry waits for an acknowledgment, and done otherwise.
   */
  lemma TakenUpOnce(s: P.Server, c: LeaseEntry, requested: LeaseState, sent: bool)
    ensures var to := BreakState(c.leaseState, requested);
            var (r, reply) := B.Apply(s.registry, B.Begin(B.LeaseTarget(c.leaseKey), c.leaseState, to, sent));
            var s' := P.Step(s, P.BeginBreak(c, requested, sent));
            if (c, requested) !in s.toBreak then s' == s
            else
              && s'.toBreak == s.toBreak - multiset{(c, requested)} && s'.registry == r
              && s'.breaking == (if reply.Started? then s.breaking[reply.id := c] else s.breaking)
              && s'.staged == s.staged + (if reply == B.Finished(B.NoAckRequired) then multiset{Lowered(c, to)} else multiset{})
              && s'.leases == s.leases && s'.acks == s.acks
  {
    hide B.Apply, BreakState, Lowered, P.Broken, B.FinalState;
    if (c, requested) in s.toBreak {
      StagedAtOnce(s, c, requested, sent);
    }
  }

  lemma StagedAtOnce(s: P.Server, c: LeaseEntry, requested: LeaseState, sent: bool)
    requires (c, requested) in s.toBreak
    ensures var to := BreakState(c.leaseState, requested);
            var reply := B.Apply(s.registry, B.Begin(B.LeaseTarget(c.leaseKey), c.leaseState, to, sent)).1;
            P.Step(s, P.BeginBreak(c, requested, sent)).staged ==
            s.staged + if reply == B.Finished(B.NoAckRequired) then multiset{Lowered(c, to)} else multiset{}
  {
    hide B.Apply, BreakState, Lowered, P.Broken, B.FinalState;
    var to := BreakState(c.leaseState, requested);
    BeginReplies(s.registry, c, to, sent);
    BrokenIsLowered(c, to);
    NothingToWaitFor(to);
    assert s.staged + multiset{} == s.staged;
  }

  lemma NothingToWaitFor(to: LeaseState)
    ensures B.FinalState(B.Outcome(to, B.NoAckRequired)) == to
  {
  }

  lemma BeginReplies(r: B.Registry, c: LeaseEntry, to: LeaseState, sent: bool)
    ensures var reply := B.Apply(r, B.Begin(B.LeaseTarget(c.leaseKey), c.leaseState, to, sent)).1;
            reply.Finished? ==> reply.result == B.NoAckRequired
  {
    hide B.AckRequired, B.CurrentState;
  }

  /** What the registry sees of a run of the protocol. */
  ghost function RegistrySteps(timeout: nat, actions: seq<P.Action>): seq<B.Step> {
    if actions == [] then []
    else
      var before, a := actions[..|actions| - 1], actions[|actions| - 1];
      RegistrySteps(timeout, before) +
      match a
      case Registry(step) => if step.Begin? && step.target.LeaseTarget? then [] else [step]
      case BeginBreak(c, requested, sent) =>
        if (c, requested) in P.Run(timeout, before).toBreak
        then [B.Begin(B.LeaseTarget(c.leaseKey), c.leaseState, BreakState(c.leaseState, requested), sent)] else []
      case _ => []
  }

  /** So every result about runs of the registry holds of the registry of the protocol. */
  lemma {:induction false} RegistryRuns(timeout: nat, actions: seq<P.Action>)
    ensures P.Run(timeout, actions).registry == B.Run(timeout, RegistrySteps(timeout, actions))
  {
    hide B.Apply, BreakState, Lowered, Enumerates, P.CreateStep, P.BeginStep, P.RegistryStep;
    if actions != [] {
      var before, a := actions[..|actions| - 1], actions[|actions| - 1];
      RegistryRuns(timeout, before);
      var s, steps := P.Run(timeout, before), RegistrySteps(timeout, before);
      match a {
        case Registry(step) =>
          FollowsRegistry(s, step);
          assert (steps + [step])[..|steps|] == steps;
        case BeginBreak(c, requested, sent) =>
          TakenUpOnce(s, c, requested, sent);
          var step := B.Begin(B.LeaseTarget(c.leaseKey), c.leaseState, BreakState(c.leaseState, requested), sent);
          assert (steps + [step])[..|steps|] == steps;
        case Create(existing, lease, requested) => CreationKeepsRegistry(s, existing, lease, requested);
        case _ =>
      }
      assert steps + [] == steps;
    }
  }

  lemma FollowsRegistry(s: P.Server, step: B.Step)
    ensures P.Step(s, P.Registry(step)).registry ==
            if step.Begin? && step.target.LeaseTarget? then s.registry else B.Apply(s.registry, step).0
  {
    hide B.Apply;
  }

  lemma CreationKeepsRegistry(s: P.Server, existing: seq<LeaseEntry>, lease: LeaseEntry, requested: LeaseState)
    ensures P.Step(s, P.Create(existing, lease, requested)).registry == s.registry
  {
  }

  // ---------- what is stored ----------

  /** The reported lease with another state and the next 16-bit epoch. */
  function Lowered(c: LeaseEntry, state: LeaseState): LeaseEntry {
    LeaseEntry(c.leaseKey, c.serverId, c.filePath, state, if c.epoch % 0x1_0000 == 0xFFFF then 0 else c.epoch % 0x1_0000 + 1)
  }

  lemma BrokenIsLowered(c: LeaseEntry, state: LeaseState)
    ensures P.Broken(c, state) == Lowered(c, state)
  {
  }

  /** What a break leaves of the lease: the acknowledged state, or nothing without an answer. */
  function Remaining(o: B.Outcome): LeaseState {
    if o.result.Acknowledged? then o.result.newState
    else if o.result == B.NoAckRequired then o.breakTo
    else 0
  }

  lemma FinalIsRemaining(o: B.Outcome)
    ensures B.FinalState(o) == Remaining(o)
  {
  }

  /** A staged entry is stored under its key, once, and touches no other lease. */
  lemma StoredOnce(s: P.Server, e: LeaseEntry, k: string)
    requires e in s.staged
    ensures var s' := P.Step(s, P.StoreEntry(e));
            && Find(s'.leases, k) == (if k == e.leaseKey then Some(e) else Find(s.leases, k))
            && s'.staged == s.staged - multiset{e} && s'.acks == s.acks && s'.registry == s.registry
            && s'.toBreak == s.toBreak && s'.breaking == s.breaking
    ensures e !in (s.staged - multiset{e}) ==> P.Step(P.Step(s, P.StoreEntry(e)), P.StoreEntry(e)) == P.Step(s, P.StoreEntry(e))
  {
  }

  /**
   When the waiter of a break goes on, its handler stores what the result leaves: the reported
   lease with that state and the next epoch, and nothing else changes in the table.
   */
  lemma BreakResultStored(s: P.Server, step: B.Step, k: string)
    requires P.Returns(s, step)
    ensures var c, o := s.breaking[step.id], B.Apply(s.registry, step).0.returned[step.id];
            var e := Lowered(c, Remaining(o));
            var s1 := P.Step(s, P.Registry(step));
            var s2 := P.Step(s1, P.StoreEntry(e));
            && s1.leases == s.leases && s1.staged == s.staged + multiset{e}
            && step.id !in s1.breaking
            && s2.staged == s.staged
            && Find(s2.leases, k) == (if k == c.leaseKey then Some(e) else Find(s.leases, k))
  {
    hide B.Apply, Lowered, P.Broken, Remaining, B.FinalState;
    var o := B.Apply(s.registry, step).0.returned[step.id];
    FinalIsRemaining(o);
    BrokenIsLowered(s.breaking[step.id], Remaining(o));
    var e := Lowered(s.breaking[step.id], Remaining(o));
    SameKey(s.breaking[step.id], Remaining(o));
    var s1 := P.Step(s, P.Registry(step));
    assert s.staged + multiset{e} - multiset{e} == s.staged;
    StoredOnce(s1, e, k);
  }

  lemma SameKey(c: LeaseEntry, state: LeaseState)
    ensures Lowered(c, state).leaseKey == c.leaseKey && Lowered(c, state).leaseState == state
  {
  }

  /**
   In every run, an acknowledgment that was taken for a lease in the table ends up there: the
   lease has the acknowledged state and the next epoch, and no other lease changes.  For a lease
   that is gone nothing is stored.
   */
  lemma AcknowledgmentStored(timeout: nat, actions: seq<P.Action>, key: string, acked: LeaseState, id: nat, k: string)
    requires B.Apply(P.Run(timeout, actions).registry, B.Acknowledge(B.LeaseTarget(key), acked, id)).1.AckTaken?
    ensures var s := P.Run(timeout, actions);
            var s1 := P.Step(s, P.Registry(B.Acknowledge(B.LeaseTarget(key), acked, id)));
            var s2 := P.Step(s1, P.ReadForAck(key, acked));
            && s1.leases == s.leases && s2.leases == s.leases && s2.acks == s.acks
            && (key !in s.leases ==> s2.staged == s.staged)
            && (key in s.leases ==>
                  var e := Lowered(s.leases[key], acked);
                  var s3 := P.Step(s2, P.StoreEntry(e));
                  && s3.staged == s.staged
                  && Find(s3.leases, k) == (if k == key then Some(e) else Find(s.leases, k)))
  {
    hide P.Step, P.Run, B.Apply, Lowered, Find;
    var s := P.Run(timeout, actions);
    KeysOfRun(timeout, actions);
    AckTaken(s, key, acked, id);
    var s1 := P.Step(s, P.Registry(B.Acknowledge(B.LeaseTarget(key), acked, id)));
    AckRead(s1, key, acked);
    assert s.acks + multiset{(key, acked)} - multiset{(key, acked)} == s.acks;
    if key in s.leases {
      var e := Lowered(s.leases[key], acked);
      SameKey(s.leases[key], acked);
      assert s.staged + multiset{e} - multiset{e} == s.staged;
      var s2 := P.Step(s1, P.ReadForAck(key, acked));
      StoredOnce(s2, e, k);
      SameTable(s2.leases, s.leases, k);
    }
  }

  lemma SameTable(t: LeaseTable, u: LeaseTable, k: string)
    requires t == u
    ensures Find(t, k) == Find(u, k)
  {
  }

  lemma AckTaken(s: P.Server, key: string, acked: LeaseState, id: nat)
    requires B.Apply(s.registry, B.Acknowledge(B.LeaseTarget(key), acked, id)).1.AckTaken?
    ensures var s1 := P.Step(s, P.Registry(B.Acknowledge(B.LeaseTarget(key), acked, id)));
            s1.leases == s.leases && s1.acks == s.acks + multiset{(key, acked)} && s1.staged == s.staged
  {
    hide B.Apply;
  }

  lemma AckRead(s: P.Server, key: string, acked: LeaseState)
    requires (key, acked) in s.acks
    ensures var s1 := P.Step(s, P.ReadForAck(key, acked));
            && s1.leases == s.leases && s1.acks == s.acks - multiset{(key, acked)}
            && s1.staged == if key in s.leases then s.staged + multiset{Lowered(s.leases[key], acked)} else s.staged
  {
    hide Lowered, P.Broken;
    if key in s.leases {
      BrokenIsLowered(s.leases[key], acked);
    }
  }

  lemma KeysOfRun(timeout: nat, actions: seq<P.Action>)
    ensures forall k :: k in P.Run(timeout, actions).leases ==> P.Run(timeout, actions).leases[k].leaseKey == k
  {
    P.RunInv(timeout, actions);
  }

  /** Deletions take exactly the key, or exactly the server's leases, out of the table, and nothing else. */
  lemma DeletionsReach(s: P.Server, key: string, server: string, k: string)
    ensures Find(P.Step(s, P.DeleteKey(key)).leases, k) == if k == key then None else Find(s.leases, k)
    ensures Find(P.Step(s, P.DeleteServer(server)).leases, k) ==
            if k in s.leases && s.leases[k].serverId == server then None else Find(s.leases, k)
    ensures P.Step(s, P.DeleteKey(key)) == s.(leases := P.Step(s, P.DeleteKey(key)).leases)
    ensures P.Step(s, P.DeleteServer(server)) == s.(leases := P.Step(s, P.DeleteServer(server)).leases)
  {
    DeletedKey(s.leases, key, k);
    DeletedServer(s.leases, server, k);
  }

  // ---------- the answers ----------

  /**
   The second look is stricter than the conflict rule in two cases: a request with write caching
   beside any other lease, and a request for nothing beside a writer.
   */
  lemma SecondLookExactly(existing: seq<LeaseEntry>, requested: LeaseState)
    ensures A.NothingConflicts(existing, requested) <==>
            && Compatible(existing, requested)
            && !(HasWrite(requested) && existing != [])
            && !(requested == 0 && AnyWrite(existing))
  {
    hide HasWrite;
    SubsetBounds(requested);
    if A.NothingConflicts(existing, requested) && existing != [] {
      assert !HasWrite(requested) by { assert !HasWrite(existing[0].leaseState); }
    }
  }

  /** A creation is looked at again exactly when it met a conflict on its own server, and once. */
  lemma LookedAtAgain(s: A.Answering, existing: seq<LeaseEntry>, lease: LeaseEntry, requested: LeaseState)
    requires Enumerates(existing, s.server.leases, lease.filePath, Some(lease.leaseKey))
    ensures var s1 := A.Step(s, A.Serve(P.Create(existing, lease, requested)));
            && s1.asked[(lease, requested)] ==
               s.asked[(lease, requested)] +
               (if exists k :: k in s.server.leases && s.server.leases[k].filePath == lease.filePath &&
                               k != lease.leaseKey && s.server.leases[k].serverId == lease.serverId &&
                               Conflict(s.server.leases[k].leaseState, requested)
                then 1 else 0)
            && s1.told == s.told[lease.leaseKey := Granted(existing, requested)]
    ensures forall again: seq<LeaseEntry> ::
              A.Step(s, A.Recheck(lease, requested, again)).asked == s.asked - multiset{(lease, requested)}
  {
    hide Conflict, Granted;
    if i :| 0 <= i < |existing| && existing[i].serverId == lease.serverId &&
            Conflict(existing[i].leaseState, requested) {
      ListedInTable(existing, s.server.leases, lease.filePath, Some(lease.leaseKey), i);
    }
    if k :| k in s.server.leases && s.server.leases[k].filePath == lease.filePath && k != lease.leaseKey &&
            s.server.leases[k].serverId == lease.serverId && Conflict(s.server.leases[k].leaseState, requested) {
      EnumeratedIndex(existing, s.server.leases, lease.filePath, Some(lease.leaseKey), k);
    }
  }

  /** The client an action can tell something new; the deletion of a server's leases can tell many. */
  function About(a: A.Action): Option<string> {
    match a
    case Recheck(lease, _, _) => Some(lease.leaseKey)
    case Serve(Create(_, lease, _)) => Some(lease.leaseKey)
    case Serve(DeleteKey(key)) => Some(key)
    case Serve(StoreEntry(e)) => Some(e.leaseKey)
    case Serve(_) => None
  }

  /** What a client was told changes only by actions about its own lease, or with its server. */
  lemma OthersAreNotTold(s: A.Answering, a: A.Action, k: string)
    requires About(a) != Some(k)
    ensures var s' := A.Step(s, a);
            if a.Serve? && a.action.DeleteServer? then
              && (k in s'.told <==> k in s.told && k in s.server.leases &&
                                    s.server.leases[k].serverId != a.action.serverId)
              && (k in s'.told ==> s'.told[k] == s.told[k])
            else (k in s'.told <==> k in s.told) && (k in s.told ==> s'.told[k] == s.told[k])
  {
    hide Enumerates, Granted, P.CreateStep, P.BeginStep, P.RegistryStep, A.AskedAfter;
    if a.Serve? && a.action.DeleteServer? {
      DeletionsReach(s.server, "", a.action.serverId, k);
    }
  }
}
