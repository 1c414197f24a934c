/** A client connection: its sessions, its state, and the tracker and credits it owns. */
module Connection {
  import opened Core
  import A = AsyncRequests
  import Credits

  datatype ConnectionState = AwaitingNegotiate | Negotiated | SessionActive | Disconnecting

  datatype Conn = Conn(state: ConnectionState, sessionIds: set<nat>, tracker: A.Tracker, maxSessions: nat)

  datatype Op =
    | Negotiate
    | MarkActive
    | Disconnect
    | AddSession(sessionId: nat)
    /** `ids` is the order in which the tracker listed the session's requests. */
    | RemoveSession(sessionId: nat, ids: seq<nat>)
    | Track(op: A.Op)

  function Step(c: Conn, op: Op): Conn {
    match op
    case Negotiate => c.(state := Negotiated)
    case MarkActive => c.(state := SessionActive)
    case Disconnect => c.(state := Disconnecting)
    case AddSession(id) =>
      if |c.sessionIds| >= c.maxSessions then c
      else c.(sessionIds := c.sessionIds + {id}, state := if c.state.Negotiated? then SessionActive else c.state)
    case RemoveSession(id, ids) =>
      var left := c.sessionIds - {id};
      c.(sessionIds := left, tracker := A.Step(c.tracker, A.OpCancelScope(A.OfSession(id), ids)),
      state := if left == {} && c.state.SessionActive? then Negotiated else c.state)
    case Track(o) => c.(tracker := A.Step(c.tracker, o))
  }

  function Run(maxSessions: nat, maxPending: nat, ops: seq<Op>): Conn {
    if ops == [] then Conn(AwaitingNegotiate, {}, A.NewTracker(maxPending), maxSessions)
    else Step(Run(maxSessions, maxPending, ops[..|ops| - 1]), ops[|ops| - 1])
  }

  ghost predicate Inv(c: Conn) {
    |c.sessionIds| <= c.maxSessions && A.Inv(c.tracker)
  }

  lemma StepInv(c: Conn, op: Op)
    requires Inv(c)
    ensures Inv(Step(c, op)) && Step(c, op).maxSessions == c.maxSessions
  {
    hide A.Inv, A.Step;
    match op {
      case Negotiate =>
      case MarkActive =>
      case Disconnect =>
      case AddSession(id) =>
      case RemoveSession(id, ids) =>
        A.StepInv(c.tracker, A.OpCancelScope(A.OfSession(id), ids));
        if id in c.sessionIds {
          assert |c.sessionIds - {id}| == |c.sessionIds| - 1;
        } else {
          assert c.sessionIds - {id} == c.sessionIds;
        }
      case Track(o) => A.StepInv(c.tracker, o);
    }
  }

  /** Every reachable connection is within its session limit and has a consistent tracker. */
  lemma {:induction false} RunInv(maxSessions: nat, maxPending: nat, ops: seq<Op>)
    ensures Inv(Run(maxSessions, maxPending, ops))
    ensures Run(maxSessions, maxPending, ops).maxSessions == maxSessions
  {
    hide A.Inv, Step;
    if ops == [] {
      A.NewTrackerInv(maxPending);
    } else {
      RunInv(maxSessions, maxPending, ops[..|ops| - 1]);
      StepInv(Run(maxSessions, maxPending, ops[..|ops| - 1]), ops[|ops| - 1]);
    }
  }

  /**
   Removing a session takes its id and all its pending requests off the connection, completes
   each of them once as cancelled, and keeps the other sessions and their requests.
   */
  lemma RemovedSessionIsGone(c: Conn, id: nat, ids: seq<nat>)
    requires Inv(c) && A.ListsScope(c.tracker, A.OfSession(id), ids)
    ensures var c' := Step(c, RemoveSession(id, ids));
            && (forall s :: s in c'.sessionIds <==> s in c.sessionIds && s != id)
            && c'.state == (if c.state == SessionActive && (forall s :: s in c.sessionIds ==> s == id)
                            then Negotiated else c.state)
            && (forall r :: r in c'.tracker.pending <==> r in c.tracker.pending && c.tracker.pending[r].sessionId != id)
            && (forall r :: r in c'.tracker.pending ==> c'.tracker.pending[r] == c.tracker.pending[r])
            && |c'.tracker.sent| == |c.tracker.sent| + |ids|
            && forall i :: 0 <= i < |ids| ==>
                 c'.tracker.sent[|c.tracker.sent| + i] ==
                 A.Completion(c.tracker.pending[ids[i]].(cancelled := true), A.STATUS_CANCELLED)
  {
    hide A.Step, A.Inv;
    A.CancelScopeEffect(c.tracker, A.OfSession(id), ids);
  }

  /**
   An accepted session is added to the others, and makes a negotiated connection active; a
   refused one changes nothing.
   */
  lemma AddedSession(c: Conn, id: nat)
    ensures var c' := Step(c, AddSession(id));
            && (|c.sessionIds| < c.maxSessions ==> forall s :: s in c'.sessionIds <==> s in c.sessionIds || s == id)
            && (|c.sessionIds| < c.maxSessions ==>
                  c'.state == (if c.state == Negotiated then SessionActive else c.state))
            && (|c.sessionIds| >= c.maxSessions ==> c' == c)
            && c'.tracker == c.tracker
  {
  }

  /** Removing a session that was just added gives back the sessions, the requests and the state. */
  lemma AddThenRemove(c: Conn, id: nat)
    requires |c.sessionIds| < c.maxSessions && id !in c.sessionIds && StateTellsSessions(c)
    requires forall r :: r in c.tracker.pending ==> c.tracker.pending[r].sessionId != id
    ensures A.ListsScope(c.tracker, A.OfSession(id), [])
    ensures Step(Step(c, AddSession(id)), RemoveSession(id, [])) == c
  {
    assert c.sessionIds + {id} - {id} == c.sessionIds;
  }

  /** After negotiation, "session active" means that there is a session. */
  predicate StateTellsSessions(c: Conn) {
    c.state.Negotiated? || c.state.SessionActive? ==> (c.state.SessionActive? <==> c.sessionIds != {})
  }

  /** The guard under which a step keeps that meaning. */
  predicate InTurn(c: Conn, op: Op) {
    && (op.Negotiate? ==> c.sessionIds == {})
    && (op.MarkActive? ==> c.sessionIds != {})
  }

  lemma StepTellsSessions(c: Conn, op: Op)
    requires StateTellsSessions(c)
    ensures StateTellsSessions(Step(c, op)) <==> InTurn(c, op)
  {
  }

  ghost predicate AlwaysTellsSessions(maxSessions: nat, maxPending: nat, ops: seq<Op>) {
    && StateTellsSessions(Run(maxSessions, maxPending, ops))
    && (ops != [] ==> AlwaysTellsSessions(maxSessions, maxPending, ops[..|ops| - 1]))
  }

  ghost predicate AlwaysInTurn(maxSessions: nat, maxPending: nat, ops: seq<Op>) {
    ops != [] ==>
      && InTurn(Run(maxSessions, maxPending, ops[..|ops| - 1]), ops[|ops| - 1])
      && AlwaysInTurn(maxSessions, maxPending, ops[..|ops| - 1])
  }

  /**
   The state tells whether there is a session in every state of a run exactly when each
   negotiation finds no session and each explicit activation finds one.
   */
  lemma {:induction false} RunTellsSessions(maxSessions: nat, maxPending: nat, ops: seq<Op>)
    ensures AlwaysTellsSessions(maxSessions, maxPending, ops) <==> AlwaysInTurn(maxSessions, maxPending, ops)
  {
    hide Step, InTurn;
    if ops != [] {
      var before := ops[..|ops| - 1];
      RunTellsSessions(maxSessions, maxPending, before);
      if StateTellsSessions(Run(maxSessions, maxPending, before)) {
        StepTellsSessions(Run(maxSessions, maxPending, before), ops[|ops| - 1]);
      }
    }
  }

  /** Once disconnecting, a connection stays so, whatever sessions and requests come and go. */
  lemma {:induction false} DisconnectingStays(maxSessions: nat, maxPending: nat, ops: seq<Op>, more: seq<Op>)
    requires forall i :: 0 <= i < |more| ==> !more[i].Negotiate? && !more[i].MarkActive?
    ensures Run(maxSessions, maxPending, ops + [Disconnect] + more).state == Disconnecting
    decreases |more|
  {
    var all := ops + [Disconnect] + more;
    if more == [] {
      assert all[..|all| - 1] == ops && all[|all| - 1] == Disconnect;
    } else {
      var n := |more| - 1;
      DisconnectingStays(maxSessions, maxPending, ops, more[..n]);
      assert all[..|all| - 1] == ops + [Disconnect] + more[..n] && all[|all| - 1] == more[n];
    }
  }

  /** What the tracker sees of a run: its own operations, and a cancellation for each removed session. */
  function TrackerOps(ops: seq<Op>): seq<A.Op> {
    if ops == [] then []
    else
      var before, last := TrackerOps(ops[..|ops| - 1]), ops[|ops| - 1];
      match last
      case Track(o) => before + [o]
      case RemoveSession(id, ids) => before + [A.OpCancelScope(A.OfSession(id), ids)]
      case _ => before
  }

  /** So every result about runs of the tracker holds of the tracker of a connection. */
  lemma {:induction false} TrackerRuns(maxSessions: nat, maxPending: nat, ops: seq<Op>)
    ensures Run(maxSessions, maxPending, ops).tracker == A.Run(maxPending, TrackerOps(ops))
  {
    hide A.Step;
    if ops != [] {
      TrackerRuns(maxSessions, maxPending, ops[..|ops| - 1]);
      var last := ops[|ops| - 1];
      if last.Track? || last.RemoveSession? {
        var before := TrackerOps(ops[..|ops| - 1]);
        assert TrackerOps(ops)[..|before|] == before;
      }
    }
  }

  // ---------- the connection object ----------

  class SmbConnection {
    var state: ConnectionState
    var sessionIds: set<nat>
    const maxSessions: nat
    const asyncRequests: A.AsyncRequestTracker
    const credits: Credits.CreditManager

    ghost function Value(): Conn
      reads this, asyncRequests
    {
      Conn(state, sessionIds, asyncRequests.State(), maxSessions)
    }

    constructor (maxSessions: nat, maxPending: nat, config: Credits.CreditConfig)
      ensures Value() == Run(maxSessions, maxPending, [])
      ensures fresh(asyncRequests) && fresh(credits)
      ensures credits.config == config && credits.available == config.initialCredits
    {
      state, sessionIds := AwaitingNegotiate, {};
      this.maxSessions := maxSessions;
      asyncRequests := new A.AsyncRequestTracker(maxPending);
      credits := new Credits.CreditManager(config);
    }

    method AddSessionId(sessionId: nat) returns (added: bool)
      modifies this
      ensures Value() == Step(old(Value()), AddSession(sessionId))
      ensures added <==> |old(sessionIds)| < maxSessions
    {
      if |sessionIds| >= maxSessions {
        return false;
      }
      sessionIds := sessionIds + {sessionId};
      if state == Negotiated {
        state := SessionActive;
      }
      added := true;
    }

    method RemoveSessionId(sessionId: nat) returns (ghost ids: seq<nat>)
      modifies this, asyncRequests
      ensures A.ListsScope(old(asyncRequests.State()), A.OfSession(sessionId), ids)
      ensures Value() == Step(old(Value()), RemoveSession(sessionId, ids))
    {
      sessionIds := sessionIds - {sessionId};
      var cancelled;
      cancelled, ids := asyncRequests.CancelScope(A.OfSession(sessionId));
      if sessionIds == {} && state == SessionActive {
        state := Negotiated;
      }
    }

    /** The balance after a grant follows from the balance, the request and the configuration. */
    method GrantCredits(requested: u16, isAsync: bool, lost: nat) returns (granted: u16)
      modifies credits
      ensures (credits.available, granted) ==
              Credits.Grant(credits.config.maxCredits, old(credits.available),
                            Credits.CalculateGrant(credits.config, old(credits.available), requested, isAsync))
      ensures credits.granted == old(credits.granted) + granted && credits.consumed == old(credits.consumed)
    {
      hide Credits.Grant, Credits.CalculateGrant;
      var toGrant := credits.Calculate(requested, isAsync);
      granted := credits.GrantUpTo(toGrant, lost);
    }
  }
}
