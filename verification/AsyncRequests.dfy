/** Tracking of pending asynchronous requests on a connection. */
module AsyncRequests {
  import opened Core

  const STATUS_CANCELLED: nat := 0xC0000120
  const STATUS_IO_TIMEOUT: nat := 0xC00000B5

  type FileId = (nat, nat)

  datatype AsyncRequest = AsyncRequest(
    asyncId: nat, messageId: nat, sessionId: nat, treeId: nat, fileId: Option<FileId>,
    created: nat, timeout: nat, cancelled: bool)
  {
    predicate IsTimedOut(now: nat) {
      now > created + timeout
    }
  }

  /** What the waiter of a request receives. */
  datatype Completion = Completion(request: AsyncRequest, status: nat)

  datatype Tracker = Tracker(
    pending: map<nat, AsyncRequest>,
    messageToAsync: map<nat, nat>,
    notifiers: set<nat>,
    nextAsyncId: nat,
    maxPending: nat,
    /** Completions delivered so far. */
    sent: seq<Completion>)

  function NewTracker(maxPending: nat): Tracker {
    Tracker(map[], map[], {}, 1, maxPending, [])
  }

  // ---------- operations ----------

  /** The request a registration makes; its id is filled in by the tracker. */
  function Register(t: Tracker, request: AsyncRequest): (Tracker, Option<nat>) {
    if |t.pending| >= t.maxPending then (t, None)
    else
      var id := t.nextAsyncId;
      var r := request.(asyncId := id, cancelled := false);
      (t.(pending := t.pending[id := r],
          messageToAsync := t.messageToAsync[r.messageId := id],
          notifiers := t.notifiers + {id},
          nextAsyncId := id + 1), Some(id))
  }

  function Complete(t: Tracker, id: nat, status: nat): (Tracker, Option<AsyncRequest>) {
    if id !in t.pending then (t, None)
    else
      var r := t.pending[id];
      (t.(pending := t.pending - {id},
          messageToAsync := t.messageToAsync - {r.messageId},
          notifiers := t.notifiers - {id},
          sent := t.sent + if id in t.notifiers then [Completion(r, status)] else []), Some(r))
  }

  /** Mark a request cancelled and complete it. */
  function Cancel(t: Tracker, id: nat): (Tracker, Option<AsyncRequest>) {
    var marked := if id in t.pending then t.(pending := t.pending[id := t.pending[id].(cancelled := true)]) else t;
    Complete(marked, id, STATUS_CANCELLED)
  }

  /** End a request: a cancellation marks it, a timeout does not. */
  function Finish(t: Tracker, id: nat, cancel: bool): (Tracker, Option<AsyncRequest>) {
    if cancel then Cancel(t, id) else Complete(t, id, STATUS_IO_TIMEOUT)
  }

  function FinishAll(t: Tracker, ids: seq<nat>, cancel: bool): Tracker {
    if ids == [] then t else Finish(FinishAll(t, ids[..|ids| - 1], cancel), ids[|ids| - 1], cancel).0
  }

  /** What the waiter of a finished request receives. */
  function Finished(r: AsyncRequest, cancel: bool): Completion {
    if cancel then Completion(r.(cancelled := true), STATUS_CANCELLED) else Completion(r, STATUS_IO_TIMEOUT)
  }

  function Members(ids: seq<nat>): set<nat> {
    set id | id in ids
  }

  /** Which requests a bulk cancellation is about. */
  datatype Scope = OfSession(sessionId: nat) | OfTree(sessionId: nat, treeId: nat) | OfFile(fileId: FileId)

  predicate InScope(s: Scope, r: AsyncRequest) {
    match s
    case OfSession(id) => r.sessionId == id
    case OfTree(id, tree) => r.sessionId == id && r.treeId == tree
    case OfFile(file) => r.fileId == Some(file)
  }

  /** `ids` lists the pending requests of the scope, in any order, each once. */
  ghost predicate ListsScope(t: Tracker, s: Scope, ids: seq<nat>) {
    && (forall i, j :: 0 <= i < j < |ids| ==> ids[i] != ids[j])
    && (forall id :: id in ids <==> id in t.pending && InScope(s, t.pending[id]))
  }

  ghost predicate ListsExpired(t: Tracker, now: nat, ids: seq<nat>) {
    && (forall i, j :: 0 <= i < j < |ids| ==> ids[i] != ids[j])
    && (forall id :: id in ids <==> id in t.pending && t.pending[id].IsTimedOut(now))
  }

  // ---------- invariant ----------

  function SentIds(sent: seq<Completion>): set<nat> {
    set c | c in sent :: c.request.asyncId
  }

  /** Requests, notifiers and the message index fit together. */
  ghost predicate Tables(t: Tracker) {
    && t.pending.Keys == t.notifiers
    && |t.pending| <= t.maxPending
    && (forall id :: id in t.pending ==> t.pending[id].asyncId == id)
    && (forall m :: m in t.messageToAsync ==>
          t.messageToAsync[m] in t.pending && t.pending[t.messageToAsync[m]].messageId == m)
  }

  /** The ids given out are split into those waiting and those completed, and none is completed twice. */
  ghost predicate Accounted(waiting: set<nat>, sent: seq<Completion>, nextAsyncId: nat) {
    && (forall id: nat :: 1 <= id < nextAsyncId <==> id in waiting || id in SentIds(sent))
    && waiting !! SentIds(sent)
    && SentOnce(sent)
  }

  ghost predicate SentOnce(sent: seq<Completion>) {
    forall i, j :: 0 <= i < j < |sent| ==> sent[i].request.asyncId != sent[j].request.asyncId
  }

  ghost predicate Inv(t: Tracker) {
    Tables(t) && Accounted(t.pending.Keys, t.sent, t.nextAsyncId) && t.nextAsyncId >= 1
  }

  /** Every pending request is found by its message id. */
  ghost predicate Covered(t: Tracker) {
    forall id :: id in t.pending ==>
      t.pending[id].messageId in t.messageToAsync && t.messageToAsync[t.pending[id].messageId] == id
  }

  lemma Issue(waiting: set<nat>, sent: seq<Completion>, id: nat)
    requires Accounted(waiting, sent, id) && id >= 1
    ensures id !in waiting && id !in SentIds(sent)
    ensures Accounted(waiting + {id}, sent, id + 1)
  {
  }

  lemma Settle(waiting: set<nat>, sent: seq<Completion>, nextAsyncId: nat, c: Completion)
    requires Accounted(waiting, sent, nextAsyncId) && c.request.asyncId in waiting
    ensures Accounted(waiting - {c.request.asyncId}, sent + [c], nextAsyncId)
  {
  }

  lemma RegisterTables(t: Tracker, request: AsyncRequest)
    requires Tables(t) && t.nextAsyncId !in t.pending
    ensures Tables(Register(t, request).0)
  {
  }

  /** A registration succeeds exactly below the limit, under an id never given out before. */
  lemma RegisterInv(t: Tracker, request: AsyncRequest)
    requires Inv(t)
    ensures Inv(Register(t, request).0)
    ensures var (t', id) := Register(t, request);
            && (id.Some? <==> |t.pending| < t.maxPending)
            && (id.Some? ==> id.value !in t.pending && id.value !in SentIds(t.sent) && id.value in t'.pending)
  {
    hide Tables, SentIds, Accounted;
    Issue(t.pending.Keys, t.sent, t.nextAsyncId);
    RegisterTables(t, request);
    var (t', id) := Register(t, request);
    if id.Some? {
      assert t'.pending.Keys == t.pending.Keys + {id.value};
    }
  }

  lemma CompleteTables(t: Tracker, id: nat, status: nat)
    requires Tables(t)
    ensures Tables(Complete(t, id, status).0)
  {
  }

  lemma CompleteInv(t: Tracker, id: nat, status: nat)
    requires Inv(t)
    ensures Inv(Complete(t, id, status).0)
  {
    assert id in t.pending ==> id in t.notifiers && t.pending[id].asyncId == id;
    hide Tables, SentIds, Accounted;
    CompleteTables(t, id, status);
    var t' := Complete(t, id, status).0;
    if id in t.pending {
      Settle(t.pending.Keys, t.sent, t.nextAsyncId, Completion(t.pending[id], status));
      assert t'.pending.Keys == t.pending.Keys - {id};
    }
  }

  lemma MarkInv(t: Tracker, id: nat)
    requires Inv(t) && id in t.pending
    ensures Inv(t.(pending := t.pending[id := t.pending[id].(cancelled := true)]))
  {
  }

  lemma CancelInv(t: Tracker, id: nat)
    requires Inv(t)
    ensures Inv(Cancel(t, id).0)
  {
    hide Inv;
    if id in t.pending {
      MarkInv(t, id);
      CompleteInv(t.(pending := t.pending[id := t.pending[id].(cancelled := true)]), id, STATUS_CANCELLED);
    }
  }

  lemma {:induction false} FinishAllInv(t: Tracker, ids: seq<nat>, cancel: bool)
    requires Inv(t)
    ensures Inv(FinishAll(t, ids, cancel))
  {
    hide Inv, Cancel, Complete;
    if ids != [] {
      FinishAllInv(t, ids[..|ids| - 1], cancel);
      CancelInv(FinishAll(t, ids[..|ids| - 1], cancel), ids[|ids| - 1]);
      CompleteInv(FinishAll(t, ids[..|ids| - 1], cancel), ids[|ids| - 1], STATUS_IO_TIMEOUT);
    }
  }

  // ---------- runs ----------

  datatype Op =
    | OpRegister(request: AsyncRequest)
    | OpComplete(asyncId: nat, status: nat)
    | OpCancel(asyncId: nat)
    | OpCancelMessage(messageId: nat)
    /** `ids` is the order in which the map listed the matching requests. */
    | OpCancelScope(scope: Scope, ids: seq<nat>)
    | OpCleanup(now: nat, ids: seq<nat>)

  function Step(t: Tracker, op: Op): Tracker {
    match op
    case OpRegister(r) => Register(t, r).0
    case OpComplete(id, status) => Complete(t, id, status).0
    case OpCancel(id) => Cancel(t, id).0
    case OpCancelMessage(m) => if m in t.messageToAsync then Cancel(t, t.messageToAsync[m]).0 else t
    case OpCancelScope(_, ids) => FinishAll(t, ids, true)
    case OpCleanup(_, ids) => FinishAll(t, ids, false)
  }

  function Run(maxPending: nat, ops: seq<Op>): Tracker {
    if ops == [] then NewTracker(maxPending) else Step(Run(maxPending, ops[..|ops| - 1]), ops[|ops| - 1])
  }

  lemma StepInv(t: Tracker, op: Op)
    requires Inv(t)
    ensures Inv(Step(t, op))
  {
    hide Inv, Register, Complete, Cancel, FinishAll;
    match op {
      case OpRegister(r) => RegisterInv(t, r);
      case OpComplete(id, status) => CompleteInv(t, id, status);
      case OpCancel(id) => CancelInv(t, id);
      case OpCancelMessage(m) =>
        if m in t.messageToAsync {
          CancelInv(t, t.messageToAsync[m]);
        }
      case OpCancelScope(_, ids) => FinishAllInv(t, ids, true);
      case OpCleanup(_, ids) => FinishAllInv(t, ids, false);
    }
  }

  /**
   In every reachable state notifiers and pending requests have the same ids, the limit holds, the
   message index points to pending requests of that message, and the ids given out are the pending
   ones and the ones completed exactly once.
   */
  lemma {:induction false} RunInv(maxPending: nat, ops: seq<Op>)
    ensures Inv(Run(maxPending, ops)) && Run(maxPending, ops).maxPending == maxPending
  {
    hide Inv, Step;
    if ops == [] {
      NewTrackerInv(maxPending);
    } else {
      RunInv(maxPending, ops[..|ops| - 1]);
      StepInv(Run(maxPending, ops[..|ops| - 1]), ops[|ops| - 1]);
      StepLimit(Run(maxPending, ops[..|ops| - 1]), ops[|ops| - 1]);
    }
  }

  lemma NewTrackerInv(maxPending: nat)
    ensures Inv(NewTracker(maxPending)) && Covered(NewTracker(maxPending))
  {
  }

  lemma {:induction false} FinishAllLimit(t: Tracker, ids: seq<nat>, cancel: bool)
    ensures FinishAll(t, ids, cancel).maxPending == t.maxPending
    ensures FinishAll(t, ids, cancel).nextAsyncId == t.nextAsyncId
  {
    if ids != [] {
      FinishAllLimit(t, ids[..|ids| - 1], cancel);
    }
  }

  lemma StepLimit(t: Tracker, op: Op)
    ensures Step(t, op).maxPending == t.maxPending
    ensures Step(t, op).nextAsyncId >= t.nextAsyncId
  {
    hide FinishAll;
    if op.OpCancelScope? || op.OpCleanup? {
      FinishAllLimit(t, op.ids, op.OpCancelScope?);
    }
  }

  /** Along a run the counter only grows, so an id given out once is never given out again. */
  lemma {:induction false} IdsNeverReused(maxPending: nat, ops: seq<Op>, more: seq<Op>)
    ensures Run(maxPending, ops).nextAsyncId <= Run(maxPending, ops + more).nextAsyncId
    decreases |more|
  {
    hide Step;
    if more == [] {
      assert ops + more == ops;
    } else {
      var all, n := ops + more, |more| - 1;
      assert all[..|all| - 1] == ops + more[..n];
      IdsNeverReused(maxPending, ops, more[..n]);
      StepLimit(Run(maxPending, ops + more[..n]), all[|all| - 1]);
    }
  }

  // ---------- lookup by message id ----------

  /** A registration keeps every request reachable exactly when its message id is not pending. */
  lemma RegisterCovered(t: Tracker, request: AsyncRequest)
    requires Inv(t) && Covered(t) && Register(t, request).1.Some?
    ensures Covered(Register(t, request).0) <==>
            forall id :: id in t.pending ==> t.pending[id].messageId != request.messageId
  {
    var (t', id) := Register(t, request);
    if Covered(t') {
      forall k | k in t.pending
        ensures t.pending[k].messageId != request.messageId
      {
        assert k in t'.pending && t'.pending[k] == t.pending[k];
      }
    }
  }

  lemma CompleteCovered(t: Tracker, id: nat, status: nat)
    requires Covered(t)
    ensures Covered(Complete(t, id, status).0)
  {
  }

  lemma CancelCovered(t: Tracker, id: nat)
    requires Covered(t)
    ensures Covered(Cancel(t, id).0)
  {
  }

  lemma {:induction false} FinishAllCovered(t: Tracker, ids: seq<nat>, cancel: bool)
    requires Covered(t)
    ensures Covered(FinishAll(t, ids, cancel))
  {
    hide Covered, Cancel, Complete;
    if ids != [] {
      FinishAllCovered(t, ids[..|ids| - 1], cancel);
      CancelCovered(FinishAll(t, ids[..|ids| - 1], cancel), ids[|ids| - 1]);
      CompleteCovered(FinishAll(t, ids[..|ids| - 1], cancel), ids[|ids| - 1], STATUS_IO_TIMEOUT);
    }
  }

  /** A CANCEL for a pending message ends exactly that request; for any other message it does nothing. */
  lemma CancelMessageEffect(t: Tracker, m: nat)
    requires Inv(t) && Covered(t)
    ensures var t' := Step(t, OpCancelMessage(m));
            && (forall id :: id in t'.pending <==> id in t.pending && t.pending[id].messageId != m)
            && (forall id :: id in t'.pending ==> t'.pending[id] == t.pending[id])
            && (t' != t <==> exists id :: id in t.pending && t.pending[id].messageId == m)
            && (forall id :: id in t.pending && t.pending[id].messageId == m ==>
                  t'.sent == t.sent + [Completion(t.pending[id].(cancelled := true), STATUS_CANCELLED)])
  {
  }

  lemma AddedThenRemoved<V>(m: map<nat, V>, k: nat, v: V, w: V)
    requires k !in m
    ensures m[k := v] - {k} == m && m[k := v][k := w] - {k} == m
  {
  }

  /** Registering a fresh message and cancelling it leaves only the cancelled completion behind. */
  lemma RegisterThenCancel(t: Tracker, request: AsyncRequest)
    requires Inv(t) && |t.pending| < t.maxPending
    requires request.messageId !in t.messageToAsync
    ensures Step(Register(t, request).0, OpCancelMessage(request.messageId)) ==
            t.(nextAsyncId := t.nextAsyncId + 1,
               sent := t.sent + [Completion(request.(asyncId := t.nextAsyncId, cancelled := true), STATUS_CANCELLED)])
  {
    RegisterInv(t, request);
    assert t.nextAsyncId !in t.notifiers;
    hide Inv, SentIds;
    var (t', id) := Register(t, request);
    AddedThenRemoved(t.pending, id.value, t'.pending[id.value], t'.pending[id.value].(cancelled := true));
    AddedThenRemoved(t.messageToAsync, request.messageId, id.value, id.value);
    assert t.notifiers + {id.value} - {id.value} == t.notifiers;
  }

  /** The step registers no message id that is still pending (a refused registration does not count). */
  ghost predicate FreshMessage(t: Tracker, op: Op) {
    op.OpRegister? && |t.pending| < t.maxPending ==>
      forall id :: id in t.pending ==> t.pending[id].messageId != op.request.messageId
  }

  lemma StepCovered(t: Tracker, op: Op)
    requires Inv(t) && Covered(t)
    ensures Covered(Step(t, op)) <==> FreshMessage(t, op)
  {
    hide Inv, Covered, Complete, Cancel, FinishAll;
    match op {
      case OpRegister(r) =>
        if |t.pending| < t.maxPending {
          RegisterCovered(t, r);
        }
      case OpComplete(id, status) => CompleteCovered(t, id, status);
      case OpCancel(id) => CancelCovered(t, id);
      case OpCancelMessage(m) =>
        if m in t.messageToAsync {
          CancelCovered(t, t.messageToAsync[m]);
        }
      case OpCancelScope(_, ids) => FinishAllCovered(t, ids, true);
      case OpCleanup(_, ids) => FinishAllCovered(t, ids, false);
    }
  }

  ghost predicate AlwaysCovered(maxPending: nat, ops: seq<Op>) {
    Covered(Run(maxPending, ops)) && (ops != [] ==> AlwaysCovered(maxPending, ops[..|ops| - 1]))
  }

  ghost predicate FreshMessages(maxPending: nat, ops: seq<Op>) {
    ops != [] ==>
      && FreshMessage(Run(maxPending, ops[..|ops| - 1]), ops[|ops| - 1])
      && FreshMessages(maxPending, ops[..|ops| - 1])
  }

  /**
   Every pending request of every state of a run is found by its message id exactly when no
   accepted registration reuses the message id of a request still pending.
   */
  lemma {:induction false} RunCovered(maxPending: nat, ops: seq<Op>)
    ensures AlwaysCovered(maxPending, ops) <==> FreshMessages(maxPending, ops)
  {
    hide Inv, Covered, Step, FreshMessage;
    if ops == [] {
      NewTrackerInv(maxPending);
    } else {
      var before := ops[..|ops| - 1];
      RunCovered(maxPending, before);
      RunInv(maxPending, before);
      if Covered(Run(maxPending, before)) {
        StepCovered(Run(maxPending, before), ops[|ops| - 1]);
      }
    }
  }

  // ---------- removing the requests of a session, a tree or a file, and the expired ones ----------

  lemma FinishOne(s: Tracker, id: nat, cancel: bool)
    ensures Finish(s, id, cancel).0.pending == s.pending - {id}
    ensures id in s.pending ==> Finish(s, id, cancel).1 == Some(Finished(s.pending[id], cancel).request)
    ensures id in s.pending && id in s.notifiers ==>
              Finish(s, id, cancel).0.notifiers == s.notifiers - {id} &&
              Finish(s, id, cancel).0.sent == s.sent + [Finished(s.pending[id], cancel)]
  {
  }

  /**
   Completing one request by its id ends that request alone, with one completion that carries the
   given status; for an id that is not pending nothing happens.
   */
  lemma CompleteEffect(t: Tracker, id: nat, status: nat)
    requires t.pending.Keys == t.notifiers
    ensures var t' := Step(t, OpComplete(id, status));
            && t'.pending == t.pending - {id} && t'.notifiers == t.notifiers - {id}
            && t'.sent == t.sent + (if id in t.pending then [Completion(t.pending[id], status)] else [])
            && (id !in t.pending ==> t' == t)
  {
  }

  /** Cancelling it does the same, with the cancelled mark and status. */
  lemma CancelEffect(t: Tracker, id: nat)
    requires t.pending.Keys == t.notifiers
    ensures var t' := Step(t, OpCancel(id));
            && t'.pending == t.pending - {id} && t'.notifiers == t.notifiers - {id}
            && t'.sent == t.sent + (if id in t.pending
                                    then [Completion(t.pending[id].(cancelled := true), 0xC0000120)] else [])
            && (id !in t.pending ==> t' == t)
  {
    if id in t.pending {
      var marked := t.pending[id := t.pending[id].(cancelled := true)];
      assert marked - {id} == t.pending - {id};
    } else {
      assert t.pending - {id} == t.pending;
    }
  }

  lemma NothingToFinish(t: Tracker, cancel: bool)
    ensures FinishAll(t, [], cancel) == t
  {
  }

  lemma LastMember(ids: seq<nat>)
    requires ids != []
    ensures Members(ids) == Members(ids[..|ids| - 1]) + {ids[|ids| - 1]}
  {
  }

  lemma {:induction false} FinishAllPending(t: Tracker, ids: seq<nat>, cancel: bool)
    ensures FinishAll(t, ids, cancel).pending == t.pending - Members(ids)
  {
    hide Finish;
    if ids == [] {
      assert Members(ids) == {};
    } else {
      var n := |ids| - 1;
      FinishAllPending(t, ids[..n], cancel);
      LastMember(ids);
      FinishOne(FinishAll(t, ids[..n], cancel), ids[n], cancel);
    }
  }

  /** A listed request stays pending, unchanged, until its own turn. */
  lemma StillPending(t: Tracker, ids: seq<nat>, i: nat, cancel: bool)
    requires i < |ids| && ids[i] in t.pending
    requires forall j, k :: 0 <= j < k < |ids| ==> ids[j] != ids[k]
    ensures ids[i] in FinishAll(t, ids[..i], cancel).pending
    ensures FinishAll(t, ids[..i], cancel).pending[ids[i]] == t.pending[ids[i]]
    ensures Finish(FinishAll(t, ids[..i], cancel), ids[i], cancel).1 == Some(Finished(t.pending[ids[i]], cancel).request)
    ensures FinishAll(t, ids[..i + 1], cancel) == Finish(FinishAll(t, ids[..i], cancel), ids[i], cancel).0
  {
    hide Finish;
    FinishAllPending(t, ids[..i], cancel);
    FinishOne(FinishAll(t, ids[..i], cancel), ids[i], cancel);
    assert ids[..i + 1][..i] == ids[..i];
  }

  /** Finishing a list removes exactly those requests and delivers one completion for each, in order. */
  lemma {:induction false} FinishAllEffect(t: Tracker, ids: seq<nat>, cancel: bool)
    requires t.pending.Keys == t.notifiers
    requires forall i :: 0 <= i < |ids| ==> ids[i] in t.pending
    requires forall i, j :: 0 <= i < j < |ids| ==> ids[i] != ids[j]
    ensures var t' := FinishAll(t, ids, cancel);
            && t'.pending == t.pending - Members(ids) && t'.notifiers == t.notifiers - Members(ids)
            && t.sent <= t'.sent && |t'.sent| == |t.sent| + |ids|
            && forall i :: 0 <= i < |ids| ==> t'.sent[|t.sent| + i] == Finished(t.pending[ids[i]], cancel)
  {
    hide Finish, Finished;
    FinishAllPending(t, ids, cancel);
    if ids == [] {
      assert Members(ids) == {};
    } else {
      var n := |ids| - 1;
      FinishAllEffect(t, ids[..n], cancel);
      LastMember(ids);
      StillPending(t, ids, n, cancel);
      FinishOne(FinishAll(t, ids[..n], cancel), ids[n], cancel);
    }
  }

  /**
   Cancelling a session, a tree or a file removes exactly its requests, delivers one
   cancelled completion for each, and leaves every other request alone.
   */
  lemma CancelScopeEffect(t: Tracker, scope: Scope, ids: seq<nat>)
    requires Inv(t) && ListsScope(t, scope, ids)
    ensures var t' := Step(t, OpCancelScope(scope, ids));
            && (forall id :: id in t'.pending <==> id in t.pending && !InScope(scope, t.pending[id]))
            && (forall id :: id in t'.pending ==> t'.pending[id] == t.pending[id])
            && |t'.sent| == |t.sent| + |ids| && t.sent <= t'.sent
            && forall i :: 0 <= i < |ids| ==>
                 t'.sent[|t.sent| + i] ==
                 Completion(t.pending[ids[i]].(cancelled := true), 0xC0000120)
  {
    hide FinishAll;
    assert forall i :: 0 <= i < |ids| ==> ids[i] in ids;
    FinishAllEffect(t, ids, true);
  }

  /**
   Which requests stay pending, by their fields: all of other sessions; all but those of both the
   session and the tree; all that are not about the file.
   */
  lemma CancelScopeByField(t: Tracker, scope: Scope, ids: seq<nat>)
    requires Inv(t) && ListsScope(t, scope, ids)
    ensures var t' := Step(t, OpCancelScope(scope, ids));
            forall id :: id in t'.pending <==>
              id in t.pending &&
              var r := t.pending[id];
              match scope
              case OfSession(session) => r.sessionId != session
              case OfTree(session, tree) => r.sessionId != session || r.treeId != tree
              case OfFile(file) => r.fileId.None? || r.fileId.value != file
  {
    hide Inv, Step;
    CancelScopeEffect(t, scope, ids);
  }

  /** The cleanup ends exactly the requests past their timeout, each with one timeout completion. */
  lemma CleanupEffect(t: Tracker, now: nat, ids: seq<nat>)
    requires Inv(t) && ListsExpired(t, now, ids)
    ensures var t' := Step(t, OpCleanup(now, ids));
            && (forall id :: id in t'.pending <==> id in t.pending && now <= t.pending[id].created + t.pending[id].timeout)
            && (forall id :: id in t'.pending ==> t'.pending[id] == t.pending[id])
            && |t'.sent| == |t.sent| + |ids| && t.sent <= t'.sent
            && forall i :: 0 <= i < |ids| ==>
                 t'.sent[|t.sent| + i] == Completion(t.pending[ids[i]], 0xC00000B5)
  {
    hide FinishAll;
    assert forall i :: 0 <= i < |ids| ==> ids[i] in ids;
    FinishAllEffect(t, ids, false);
  }

  // ---------- the tracker object ----------

  class AsyncRequestTracker {
    var pending: map<nat, AsyncRequest>
    var messageToAsync: map<nat, nat>
    var notifiers: set<nat>
    var nextAsyncId: nat
    const maxPending: nat
    ghost var sent: seq<Completion>

    ghost function State(): Tracker
      reads this
    {
      Tracker(pending, messageToAsync, notifiers, nextAsyncId, maxPending, sent)
    }

    constructor (maxPending: nat)
      ensures State() == NewTracker(maxPending)
    {
      this.maxPending := maxPending;
      pending, messageToAsync, notifiers, nextAsyncId, sent := map[], map[], {}, 1, [];
    }

    method RegisterWithTimeout(messageId: nat, sessionId: nat, treeId: nat, timeout: nat, now: nat)
      returns (r: Option<nat>)
      modifies this
      ensures (State(), r) ==
              Register(old(State()), AsyncRequest(0, messageId, sessionId, treeId, None, now, timeout, false))
    {
      if |pending| >= maxPending {
        return None;
      }
      var id := nextAsyncId;
      nextAsyncId := nextAsyncId + 1;
      pending := pending[id := AsyncRequest(id, messageId, sessionId, treeId, None, now, timeout, false)];
      messageToAsync := messageToAsync[messageId := id];
      notifiers := notifiers + {id};
      r := Some(id);
    }

    method RegisterWithFile(messageId: nat, sessionId: nat, treeId: nat, fileId: FileId, timeout: nat, now: nat)
      returns (r: Option<nat>)
      modifies this
      ensures (State(), r) ==
              Register(old(State()), AsyncRequest(0, messageId, sessionId, treeId, Some(fileId), now, timeout, false))
    {
      r := RegisterWithTimeout(messageId, sessionId, treeId, timeout, now);
      if r.Some? && r.value in pending {
        var request := pending[r.value];
        pending := pending[r.value := request.(fileId := Some(fileId))];
        assert pending == old(pending)[r.value := request.(fileId := Some(fileId))];
      }
    }

    method CompleteRequest(id: nat, status: nat) returns (r: Option<AsyncRequest>)
      modifies this
      ensures (State(), r) == Complete(old(State()), id, status)
    {
      if id !in pending {
        return None;
      }
      var request := pending[id];
      pending := pending - {id};
      messageToAsync := messageToAsync - {request.messageId};
      if id in notifiers {
        notifiers := notifiers - {id};
        sent := sent + [Completion(request, status)];
      } else {
        assert notifiers - {id} == notifiers;
        assert sent + [] == sent;
      }
      r := Some(request);
    }

    method CancelRequest(id: nat) returns (r: Option<AsyncRequest>)
      modifies this
      ensures (State(), r) == Cancel(old(State()), id)
    {
      if id in pending {
        var request := pending[id];
        pending := pending[id := request.(cancelled := true)];
      }
      r := CompleteRequest(id, 0xC0000120);
    }

    method CancelByMessageId(messageId: nat) returns (r: Option<AsyncRequest>)
      modifies this
      ensures State() == Step(old(State()), OpCancelMessage(messageId))
      ensures r == if messageId in old(messageToAsync)
                   then Cancel(old(State()), old(messageToAsync)[messageId]).1 else None
    {
      if messageId !in messageToAsync {
        return None;
      }
      r := CancelRequest(messageToAsync[messageId]);
    }

    method IdsInScope(scope: Scope) returns (ids: seq<nat>)
      ensures ListsScope(State(), scope, ids)
    {
      ids := [];
      var todo := pending.Keys;
      while todo != {}
        invariant todo <= pending.Keys
        invariant forall i, j :: 0 <= i < j < |ids| ==> ids[i] != ids[j]
        invariant forall id :: id in ids <==> id in pending && id !in todo && InScope(scope, pending[id])
        decreases todo
      {
        var id :| id in todo;
        if InScope(scope, pending[id]) {
          ids := ids + [id];
        }
        todo := todo - {id};
      }
    }

    /** cancel_session, cancel_tree and cancel_file; returns the cancelled requests in order. */
    method CancelScope(scope: Scope) returns (cancelled: seq<AsyncRequest>, ghost ids: seq<nat>)
      modifies this
      ensures ListsScope(old(State()), scope, ids)
      ensures State() == Step(old(State()), OpCancelScope(scope, ids))
      ensures |cancelled| == |ids| && forall i :: 0 <= i < |ids| ==>
                cancelled[i] == old(pending)[ids[i]].(cancelled := true)
    {
      hide Cancel, FinishAll, InScope;
      var list := IdsInScope(scope);
      ids := list;
      cancelled := [];
      ghost var t := State();
      NothingToFinish(t, true);
      for i := 0 to |list|
        invariant State() == FinishAll(t, list[..i], true)
        invariant |cancelled| == i && forall j :: 0 <= j < i ==>
                    cancelled[j] == t.pending[list[j]].(cancelled := true)
      {
        assert list[i] in list;
        StillPending(t, list, i, true);
        var r := CancelRequest(list[i]);
        if r.Some? {
          cancelled := cancelled + [r.value];
        }
      }
      assert list[..|list|] == list;
    }

    /** cleanup_expired */
    method CleanupExpired(now: nat) returns (expired: seq<AsyncRequest>, ghost ids: seq<nat>)
      modifies this
      ensures ListsExpired(old(State()), now, ids)
      ensures State() == Step(old(State()), OpCleanup(now, ids))
      ensures |expired| == |ids| && forall i :: 0 <= i < |ids| ==> expired[i] == old(pending)[ids[i]]
    {
      hide Complete, FinishAll;
      var list: seq<nat> := [];
      var todo := pending.Keys;
      while todo != {}
        invariant todo <= pending.Keys && State() == old(State())
        invariant forall i, j :: 0 <= i < j < |list| ==> list[i] != list[j]
        invariant forall id :: id in list <==> id in pending && id !in todo && pending[id].IsTimedOut(now)
        decreases todo
      {
        var id :| id in todo;
        if pending[id].IsTimedOut(now) {
          list := list + [id];
        }
        todo := todo - {id};
      }
      ids, expired := list, [];
      ghost var t := State();
      NothingToFinish(t, false);
      for i := 0 to |list|
        invariant State() == FinishAll(t, list[..i], false)
        invariant |expired| == i && forall j :: 0 <= j < i ==> expired[j] == t.pending[list[j]]
      {
        assert list[i] in list;
        StillPending(t, list, i, false);
        var r := CompleteRequest(list[i], 0xC00000B5);
        if r.Some? {
          expired := expired + [r.value];
        }
      }
      assert list[..|list|] == list;
    }
  }
}
