/** Deleting a session with everything it owns (section 3.3.7.1 of MS-SMB2). */
module Sessions {
  import opened Core
  import opened Leases
  import opened StateTypes
  import opened StateStore

  const DEFAULT_TIMEOUT_MS: nat := 60_000

  predicate ShouldPreserve(h: HandleState) {
    h.isPersistent || h.isDurable
  }

  /** set_durable_timeout */
  function WithTimeout(h: HandleState, timeoutMs: nat, now: nat): HandleState {
    h.(durableTimeout := timeoutMs, reconnectDeadline := Some(now + timeoutMs / 1000))
  }

  /** prepare_for_reconnect */
  function Prepared(h: HandleState, defaultMs: nat, now: nat): HandleState {
    var cut := h.(sessionId := 0, treeId := 0);
    if h.reconnectDeadline.Some? then cut
    else WithTimeout(cut, if h.durableTimeout > 0 then h.durableTimeout else defaultMs, now)
  }

  /** A handle the deletion of the session removes. */
  predicate Doomed(h: HandleState, session: nat) {
    h.sessionId == session && !ShouldPreserve(h)
  }

  /** The lease keys named by the handles a deletion removes. */
  ghost function DoomedLeases(handles: map<nat, HandleState>, session: nat): set<string> {
    set k | k in handles && Doomed(handles[k], session) && handles[k].leaseKey.Some? :: handles[k].leaseKey.value
  }

  /** The store after the deletion. */
  ghost function Deleted(b: Bulk, session: nat, now: nat): Bulk {
    Bulk(
      b.sessions - {session},
      map k | k in b.trees && k.0 != session :: b.trees[k],
      map k | k in b.handles && !Doomed(b.handles[k], session) ::
        if b.handles[k].sessionId == session then Prepared(b.handles[k], DEFAULT_TIMEOUT_MS, now)
        else b.handles[k],
      b.leases - DoomedLeases(b.handles, session))
  }

  /**
   Nothing of the session is left: no session, no tree, and no handle either, unless the
   session id is 0 and it had a handle that is kept for reconnection.
   */
  lemma NothingLeft(b: Bulk, session: nat, now: nat)
    requires KeysMatch(b)
    ensures var b' := Deleted(b, session, now);
            && KeysMatch(b')
            && session !in b'.sessions
            && (forall tree :: (session, tree) !in b'.trees)
            && ((forall k :: k in b'.handles ==> b'.handles[k].sessionId != session) <==>
                session != 0 ||
                forall k :: k in b.handles && b.handles[k].sessionId == 0 ==> !ShouldPreserve(b.handles[k]))
  {
    var b' := Deleted(b, session, now);
    if session == 0 {
      forall k | k in b.handles && b.handles[k].sessionId == 0 && ShouldPreserve(b.handles[k])
        ensures k in b'.handles && b'.handles[k].sessionId == 0
      {
      }
    }
  }

  /**
   Durable and persistent handles survive, cut off from session and tree and with a deadline;
   the other handles of the session are gone; handles of other sessions are untouched.
   */
  lemma HandlesAfterDeletion(b: Bulk, session: nat, now: nat, k: nat)
    requires k in b.handles
    ensures var h, b' := b.handles[k], Deleted(b, session, now);
            && (h.sessionId != session ==> k in b'.handles && b'.handles[k] == h)
            && (h.sessionId == session && !h.isDurable && !h.isPersistent ==> k !in b'.handles)
            && (h.sessionId == session && (h.isDurable || h.isPersistent) ==>
                  && k in b'.handles
                  && var h' := b'.handles[k];
                     && h'.sessionId == 0 && h'.treeId == 0 && h'.reconnectDeadline.Some?
                     && h' == h.(sessionId := 0, treeId := 0, reconnectDeadline := h'.reconnectDeadline,
                                 durableTimeout := h'.durableTimeout)
                     && h'.durableTimeout == (if h.reconnectDeadline.None? && h.durableTimeout == 0
                                              then 60_000 else h.durableTimeout)
                     && (h.reconnectDeadline.Some? ==> h'.reconnectDeadline == h.reconnectDeadline)
                     && (h.reconnectDeadline.None? && h.durableTimeout > 0 ==>
                           h'.reconnectDeadline == Some(now + h.durableTimeout / 1000))
                     && (h.reconnectDeadline.None? && h.durableTimeout == 0 ==>
                           h'.reconnectDeadline == Some(now + 60)))
  {
  }

  /**
   Only the session itself goes, with its own trees: every other session and every tree of
   another session is there afterwards exactly when it was before, with the same record, for
   session 0 as for any other.
   */
  lemma OthersAfterDeletion(b: Bulk, session: nat, now: nat, other: nat, tree: TreeKey)
    ensures var b' := Deleted(b, session, now);
            && Find(b'.sessions, other) == (if other == session then None else Find(b.sessions, other))
            && Find(b'.trees, tree) == (if tree.0 == session then None else Find(b.trees, tree))
  {
  }

  /** Exactly the leases named by removed handles go; nothing is added anywhere. */
  lemma LeasesAfterDeletion(b: Bulk, session: nat, now: nat, key: string)
    ensures key in Deleted(b, session, now).leases <==>
            key in b.leases &&
            forall k :: k in b.handles && b.handles[k].leaseKey == Some(key) && b.handles[k].sessionId == session ==>
              b.handles[k].isDurable || b.handles[k].isPersistent
    ensures key in Deleted(b, session, now).leases ==> Deleted(b, session, now).leases[key] == b.leases[key]
    ensures Deleted(b, session, now).handles.Keys <= b.handles.Keys
  {
  }

  /** Losing leases never makes a second writer. */
  lemma DeletionKeepsOneWriter(b: Bulk, session: nat, now: nat)
    requires OneWriter(b.leases)
    ensures OneWriter(Deleted(b, session, now).leases)
  {
  }

  class SessionManager {
    const store: MemoryStateStore

    constructor (store: MemoryStateStore)
      ensures this.store == store
    {
      this.store := store;
    }

    /** Keep or delete one handle of the session. */
    method DropHandle(h: HandleState, now: nat)
      modifies store`handles, store`leases
      ensures store.handles == Drop(old(store.handles), h, now)
      ensures store.leases == old(store.leases) - NamedBy(h)
    {
      if h.isPersistent || h.isDurable {
        var kept := h.(sessionId := 0, treeId := 0);
        if kept.reconnectDeadline.None? {
          var timeout := if kept.durableTimeout > 0 then kept.durableTimeout else 60_000;
          kept := kept.(durableTimeout := timeout, reconnectDeadline := Some(now + timeout / 1000));
        }
        store.PutHandle(kept);
      } else {
        if h.leaseKey.Some? {
          store.DeleteLease(h.leaseKey.value);
        }
        store.DeleteHandle(h.persistentId);
      }
    }

    method DropHandles(session: nat, now: nat)
      requires HandleKeysMatch(store.handles)
      modifies store`handles, store`leases
      ensures store.handles == Deleted(old(store.State()), session, now).handles
      ensures store.leases == Deleted(old(store.State()), session, now).leases
    {
      hide Drop, NamedBy, Deleted;
      var list := store.HandlesBySession(session);
      ghost var before := store.handles;
      for i := 0 to |list|
        invariant store.handles == DropAll(before, list[..i], now)
        invariant store.leases == old(store.leases) - Named(list[..i])
      {
        DropHandle(list[i], now);
        assert list[..i + 1][..i] == list[..i];
      }
      assert list[..|list|] == list;
      DroppedIsDeleted(old(store.State()), list, session, now);
    }

    method DropTrees(session: nat)
      requires TreeKeysMatch(store.trees)
      modifies store`trees
      ensures store.trees == map k | k in old(store.trees) && k.0 != session :: old(store.trees)[k]
    {
      var list := store.TreesBySession(session);
      ghost var before := store.trees;
      for i := 0 to |list|
        invariant store.trees.Keys <= before.Keys
        invariant forall k :: k in store.trees ==> store.trees[k] == before[k]
        invariant forall k :: k in before && k.0 != session ==> k in store.trees
        invariant forall j :: 0 <= j < i ==> (session, list[j].treeId) !in store.trees
      {
        store.DeleteTree(session, list[i].treeId);
      }
      forall k | k in before && k.0 == session
        ensures k !in store.trees
      {
        assert before[k] in list;
      }
    }

    /** delete_session of the session manager. */
    method DeleteSession(session: nat, now: nat)
      requires KeysMatch(store.State())
      modifies store
      ensures store.State() == Deleted(old(store.State()), session, now)
    {
      hide Prepared, DoomedLeases;
      DropHandles(session, now);
      DropTrees(session);
      store.DeleteSession(session);
    }
  }

  // ---------- the loop over the handles ----------

  function Drop(handles: map<nat, HandleState>, h: HandleState, now: nat): map<nat, HandleState> {
    if ShouldPreserve(h) then handles[h.persistentId := Prepared(h, DEFAULT_TIMEOUT_MS, now)]
    else handles - {h.persistentId}
  }

  function DropAll(handles: map<nat, HandleState>, list: seq<HandleState>, now: nat): map<nat, HandleState> {
    if list == [] then handles else Drop(DropAll(handles, list[..|list| - 1], now), list[|list| - 1], now)
  }

  function NamedBy(h: HandleState): set<string> {
    if !ShouldPreserve(h) && h.leaseKey.Some? then {h.leaseKey.value} else {}
  }

  /** Lease keys named by the handles of a list that are not preserved. */
  function Named(list: seq<HandleState>): set<string> {
    if list == [] then {} else Named(list[..|list| - 1]) + NamedBy(list[|list| - 1])
  }

  lemma DroppedIsDeleted(b: Bulk, list: seq<HandleState>, session: nat, now: nat)
    requires HandleKeysMatch(b.handles) && ListsSession(list, b.handles, session)
    ensures DropAll(b.handles, list, now) == Deleted(b, session, now).handles
    ensures b.leases - Named(list) == Deleted(b, session, now).leases
  {
    hide Prepared, DropAll, Named, ListsSession;
    HandlesDropped(b.handles, list, session, now);
    LeasesDropped(b.handles, list, session);
  }

  ghost predicate ListsSession(list: seq<HandleState>, handles: map<nat, HandleState>, session: nat) {
    && (forall h :: h in list <==>
          h.persistentId in handles && handles[h.persistentId] == h && h.sessionId == session)
    && (forall i, j :: 0 <= i < j < |list| ==> list[i].persistentId != list[j].persistentId)
  }

  lemma {:induction false} DropAllElsewhere(handles: map<nat, HandleState>, list: seq<HandleState>, now: nat, k: nat)
    requires forall j :: 0 <= j < |list| ==> list[j].persistentId != k
    ensures Find(DropAll(handles, list, now), k) == Find(handles, k)
  {
    hide Prepared;
    if list != [] {
      DropAllElsewhere(handles, list[..|list| - 1], now, k);
    }
  }

  lemma {:induction false} DropAllAt(handles: map<nat, HandleState>, list: seq<HandleState>, now: nat, j: nat)
    requires j < |list|
    requires forall a, b :: 0 <= a < b < |list| ==> list[a].persistentId != list[b].persistentId
    ensures Find(DropAll(handles, list, now), list[j].persistentId) ==
            if ShouldPreserve(list[j]) then Some(Prepared(list[j], DEFAULT_TIMEOUT_MS, now)) else None
  {
    hide Prepared;
    var n := |list| - 1;
    if j < n {
      DropAllAt(handles, list[..n], now, j);
      assert list[..n][j] == list[j];
    }
  }

  lemma HandlesDropped(before: map<nat, HandleState>, list: seq<HandleState>, session: nat, now: nat)
    requires HandleKeysMatch(before) && ListsSession(list, before, session)
    ensures DropAll(before, list, now) ==
            map k | k in before && !Doomed(before[k], session) ::
              if before[k].sessionId == session then Prepared(before[k], DEFAULT_TIMEOUT_MS, now)
              else before[k]
  {
    hide Prepared, DropAll;
    var after := DropAll(before, list, now);
    forall k: nat
      ensures Find(after, k) ==
              if k !in before || Doomed(before[k], session) then None
              else Some(if before[k].sessionId == session
                        then Prepared(before[k], DEFAULT_TIMEOUT_MS, now) else before[k])
    {
      if k in before && before[k].sessionId == session {
        assert before[k] in list;
        var j :| 0 <= j < |list| && list[j] == before[k];
        DropAllAt(before, list, now, j);
      } else {
        forall j | 0 <= j < |list|
          ensures list[j].persistentId != k
        {
          assert list[j] in list;
        }
        DropAllElsewhere(before, list, now, k);
      }
    }
    FromFind(after, map k | k in before && !Doomed(before[k], session) ::
              if before[k].sessionId == session then Prepared(before[k], DEFAULT_TIMEOUT_MS, now)
              else before[k]);
  }

  lemma FromFind(a: map<nat, HandleState>, b: map<nat, HandleState>)
    requires forall k: nat :: Find(a, k) == Find(b, k)
    ensures a == b
  {
    assert forall k: nat :: k in a <==> k in b by {
      forall k: nat
        ensures k in a <==> k in b
      {
        assert Find(a, k) == Find(b, k);
      }
    }
    forall k | k in a
      ensures a[k] == b[k]
    {
      assert Find(a, k) == Find(b, k);
    }
  }

  lemma {:induction false} NamedMembers(list: seq<HandleState>, x: string)
    ensures x in Named(list) <==>
            exists j :: 0 <= j < |list| && !ShouldPreserve(list[j]) && list[j].leaseKey == Some(x)
  {
    if list != [] {
      var n := |list| - 1;
      NamedMembers(list[..n], x);
      if x in Named(list[..n]) {
        var j :| 0 <= j < |list[..n]| && !ShouldPreserve(list[..n][j]) && list[..n][j].leaseKey == Some(x);
        assert list[j] == list[..n][j];
      }
      if j :| 0 <= j < |list| && !ShouldPreserve(list[j]) && list[j].leaseKey == Some(x) {
        if j < n {
          assert list[..n][j] == list[j];
        }
      }
    }
  }

  lemma LeasesDropped(before: map<nat, HandleState>, list: seq<HandleState>, session: nat)
    requires HandleKeysMatch(before) && ListsSession(list, before, session)
    ensures Named(list) == DoomedLeases(before, session)
  {
    forall x
      ensures x in Named(list) <==> x in DoomedLeases(before, session)
    {
      NamedMembers(list, x);
      if x in DoomedLeases(before, session) {
        var k :| k in before && Doomed(before[k], session) && before[k].leaseKey.Some? &&
                 before[k].leaseKey.value == x;
        assert before[k] in list;
        var j :| 0 <= j < |list| && list[j] == before[k];
        assert !ShouldPreserve(list[j]) && list[j].leaseKey == Some(x);
      }
      if x in Named(list) {
        var j :| 0 <= j < |list| && !ShouldPreserve(list[j]) && list[j].leaseKey == Some(x);
        assert list[j] in list;
        assert Doomed(before[list[j].persistentId], session);
      }
    }
  }
}
