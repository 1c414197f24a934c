/** Persistent session, tree and handle records. */
module StateTypes {
  import opened Core
  import opened Leases

  datatype SessionState = SessionState(
    sessionId: nat, userId: string, sessionKey: seq<byte>, lastAccess: nat, expiresAt: nat)

  datatype TreeState = TreeState(treeId: nat, sessionId: nat, shareName: string)

  datatype HandleState = HandleState(
    persistentId: nat,
    treeId: nat,
    sessionId: nat,
    shareName: string,
    path: string,
    isDurable: bool,
    isPersistent: bool,
    durableTimeout: nat,
    reconnectDeadline: Option<nat>,
    leaseKey: Option<string>)

  type TreeKey = (nat, nat)

  /** The tables of MemoryStateStore that the cache and the session manager use. */
  datatype Bulk = Bulk(
    sessions: map<nat, SessionState>,
    trees: map<TreeKey, TreeState>,
    handles: map<nat, HandleState>,
    leases: LeaseTable)

  /** Every record stands under its own id. */
  ghost predicate KeysMatch(b: Bulk) {
    && (forall k :: k in b.sessions ==> b.sessions[k].sessionId == k)
    && TreeKeysMatch(b.trees)
    && HandleKeysMatch(b.handles)
  }

  ghost predicate TreeKeysMatch(trees: map<TreeKey, TreeState>) {
    forall k :: k in trees ==> (trees[k].sessionId, trees[k].treeId) == k
  }

  ghost predicate HandleKeysMatch(handles: map<nat, HandleState>) {
    forall k :: k in handles ==> handles[k].persistentId == k
  }

  function Find<K, V>(m: map<K, V>, k: K): Option<V> {
    if k in m then Some(m[k]) else None
  }

  function Refreshed(m: map<nat, SessionState>, id: nat, ttl: nat, now: nat): map<nat, SessionState> {
    if id in m then m[id := m[id].(lastAccess := now, expiresAt := now + ttl)] else m
  }

  /** A refresh moves the times of the one session and leaves its other fields and all others alone. */
  lemma RefreshMovesTimes(m: map<nat, SessionState>, id: nat, ttl: nat, now: nat, k: nat)
    ensures Refreshed(m, id, ttl, now).Keys == m.Keys
    ensures k in m && k != id ==> Refreshed(m, id, ttl, now)[k] == m[k]
    ensures id in m ==>
              var s, s' := m[id], Refreshed(m, id, ttl, now)[id];
              && s'.lastAccess == now && s'.expiresAt == now + ttl
              && s'.sessionId == s.sessionId && s'.userId == s.userId && s'.sessionKey == s.sessionKey
  {
  }
}
