/**
 The write-through cache in front of the state store: every run of the cached store answers
 like the bare store, whatever is evicted, expires or is invalidated.
 */
module CachedStore {
  import opened Core
  import opened StateTypes

  // ---------- one cached table ----------

  datatype CacheEntry<+V> = CacheEntry(data: V, epoch: nat, cachedAt: nat, ttl: nat) {
    predicate IsExpired(now: nat) {
      now > cachedAt + ttl
    }

    predicate IsStale(currentEpoch: nat) {
      epoch != currentEpoch
    }

    predicate IsValid(currentEpoch: nat, now: nat) {
      !IsExpired(now) && !IsStale(currentEpoch)
    }
  }

  /** A lookup: the data of a valid entry. */
  function CacheGet<K, V>(m: map<K, CacheEntry<V>>, k: K, epoch: nat, now: nat): Option<V> {
    if k in m && m[k].IsValid(epoch, now) then Some(m[k].data) else None
  }

  /** What a lookup leaves behind: an invalid entry is dropped. */
  function AfterGet<K, V>(m: map<K, CacheEntry<V>>, k: K, epoch: nat, now: nat): map<K, CacheEntry<V>> {
    if k in m && !m[k].IsValid(epoch, now) then m - {k} else m
  }

  /** Every entry that is physically present equals the stored record. */
  ghost predicate Mirrors<K, V>(cache: map<K, CacheEntry<V>>, table: map<K, V>) {
    forall k :: k in cache ==> k in table && cache[k].data == table[k]
  }

  lemma GetFromMirror<K, V>(m: map<K, CacheEntry<V>>, table: map<K, V>, k: K, epoch: nat, now: nat)
    requires Mirrors(m, table)
    ensures CacheGet(m, k, epoch, now) != None ==> CacheGet(m, k, epoch, now) == Find(table, k)
    ensures Mirrors(AfterGet(m, k, epoch, now), table)
  {
  }

  lemma PutKeepsMirror<K, V>(m: map<K, CacheEntry<V>>, table: map<K, V>, k: K, e: CacheEntry<V>)
    requires Mirrors(m, table)
    ensures Mirrors(m[k := e], table[k := e.data])
  {
  }

  lemma DropKeepsMirror<K, V>(m: map<K, CacheEntry<V>>, table: map<K, V>, keys: set<K>)
    requires Mirrors(m, table)
    ensures Mirrors(m - keys, table) && Mirrors(m - keys, table - keys)
  {
  }

  // ---------- calls and their answers ----------

  datatype Op =
    | PutSession(session: SessionState)
    | GetSession(sessionId: nat)
    | DeleteSession(sessionId: nat)
    | RefreshSession(sessionId: nat, ttl: nat)
    | ListSessions(userId: Option<string>)
    | PutTree(tree: TreeState)
    | GetTree(sessionId: nat, treeId: nat)
    | DeleteTree(sessionId: nat, treeId: nat)
    | TreesBySession(sessionId: nat)
    | PutHandle(handle: HandleState)
    | GetHandle(persistentId: nat)
    | DeleteHandle(persistentId: nat)
    | HandlesBySession(sessionId: nat)
    | HandlesForFile(shareName: string, path: string)

  datatype Answer =
    | Done
    | SessionFound(session: Option<SessionState>)
    | TreeFound(tree: Option<TreeState>)
    | HandleFound(handle: Option<HandleState>)
    | Sessions(sessions: set<SessionState>)
    | Trees(trees: set<TreeState>)
    | Handles(handles: set<HandleState>)

  /** The store without a cache. */
  function BulkStep(b: Bulk, op: Op, now: nat): (Bulk, Answer) {
    match op
    case PutSession(s) => (b.(sessions := b.sessions[s.sessionId := s]), Done)
    case GetSession(id) => (b, SessionFound(Find(b.sessions, id)))
    case DeleteSession(id) => (b.(sessions := b.sessions - {id}), Done)
    case RefreshSession(id, ttl) => (b.(sessions := Refreshed(b.sessions, id, ttl, now)), Done)
    case ListSessions(user) =>
      (b, Sessions(set k | k in b.sessions && (user.None? || b.sessions[k].userId == user.value) :: b.sessions[k]))
    case PutTree(t) => (b.(trees := b.trees[(t.sessionId, t.treeId) := t]), Done)
    case GetTree(s, t) => (b, TreeFound(Find(b.trees, (s, t))))
    case DeleteTree(s, t) => (b.(trees := b.trees - {(s, t)}), Done)
    case TreesBySession(s) => (b, Trees(set k | k in b.trees && k.0 == s :: b.trees[k]))
    case PutHandle(h) => (b.(handles := b.handles[h.persistentId := h]), Done)
    case GetHandle(id) => (b, HandleFound(Find(b.handles, id)))
    case DeleteHandle(id) => (b.(handles := b.handles - {id}), Done)
    case HandlesBySession(s) =>
      (b, Handles(set k | k in b.handles && b.handles[k].sessionId == s :: b.handles[k]))
    case HandlesForFile(share, path) =>
      (b, Handles(set k | k in b.handles && b.handles[k].shareName == share && b.handles[k].path == path
                        :: b.handles[k]))
  }

  /** The listings, record by record: exactly the stored records with the asked-for fields. */
  lemma Listings(b: Bulk, now: nat, user: Option<string>, session: nat, share: string, path: string,
                 s: SessionState, t: TreeState, h: HandleState)
    requires KeysMatch(b)
    ensures s in BulkStep(b, ListSessions(user), now).1.sessions <==>
            Find(b.sessions, s.sessionId) == Some(s) && (user == None || user == Some(s.userId))
    ensures t in BulkStep(b, TreesBySession(session), now).1.trees <==>
            Find(b.trees, (t.sessionId, t.treeId)) == Some(t) && t.sessionId == session
    ensures h in BulkStep(b, HandlesBySession(session), now).1.handles <==>
            Find(b.handles, h.persistentId) == Some(h) && h.sessionId == session
    ensures h in BulkStep(b, HandlesForFile(share, path), now).1.handles <==>
            Find(b.handles, h.persistentId) == Some(h) && h.shareName == share && h.path == path
  {
  }

  datatype Cache = Cache(
    sessions: map<nat, CacheEntry<SessionState>>,
    trees: map<TreeKey, CacheEntry<TreeState>>,
    handles: map<nat, CacheEntry<HandleState>>,
    epoch: nat,
    ttl: nat)

  /** Without a coordinator there is no cache. */
  datatype Cached = Cached(bulk: Bulk, cache: Option<Cache>)

  function Entry<V>(c: Cache, v: V, now: nat): CacheEntry<V> {
    CacheEntry(v, c.epoch, now, c.ttl)
  }

  /** What a call does to the cache, given the store after the call. */
  function CacheAfter(c: Cache, b: Bulk, op: Op, now: nat): Cache {
    match op
    case PutSession(s) => c.(sessions := c.sessions[s.sessionId := Entry(c, s, now)])
    case GetSession(id) =>
      if CacheGet(c.sessions, id, c.epoch, now).Some? then c
      else
        var looked := AfterGet(c.sessions, id, c.epoch, now);
        if id in b.sessions
        then c.(sessions := looked[b.sessions[id].sessionId := Entry(c, b.sessions[id], now)])
        else c.(sessions := looked)
    case DeleteSession(id) => c.(sessions := c.sessions - {id})
    case RefreshSession(id, _) => c.(sessions := c.sessions - {id})
    case PutTree(t) => c.(trees := c.trees[(t.sessionId, t.treeId) := Entry(c, t, now)])
    case GetTree(s, t) =>
      if CacheGet(c.trees, (s, t), c.epoch, now).Some? then c
      else
        var looked := AfterGet(c.trees, (s, t), c.epoch, now);
        if (s, t) in b.trees
        then
          var tree := b.trees[(s, t)];
          c.(trees := looked[(tree.sessionId, tree.treeId) := Entry(c, tree, now)])
        else c.(trees := looked)
    case DeleteTree(s, t) => c.(trees := c.trees - {(s, t)})
    case PutHandle(h) => c.(handles := c.handles[h.persistentId := Entry(c, h, now)])
    case GetHandle(id) =>
      if CacheGet(c.handles, id, c.epoch, now).Some? then c
      else
        var looked := AfterGet(c.handles, id, c.epoch, now);
        if id in b.handles
        then c.(handles := looked[b.handles[id].persistentId := Entry(c, b.handles[id], now)])
        else c.(handles := looked)
    case DeleteHandle(id) => c.(handles := c.handles - {id})
    case ListSessions(_) => c
    case TreesBySession(_) => c
    case HandlesBySession(_) => c
    case HandlesForFile(_, _) => c
  }

  /** The answer of the cached store: a hit if there is one, else the store's answer. */
  function CachedAnswer(s: Cached, op: Op, now: nat): Answer {
    if s.cache.None? then BulkStep(s.bulk, op, now).1
    else
      var c := s.cache.value;
      match op
      case GetSession(id) =>
        var hit := CacheGet(c.sessions, id, c.epoch, now);
        SessionFound(if hit.Some? then hit else Find(s.bulk.sessions, id))
      case GetTree(session, tree) =>
        var hit := CacheGet(c.trees, (session, tree), c.epoch, now);
        TreeFound(if hit.Some? then hit else Find(s.bulk.trees, (session, tree)))
      case GetHandle(id) =>
        var hit := CacheGet(c.handles, id, c.epoch, now);
        HandleFound(if hit.Some? then hit else Find(s.bulk.handles, id))
      case _ => BulkStep(s.bulk, op, now).1
  }

  function CachedStep(s: Cached, op: Op, now: nat): (Cached, Answer) {
    var b' := BulkStep(s.bulk, op, now).0;
    (Cached(b', if s.cache.None? then None else Some(CacheAfter(s.cache.value, b', op, now))),
     CachedAnswer(s, op, now))
  }

  // ---------- runs with evictions and epoch changes ----------

  datatype Event =
    | Call(op: Op, now: nat)
    /** The LRU policy drops entries. */
    | Evict(sessions: set<nat>, trees: set<TreeKey>, handles: set<nat>)
    | SetEpoch(epoch: nat)
    | InvalidateAll

  function CacheEvent(c: Cache, e: Event): Cache
    requires !e.Call?
  {
    match e
    case Evict(sessions, trees, handles) =>
      c.(sessions := c.sessions - sessions, trees := c.trees - trees, handles := c.handles - handles)
    case SetEpoch(n) => c.(epoch := n)
    case InvalidateAll => c.(epoch := c.epoch + 1)
  }

  function EventStep(s: Cached, e: Event): (Cached, seq<Answer>) {
    if e.Call? then
      var (s', a) := CachedStep(s, e.op, e.now);
      (s', [a])
    else
      (s.(cache := if s.cache.None? then None else Some(CacheEvent(s.cache.value, e))), [])
  }

  function CachedRun(s: Cached, events: seq<Event>): (Cached, seq<Answer>)
    decreases |events|
  {
    if events == [] then (s, [])
    else
      var (s', a) := EventStep(s, events[0]);
      var (s'', rest) := CachedRun(s', events[1..]);
      (s'', a + rest)
  }

  /** The same calls on the bare store. */
  function BulkRun(b: Bulk, events: seq<Event>): (Bulk, seq<Answer>)
    decreases |events|
  {
    if events == [] then (b, [])
    else if !events[0].Call? then BulkRun(b, events[1..])
    else
      var (b', a) := BulkStep(b, events[0].op, events[0].now);
      var (b'', rest) := BulkRun(b', events[1..]);
      (b'', [a] + rest)
  }

  ghost predicate CacheMirrors(c: Cache, b: Bulk) {
    Mirrors(c.sessions, b.sessions) && Mirrors(c.trees, b.trees) && Mirrors(c.handles, b.handles)
  }

  ghost predicate Coherent(s: Cached) {
    KeysMatch(s.bulk) && (s.cache.Some? ==> CacheMirrors(s.cache.value, s.bulk))
  }

  // ---------- coherence of every call ----------

  lemma BulkKeepsKeys(b: Bulk, op: Op, now: nat)
    requires KeysMatch(b)
    ensures KeysMatch(BulkStep(b, op, now).0)
  {
  }

  lemma SessionCallCoherent(c: Cache, b: Bulk, op: Op, now: nat)
    requires CacheMirrors(c, b) && KeysMatch(b)
    requires op.PutSession? || op.GetSession? || op.DeleteSession? || op.RefreshSession?
    ensures CacheMirrors(CacheAfter(c, BulkStep(b, op, now).0, op, now), BulkStep(b, op, now).0)
  {
    match op {
      case PutSession(s) => PutKeepsMirror(c.sessions, b.sessions, s.sessionId, Entry(c, s, now));
      case GetSession(id) =>
        GetFromMirror(c.sessions, b.sessions, id, c.epoch, now);
        if id in b.sessions {
          PutKeepsMirror(AfterGet(c.sessions, id, c.epoch, now), b.sessions, id, Entry(c, b.sessions[id], now));
        }
      case DeleteSession(id) => DropKeepsMirror(c.sessions, b.sessions, {id});
      case RefreshSession(id, ttl) => DropKeepsMirror(c.sessions, b.sessions, {id});
    }
  }

  lemma TreeCallCoherent(c: Cache, b: Bulk, op: Op, now: nat)
    requires CacheMirrors(c, b) && KeysMatch(b)
    requires op.PutTree? || op.GetTree? || op.DeleteTree?
    ensures CacheMirrors(CacheAfter(c, BulkStep(b, op, now).0, op, now), BulkStep(b, op, now).0)
  {
    match op {
      case PutTree(t) => PutKeepsMirror(c.trees, b.trees, (t.sessionId, t.treeId), Entry(c, t, now));
      case GetTree(s, t) =>
        GetFromMirror(c.trees, b.trees, (s, t), c.epoch, now);
        if (s, t) in b.trees {
          PutKeepsMirror(AfterGet(c.trees, (s, t), c.epoch, now), b.trees, (s, t), Entry(c, b.trees[(s, t)], now));
        }
      case DeleteTree(s, t) => DropKeepsMirror(c.trees, b.trees, {(s, t)});
    }
  }

  lemma HandleCallCoherent(c: Cache, b: Bulk, op: Op, now: nat)
    requires CacheMirrors(c, b) && KeysMatch(b)
    requires op.PutHandle? || op.GetHandle? || op.DeleteHandle?
    ensures CacheMirrors(CacheAfter(c, BulkStep(b, op, now).0, op, now), BulkStep(b, op, now).0)
  {
    match op {
      case PutHandle(h) => PutKeepsMirror(c.handles, b.handles, h.persistentId, Entry(c, h, now));
      case GetHandle(id) =>
        GetFromMirror(c.handles, b.handles, id, c.epoch, now);
        if id in b.handles {
          PutKeepsMirror(AfterGet(c.handles, id, c.epoch, now), b.handles, id, Entry(c, b.handles[id], now));
        }
      case DeleteHandle(id) => DropKeepsMirror(c.handles, b.handles, {id});
    }
  }

  /** Each call answers like the bare store and leaves the cache coherent. */
  lemma CallAgrees(s: Cached, op: Op, now: nat)
    requires Coherent(s)
    ensures CachedStep(s, op, now).1 == BulkStep(s.bulk, op, now).1
    ensures CachedStep(s, op, now).0.bulk == BulkStep(s.bulk, op, now).0
    ensures Coherent(CachedStep(s, op, now).0)
  {
    hide Mirrors, KeysMatch, CacheGet, AfterGet;
    BulkKeepsKeys(s.bulk, op, now);
    if s.cache.Some? {
      var c := s.cache.value;
      if op.PutSession? || op.GetSession? || op.DeleteSession? || op.RefreshSession? {
        SessionCallCoherent(c, s.bulk, op, now);
        if op.GetSession? {
          GetFromMirror(c.sessions, s.bulk.sessions, op.sessionId, c.epoch, now);
        }
      } else if op.PutTree? || op.GetTree? || op.DeleteTree? {
        TreeCallCoherent(c, s.bulk, op, now);
        if op.GetTree? {
          GetFromMirror(c.trees, s.bulk.trees, (op.sessionId, op.treeId), c.epoch, now);
        }
      } else if op.PutHandle? || op.GetHandle? || op.DeleteHandle? {
        HandleCallCoherent(c, s.bulk, op, now);
        if op.GetHandle? {
          GetFromMirror(c.handles, s.bulk.handles, op.persistentId, c.epoch, now);
        }
      }
    }
  }

  lemma EventCoherent(s: Cached, e: Event)
    requires Coherent(s) && !e.Call?
    ensures Coherent(EventStep(s, e).0) && EventStep(s, e).0.bulk == s.bulk
  {
  }

  /**
   From any coherent start, every run gives the bare store's answers and leaves the bare
   store's records, for any evictions, any clock and any epoch changes.
   */
  lemma {:induction false} CachedRunAgrees(s: Cached, events: seq<Event>)
    requires Coherent(s)
    ensures CachedRun(s, events).1 == BulkRun(s.bulk, events).1
    ensures CachedRun(s, events).0.bulk == BulkRun(s.bulk, events).0
    ensures Coherent(CachedRun(s, events).0)
    decreases |events|
  {
    hide Coherent, CachedStep, BulkStep;
    if events != [] {
      var e := events[0];
      if e.Call? {
        CallAgrees(s, e.op, e.now);
      } else {
        EventCoherent(s, e);
      }
      CachedRunAgrees(EventStep(s, e).0, events[1..]);
    }
  }
}
