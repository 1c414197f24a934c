/**
 How long the cache answers: from the call that cached a record until its lifetime ends, the
 epoch changes, the entry is evicted or another call names the record.
 */
module CacheLifetimes {
  import opened Core
  import opened StateTypes
  import opened CachedStore

  /** A record of one of the three cached tables. */
  datatype Item = SessionItem(sessionId: nat) | TreeItem(key: TreeKey) | HandleItem(persistentId: nat)

  /** What a cache entry holds, with the record as the store would answer it. */
  datatype Stamp = Stamp(answer: Answer, epoch: nat, cachedAt: nat, ttl: nat)

  function StampOf(c: Cache, item: Item): Option<Stamp> {
    match item
    case SessionItem(id) =>
      if id in c.sessions then
        var e := c.sessions[id]; Some(Stamp(SessionFound(Some(e.data)), e.epoch, e.cachedAt, e.ttl))
      else None
    case TreeItem(k) =>
      if k in c.trees then
        var e := c.trees[k]; Some(Stamp(TreeFound(Some(e.data)), e.epoch, e.cachedAt, e.ttl))
      else None
    case HandleItem(id) =>
      if id in c.handles then
        var e := c.handles[id]; Some(Stamp(HandleFound(Some(e.data)), e.epoch, e.cachedAt, e.ttl))
      else None
  }

  /** The store's answer to a lookup of the item. */
  function Stored(b: Bulk, item: Item): Answer {
    match item
    case SessionItem(id) => SessionFound(Find(b.sessions, id))
    case TreeItem(k) => TreeFound(Find(b.trees, k))
    case HandleItem(id) => HandleFound(Find(b.handles, id))
  }

  predicate IsStored(b: Bulk, item: Item) {
    match item
    case SessionItem(id) => id in b.sessions
    case TreeItem(k) => k in b.trees
    case HandleItem(id) => id in b.handles
  }

  /** The cache's own answer to a lookup. */
  function Hit(c: Cache, item: Item, now: nat): Option<Answer> {
    match item
    case SessionItem(id) =>
      var hit := CacheGet(c.sessions, id, c.epoch, now); if hit.Some? then Some(SessionFound(hit)) else None
    case TreeItem(k) =>
      var hit := CacheGet(c.trees, k, c.epoch, now); if hit.Some? then Some(TreeFound(hit)) else None
    case HandleItem(id) =>
      var hit := CacheGet(c.handles, id, c.epoch, now); if hit.Some? then Some(HandleFound(hit)) else None
  }

  /** The record a call is about; listings are about none. */
  function Named(op: Op): Option<Item> {
    match op
    case PutSession(s) => Some(SessionItem(s.sessionId))
    case GetSession(id) => Some(SessionItem(id))
    case DeleteSession(id) => Some(SessionItem(id))
    case RefreshSession(id, _) => Some(SessionItem(id))
    case PutTree(t) => Some(TreeItem((t.sessionId, t.treeId)))
    case GetTree(s, t) => Some(TreeItem((s, t)))
    case DeleteTree(s, t) => Some(TreeItem((s, t)))
    case PutHandle(h) => Some(HandleItem(h.persistentId))
    case GetHandle(id) => Some(HandleItem(id))
    case DeleteHandle(id) => Some(HandleItem(id))
    case _ => None
  }

  predicate IsPut(op: Op) {
    op.PutSession? || op.PutTree? || op.PutHandle?
  }

  predicate IsGet(op: Op) {
    op.GetSession? || op.GetTree? || op.GetHandle?
  }

  /** A hit is a stamp of the current epoch that is not older than its lifetime. */
  lemma HitExactly(c: Cache, item: Item, now: nat)
    ensures Hit(c, item, now) ==
            match StampOf(c, item)
            case None => None
            case Some(st) => if st.epoch == c.epoch && now <= st.cachedAt + st.ttl then Some(st.answer) else None
  {
  }

  function Lookup(item: Item): Op {
    match item
    case SessionItem(id) => GetSession(id)
    case TreeItem(k) => GetTree(k.0, k.1)
    case HandleItem(id) => GetHandle(id)
  }

  /** A lookup is answered by the cache if that has a hit, even one the store would not give, and else by the store. */
  lemma LookupAnswer(s: Cached, item: Item, now: nat)
    ensures CachedStep(s, Lookup(item), now).1 ==
            if s.cache.Some? && Hit(s.cache.value, item, now).Some? then Hit(s.cache.value, item, now).value
            else Stored(s.bulk, item)
  {
  }

  // ---------- one event ----------

  /** The event leaves the entry of the item and the epoch alone. */
  predicate Passes(e: Event, item: Item) {
    match e
    case Call(op, _) => Named(op) != Some(item)
    case Evict(sessions, trees, handles) =>
      (match item
       case SessionItem(id) => id !in sessions
       case TreeItem(k) => k !in trees
       case HandleItem(id) => id !in handles)
    case SetEpoch(_) => false
    case InvalidateAll => false
  }

  lemma OtherCallKeepsStamp(c: Cache, b: Bulk, op: Op, now: nat, item: Item)
    requires KeysMatch(b) && Named(op) != Some(item)
    ensures StampOf(CacheAfter(c, b, op, now), item) == StampOf(c, item)
  {
  }

  lemma CallKeepsEpoch(c: Cache, b: Bulk, op: Op, now: nat)
    ensures CacheAfter(c, b, op, now).epoch == c.epoch && CacheAfter(c, b, op, now).ttl == c.ttl
  {
  }

  lemma PassingKeepsStamp(s: Cached, e: Event, item: Item)
    requires Coherent(s) && s.cache.Some? && Passes(e, item)
    ensures var s' := EventStep(s, e).0;
            && Coherent(s') && s'.cache.Some?
            && StampOf(s'.cache.value, item) == StampOf(s.cache.value, item)
            && s'.cache.value.epoch == s.cache.value.epoch && s'.cache.value.ttl == s.cache.value.ttl
  {
    if e.Call? {
      hide CacheAfter, BulkStep, Passes, StampOf;
      CallAgrees(s, e.op, e.now);
      assert Named(e.op) != Some(item) by { NamesAnother(e, item); }
      OtherCallKeepsStamp(s.cache.value, BulkStep(s.bulk, e.op, e.now).0, e.op, e.now, item);
      CallKeepsEpoch(s.cache.value, BulkStep(s.bulk, e.op, e.now).0, e.op, e.now);
    } else {
      EventCoherent(s, e);
    }
  }

  lemma NamesAnother(e: Event, item: Item)
    requires e.Call? && Passes(e, item)
    ensures Named(e.op) != Some(item)
  {
  }

  /** What the cache holds of the item after a call that names it. */
  lemma NamingCall(s: Cached, op: Op, t: nat, item: Item)
    requires Coherent(s) && s.cache.Some? && Named(op) == Some(item)
    ensures var s' := CachedStep(s, op, t).0;
            var c, c' := s.cache.value, CacheAfter(s.cache.value, s'.bulk, op, t);
            && s'.cache == Some(c')
            && (IsPut(op) || (IsGet(op) && Hit(c, item, t).None? && IsStored(s.bulk, item)) ==>
                  IsStored(s'.bulk, item) && StampOf(c', item) == Some(Stamp(Stored(s'.bulk, item), c.epoch, t, c.ttl)))
            && (IsGet(op) && Hit(c, item, t).None? && !IsStored(s.bulk, item) ==> StampOf(c', item) == None)
            && (IsGet(op) && Hit(c, item, t).Some? ==> StampOf(c', item) == StampOf(c, item))
            && (!IsPut(op) && !IsGet(op) ==> StampOf(c', item) == None)
  {
  }

  // ---------- a record is answered from the cache exactly for its lifetime ----------

  lemma {:induction false} StampStays(s: Cached, events: seq<Event>, item: Item)
    requires Coherent(s) && s.cache.Some? && forall i :: 0 <= i < |events| ==> Passes(events[i], item)
    ensures var s' := CachedRun(s, events).0;
            && Coherent(s') && s'.cache.Some?
            && StampOf(s'.cache.value, item) == StampOf(s.cache.value, item)
            && s'.cache.value.epoch == s.cache.value.epoch
    decreases |events|
  {
    hide EventStep, Coherent, StampOf, Passes;
    if events != [] {
      PassingKeepsStamp(s, events[0], item);
      StampStays(EventStep(s, events[0]).0, events[1..], item);
    }
  }

  /**
   A record that is stored, or read from the store, at time `t` is answered from the cache up to
   `t` plus the lifetime and no longer, as long as no call names it again, it is not evicted and
   the epoch does not change.
   */
  lemma CachedForItsLifetime(s: Cached, op: Op, t: nat, item: Item, events: seq<Event>, now: nat)
    requires Coherent(s) && s.cache.Some? && Named(op) == Some(item)
    requires IsPut(op) || (IsGet(op) && Hit(s.cache.value, item, t).None? && IsStored(s.bulk, item))
    requires forall i :: 0 <= i < |events| ==> Passes(events[i], item)
    ensures var s1 := CachedStep(s, op, t).0;
            var s2 := CachedRun(s1, events).0;
            && s2.cache.Some?
            && Hit(s2.cache.value, item, now) ==
               if now <= t + s.cache.value.ttl then Some(Stored(s1.bulk, item)) else None
  {
    hide CachedStep, CacheAfter, Coherent, StampOf, Passes, Hit, Stored, IsStored;
    CallAgrees(s, op, t);
    NamingCall(s, op, t, item);
    var s1 := CachedStep(s, op, t).0;
    CallKeepsEpoch(s.cache.value, s1.bulk, op, t);
    StampStays(s1, events, item);
    HitExactly(CachedRun(s1, events).0.cache.value, item, now);
  }

  // ---------- no hit is older than the lifetime ----------

  /** A stamp comes from a call of the run that named the item, and has the cache's lifetime. */
  ghost predicate Stamped(c: Cache, ttl: nat, past: seq<Event>, item: Item) {
    && c.ttl == ttl
    && (StampOf(c, item).Some? ==>
          StampOf(c, item).value.ttl == ttl && CalledAt(past, item, StampOf(c, item).value.cachedAt))
  }

  ghost predicate CalledAt(past: seq<Event>, item: Item, t: nat) {
    exists i :: 0 <= i < |past| && past[i].Call? && past[i].now == t && Named(past[i].op) == Some(item)
  }

  lemma CalledBefore(past: seq<Event>, e: Event, item: Item, t: nat)
    requires CalledAt(past, item, t) || (e.Call? && e.now == t && Named(e.op) == Some(item))
    ensures CalledAt(past + [e], item, t)
  {
    var all := past + [e];
    if i :| 0 <= i < |past| && past[i].Call? && past[i].now == t && Named(past[i].op) == Some(item) {
      assert all[i] == past[i];
    } else {
      assert all[|past|] == e;
    }
  }

  lemma EventStamped(s: Cached, e: Event, ttl: nat, past: seq<Event>, item: Item)
    requires Coherent(s) && s.cache.Some? && Stamped(s.cache.value, ttl, past, item)
    ensures var s' := EventStep(s, e).0;
            Coherent(s') && s'.cache.Some? && Stamped(s'.cache.value, ttl, past + [e], item)
  {
    hide Coherent, CalledAt, Hit, Stored, IsStored, Passes, CacheAfter, BulkStep;
    if e.Call? {
      CallAgrees(s, e.op, e.now);
      CallKeepsEpoch(s.cache.value, BulkStep(s.bulk, e.op, e.now).0, e.op, e.now);
      if Named(e.op) == Some(item) {
        hide StampOf;
        NamingCall(s, e.op, e.now, item);
        CalledBefore(past, e, item, e.now);
      } else {
        hide StampOf;
        CoherentKeys(EventStep(s, e).0);
        OtherCallKeepsStamp(s.cache.value, BulkStep(s.bulk, e.op, e.now).0, e.op, e.now, item);
      }
    } else {
      EventCoherent(s, e);
    }
    if StampOf(s.cache.value, item).Some? {
      CalledBefore(past, e, item, StampOf(s.cache.value, item).value.cachedAt);
    }
  }

  lemma CoherentKeys(s: Cached)
    requires Coherent(s)
    ensures KeysMatch(s.bulk)
  {
  }

  lemma {:induction false} RunStamped(s: Cached, events: seq<Event>, ttl: nat, past: seq<Event>, item: Item)
    requires Coherent(s) && s.cache.Some? && Stamped(s.cache.value, ttl, past, item)
    ensures var s' := CachedRun(s, events).0;
            s'.cache.Some? && Stamped(s'.cache.value, ttl, past + events, item)
    decreases |events|
  {
    hide EventStep, Coherent, Stamped;
    if events == [] {
      assert past + events == past;
    } else {
      EventStamped(s, events[0], ttl, past, item);
      RunStamped(EventStep(s, events[0]).0, events[1..], ttl, past + [events[0]], item);
      assert past + [events[0]] + events[1..] == past + events;
    }
  }

  /** In every run of a cached store that starts empty, a hit comes at most a lifetime after a call for it. */
  lemma NoHitOutlivesItsTtl(b: Bulk, ttl: nat, epoch: nat, events: seq<Event>, item: Item, now: nat)
    requires KeysMatch(b)
    ensures var s := CachedRun(Cached(b, Some(Cache(map[], map[], map[], epoch, ttl))), events).0;
            && s.cache.Some?
            && (Hit(s.cache.value, item, now).Some? ==>
                  exists i :: 0 <= i < |events| && events[i].Call? && Named(events[i].op) == Some(item) &&
                              now <= events[i].now + ttl)
  {
    var s0 := Cached(b, Some(Cache(map[], map[], map[], epoch, ttl)));
    RunStamped(s0, events, ttl, [], item);
    hide StampOf, Hit, CachedRun;
    var c := CachedRun(s0, events).0.cache.value;
    assert [] + events == events;
    HitExactly(c, item, now);
    if Hit(c, item, now).Some? {
      var i :| 0 <= i < |events| && events[i].Call? && events[i].now == StampOf(c, item).value.cachedAt &&
               Named(events[i].op) == Some(item);
    }
  }
}
