/** The local cache and the cached state store as objects. */
module CachedStateStore {
  import opened Core
  import opened StateTypes
  import opened StateStore
  import Spec = CachedStore

  class LocalCache {
    var sessions: map<nat, Spec.CacheEntry<SessionState>>
    var trees: map<TreeKey, Spec.CacheEntry<TreeState>>
    var handles: map<nat, Spec.CacheEntry<HandleState>>
    var currentEpoch: nat
    const ttl: nat

    ghost function State(): Spec.Cache
      reads this
    {
      Spec.Cache(sessions, trees, handles, currentEpoch, ttl)
    }

    constructor (ttl: nat)
      ensures State() == Spec.Cache(map[], map[], map[], 1, ttl)
    {
      sessions, trees, handles, currentEpoch := map[], map[], map[], 1;
      this.ttl := ttl;
    }

    method SetEpoch(epoch: nat)
      modifies this
      ensures State() == Spec.CacheEvent(old(State()), Spec.SetEpoch(epoch))
    {
      currentEpoch := epoch;
    }

    method InvalidateAll()
      modifies this
      ensures State() == Spec.CacheEvent(old(State()), Spec.InvalidateAll)
    {
      currentEpoch := currentEpoch + 1;
    }

    /** The LRU policy drops entries. */
    method Evict(s: set<nat>, t: set<TreeKey>, h: set<nat>)
      modifies this
      ensures State() == Spec.CacheEvent(old(State()), Spec.Evict(s, t, h))
    {
      sessions, trees, handles := sessions - s, trees - t, handles - h;
    }

    method GetSession(id: nat, now: nat) returns (r: Option<SessionState>)
      modifies this`sessions
      ensures r == Spec.CacheGet(old(sessions), id, currentEpoch, now)
      ensures sessions == Spec.AfterGet(old(sessions), id, currentEpoch, now)
    {
      if id !in sessions {
        return None;
      }
      var entry := sessions[id];
      if entry.IsValid(currentEpoch, now) {
        return Some(entry.data);
      }
      sessions := sessions - {id};
      r := None;
    }

    method PutSession(s: SessionState, now: nat)
      modifies this`sessions
      ensures sessions == old(sessions)[s.sessionId := Spec.Entry(old(State()), s, now)]
    {
      var entry := Spec.CacheEntry(s, currentEpoch, now, ttl);
      sessions := sessions[s.sessionId := entry];
    }

    method RemoveSession(id: nat)
      modifies this`sessions
      ensures sessions == old(sessions) - {id}
    {
      sessions := sessions - {id};
    }

    method GetTree(key: TreeKey, now: nat) returns (r: Option<TreeState>)
      modifies this`trees
      ensures r == Spec.CacheGet(old(trees), key, currentEpoch, now)
      ensures trees == Spec.AfterGet(old(trees), key, currentEpoch, now)
    {
      if key !in trees {
        return None;
      }
      var entry := trees[key];
      if entry.IsValid(currentEpoch, now) {
        return Some(entry.data);
      }
      trees := trees - {key};
      r := None;
    }

    method PutTree(t: TreeState, now: nat)
      modifies this`trees
      ensures trees == old(trees)[(t.sessionId, t.treeId) := Spec.Entry(old(State()), t, now)]
    {
      var entry := Spec.CacheEntry(t, currentEpoch, now, ttl);
      trees := trees[(t.sessionId, t.treeId) := entry];
    }

    method RemoveTree(key: TreeKey)
      modifies this`trees
      ensures trees == old(trees) - {key}
    {
      trees := trees - {key};
    }

    method GetHandle(id: nat, now: nat) returns (r: Option<HandleState>)
      modifies this`handles
      ensures r == Spec.CacheGet(old(handles), id, currentEpoch, now)
      ensures handles == Spec.AfterGet(old(handles), id, currentEpoch, now)
    {
      if id !in handles {
        return None;
      }
      var entry := handles[id];
      if entry.IsValid(currentEpoch, now) {
        return Some(entry.data);
      }
      handles := handles - {id};
      r := None;
    }

    method PutHandle(h: HandleState, now: nat)
      modifies this`handles
      ensures handles == old(handles)[h.persistentId := Spec.Entry(old(State()), h, now)]
    {
      var entry := Spec.CacheEntry(h, currentEpoch, now, ttl);
      handles := handles[h.persistentId := entry];
    }

    method RemoveHandle(id: nat)
      modifies this`handles
      ensures handles == old(handles) - {id}
    {
      handles := handles - {id};
    }
  }

  class Store {
    const cache: LocalCache?
    const bulk: MemoryStateStore

    ghost function State(): Spec.Cached
      reads this, cache, bulk
    {
      Spec.Cached(bulk.State(), if cache == null then None else Some(cache.State()))
    }

    constructor (bulk: MemoryStateStore, cache: LocalCache?)
      ensures this.bulk == bulk && this.cache == cache
    {
      this.bulk := bulk;
      this.cache := cache;
    }

    /** create_session and update_session: the store first, then the cache. */
    method PutSession(s: SessionState, now: nat)
      modifies cache, bulk
      ensures State() == Spec.CachedStep(old(State()), Spec.PutSession(s), now).0
    {
      bulk.PutSession(s);
      if cache != null {
        cache.PutSession(s, now);
      }
    }

    method GetSession(id: nat, now: nat) returns (r: Option<SessionState>)
      modifies cache
      ensures (State(), Spec.SessionFound(r)) == Spec.CachedStep(old(State()), Spec.GetSession(id), now)
    {
      if cache != null {
        var hit := cache.GetSession(id, now);
        if hit.Some? {
          return hit;
        }
      }
      r := bulk.GetSession(id);
      if r.Some? && cache != null {
        cache.PutSession(r.value, now);
      }
    }

    method DeleteSession(id: nat, now: nat)
      modifies cache, bulk
      ensures State() == Spec.CachedStep(old(State()), Spec.DeleteSession(id), now).0
    {
      bulk.DeleteSession(id);
      if cache != null {
        cache.RemoveSession(id);
      }
    }

    method RefreshSession(id: nat, ttl: nat, now: nat)
      modifies cache, bulk
      ensures State() == Spec.CachedStep(old(State()), Spec.RefreshSession(id, ttl), now).0
    {
      bulk.RefreshSession(id, ttl, now);
      if cache != null {
        cache.RemoveSession(id);
      }
    }

    method PutTree(t: TreeState, now: nat)
      modifies cache, bulk
      ensures State() == Spec.CachedStep(old(State()), Spec.PutTree(t), now).0
    {
      bulk.PutTree(t);
      if cache != null {
        cache.PutTree(t, now);
      }
    }

    method GetTree(session: nat, tree: nat, now: nat) returns (r: Option<TreeState>)
      modifies cache
      ensures (State(), Spec.TreeFound(r)) == Spec.CachedStep(old(State()), Spec.GetTree(session, tree), now)
    {
      if cache != null {
        var hit := cache.GetTree((session, tree), now);
        if hit.Some? {
          return hit;
        }
      }
      r := bulk.GetTree(session, tree);
      if r.Some? && cache != null {
        cache.PutTree(r.value, now);
      }
    }

    method DeleteTree(session: nat, tree: nat, now: nat)
      modifies cache, bulk
      ensures State() == Spec.CachedStep(old(State()), Spec.DeleteTree(session, tree), now).0
    {
      bulk.DeleteTree(session, tree);
      if cache != null {
        cache.RemoveTree((session, tree));
      }
    }

    /** create_handle and update_handle. */
    method PutHandle(h: HandleState, now: nat)
      modifies cache, bulk
      ensures State() == Spec.CachedStep(old(State()), Spec.PutHandle(h), now).0
    {
      bulk.PutHandle(h);
      if cache != null {
        cache.PutHandle(h, now);
      }
    }

    method GetHandle(id: nat, now: nat) returns (r: Option<HandleState>)
      modifies cache
      ensures (State(), Spec.HandleFound(r)) == Spec.CachedStep(old(State()), Spec.GetHandle(id), now)
    {
      if cache != null {
        var hit := cache.GetHandle(id, now);
        if hit.Some? {
          return hit;
        }
      }
      r := bulk.GetHandle(id);
      if r.Some? && cache != null {
        cache.PutHandle(r.value, now);
      }
    }

    method DeleteHandle(id: nat, now: nat)
      modifies cache, bulk
      ensures State() == Spec.CachedStep(old(State()), Spec.DeleteHandle(id), now).0
    {
      bulk.DeleteHandle(id);
      if cache != null {
        cache.RemoveHandle(id);
      }
    }
  }
}
