/**
 Epochs of the local cache.  Each change of the epoch, by the epoch listener or the failure
 listener, is meant to make everything cached before it unreachable.
 */
module CacheEpochs {
  import opened Core
  import opened StateTypes
  import opened CachedStore

  /** An entry with the number of epoch changes that had happened when it was cached. */
  datatype Tagged<+V> = Tagged(entry: CacheEntry<V>, born: nat)

  /** A cached table with every value the epoch has had, the current one last. */
  datatype Line<K, V> = Line(table: map<K, Tagged<V>>, epochs: seq<nat>, ttl: nat)

  datatype Step<K, V> =
    | Put(key: K, value: V, now: nat)
    | Drop(keys: set<K>)
    /** set_epoch(n) */
    | Set(epoch: nat)
    /** invalidate_all */
    | Bump

  function Current<K, V>(l: Line<K, V>): nat
    requires l.epochs != []
  {
    l.epochs[|l.epochs| - 1]
  }

  function Apply<K, V>(l: Line<K, V>, step: Step<K, V>): (r: Line<K, V>)
    requires l.epochs != []
    ensures r.epochs != []
  {
    match step
    case Put(k, v, now) =>
      l.(table := l.table[k := Tagged(CacheEntry(v, Current(l), now, l.ttl), |l.epochs| - 1)])
    case Drop(keys) => l.(table := l.table - keys)
    case Set(n) => l.(epochs := l.epochs + [n])
    case Bump => l.(epochs := l.epochs + [Current(l) + 1])
  }

  function Run<K, V>(l: Line<K, V>, steps: seq<Step<K, V>>): (r: Line<K, V>)
    requires l.epochs != []
    ensures r.epochs != []
    decreases |steps|
  {
    if steps == [] then l else Run(Apply(l, steps[0]), steps[1..])
  }

  /** A fresh cache: epoch 1 and nothing cached. */
  function Fresh<K, V>(ttl: nat): Line<K, V> {
    Line(map[], [1], ttl)
  }

  /** A lookup at this moment would return an entry cached before the last epoch change. */
  ghost predicate StaleHit<K, V>(l: Line<K, V>, k: K, now: nat)
    requires l.epochs != []
  {
    k in l.table && l.table[k].entry.IsValid(Current(l), now) && l.table[k].born < |l.epochs| - 1
  }

  /** The epoch has returned to a value it held before. */
  predicate EpochReturned(epochs: seq<nat>)
    requires epochs != []
  {
    epochs[|epochs| - 1] in epochs[..|epochs| - 1]
  }

  /** Entries carry the epoch of the moment they were cached. */
  ghost predicate TagsMatch<K, V>(l: Line<K, V>) {
    l.epochs != [] &&
    forall k :: k in l.table ==>
      l.table[k].born < |l.epochs| && l.table[k].entry.epoch == l.epochs[l.table[k].born]
  }

  lemma {:induction false} RunTagsMatch<K, V>(l: Line<K, V>, steps: seq<Step<K, V>>)
    requires TagsMatch(l)
    ensures TagsMatch(Run(l, steps))
    decreases |steps|
  {
    if steps != [] {
      RunTagsMatch(Apply(l, steps[0]), steps[1..]);
    }
  }

  /** As long as the epoch has not returned, no lookup reaches behind the last epoch change. */
  lemma NoStaleHit<K, V>(ttl: nat, steps: seq<Step<K, V>>, k: K, now: nat)
    requires !EpochReturned(Run(Fresh<K, V>(ttl), steps).epochs)
    ensures !StaleHit(Run(Fresh<K, V>(ttl), steps), k, now)
  {
    var l := Run(Fresh<K, V>(ttl), steps);
    RunTagsMatch(Fresh<K, V>(ttl), steps);
    if k in l.table && l.table[k].born < |l.epochs| - 1 {
      var born := l.table[k].born;
      assert l.epochs[..|l.epochs| - 1][born] == l.epochs[born];
    }
  }

  // ---------- the premise is needed ----------

  predicate IsChange<K, V>(step: Step<K, V>) {
    step.Set? || step.Bump?
  }

  predicate AreChanges<K, V>(steps: seq<Step<K, V>>) {
    forall i :: 0 <= i < |steps| ==> IsChange(steps[i])
  }

  /** The epoch changes of a run, in order. */
  function ChangesOf<K, V>(steps: seq<Step<K, V>>): seq<Step<K, V>> {
    if steps == [] then []
    else if IsChange(steps[0]) then [steps[0]] + ChangesOf(steps[1..])
    else ChangesOf(steps[1..])
  }

  lemma {:induction false} RunConcat<K, V>(l: Line<K, V>, a: seq<Step<K, V>>, b: seq<Step<K, V>>)
    requires l.epochs != []
    ensures Run(l, a + b) == Run(Run(l, a), b)
    decreases |a|
  {
    if a == [] {
      assert a + b == b;
    } else {
      assert (a + b)[1..] == a[1..] + b;
      RunConcat(Apply(l, a[0]), a[1..], b);
    }
  }

  /** The epochs of a run come from its changes alone. */
  lemma {:induction false} ChangesGiveEpochs<K, V>(l: Line<K, V>, l': Line<K, V>, steps: seq<Step<K, V>>)
    requires l.epochs == l'.epochs != []
    ensures Run(l, steps).epochs == Run(l', ChangesOf(steps)).epochs
    decreases |steps|
  {
    if steps != [] {
      if IsChange(steps[0]) {
        ChangesGiveEpochs(Apply(l, steps[0]), Apply(l', steps[0]), steps[1..]);
        assert ChangesOf(steps)[1..] == ChangesOf(steps[1..]);
      } else {
        ChangesGiveEpochs(Apply(l, steps[0]), l', steps[1..]);
      }
    }
  }

  /** Changes leave the table alone and add one epoch each. */
  lemma {:induction false} RunChanges<K, V>(l: Line<K, V>, changes: seq<Step<K, V>>)
    requires l.epochs != [] && AreChanges(changes)
    ensures Run(l, changes).table == l.table && Run(l, changes).ttl == l.ttl
    ensures |Run(l, changes).epochs| == |l.epochs| + |changes| && l.epochs <= Run(l, changes).epochs
    ensures ChangesOf(changes) == changes
    decreases |changes|
  {
    if changes != [] {
      RunChanges(Apply(l, changes[0]), changes[1..]);
    }
  }

  lemma {:induction false} ChangesConcat<K, V>(a: seq<Step<K, V>>, b: seq<Step<K, V>>)
    ensures ChangesOf(a + b) == ChangesOf(a) + ChangesOf(b)
  {
    if a == [] {
      assert a + b == b;
    } else {
      ChangesConcat(a[1..], b);
      assert (a + b)[1..] == a[1..] + b;
    }
  }

  /** The same changes, with an entry cached after the first `i` of them. */
  function StaleRun<K, V>(changes: seq<Step<K, V>>, i: nat, k: K, v: V): seq<Step<K, V>>
    requires i <= |changes|
  {
    changes[..i] + ([Put(k, v, 0)] + changes[i..])
  }

  lemma StaleRunChanges<K, V>(changes: seq<Step<K, V>>, i: nat, k: K, v: V)
    requires AreChanges(changes) && i <= |changes|
    ensures ChangesOf(StaleRun(changes, i, k, v)) == changes
  {
    var l := Fresh<K, V>(0);
    RunChanges(l, changes[..i]);
    RunChanges(l, changes[i..]);
    ChangesConcat(changes[..i], [Put(k, v, 0)] + changes[i..]);
    assert ([Step<K, V>.Put(k, v, 0)] + changes[i..])[1..] == changes[i..];
    assert changes[..i] + changes[i..] == changes;
  }

  lemma StaleRunHits<K, V>(ttl: nat, changes: seq<Step<K, V>>, i: nat, k: K, v: V)
    requires AreChanges(changes) && i < |changes|
    requires var epochs := Run(Fresh<K, V>(ttl), changes).epochs;
             |epochs| == |changes| + 1 && epochs[i] == epochs[|changes|]
    ensures StaleHit(Run(Fresh<K, V>(ttl), StaleRun(changes, i, k, v)), k, 0)
  {
    hide Run, ChangesOf;
    var l, put := Fresh<K, V>(ttl), Step<K, V>.Put(k, v, 0);
    var run := StaleRun(changes, i, k, v);
    var l1 := Run(l, changes[..i]);
    RunChanges(l, changes[..i]);
    RunConcat(l, changes[..i], [put] + changes[i..]);
    RunConcat(l1, [put], changes[i..]);
    RunOne(l1, put);
    RunChanges(Apply(l1, put), changes[i..]);
    RunConcat(l, changes[..i], changes[i..]);
    assert changes[..i] + changes[i..] == changes;
    RunChanges(l1, changes[i..]);
    ChangesGiveEpochs(l, l, run);
    StaleRunChanges(changes, i, k, v);
    RunChanges(l, changes);
  }

  /**
   Exactly when the epoch protects: among all runs with given epoch changes there is a stale
   hit if and only if the last epoch occurred before.
   */
  lemma StaleHitIffEpochReturned<K, V>(ttl: nat, changes: seq<Step<K, V>>, k: K, v: V)
    requires AreChanges(changes)
    ensures (exists steps: seq<Step<K, V>>, now: nat ::
               ChangesOf(steps) == changes && StaleHit(Run(Fresh<K, V>(ttl), steps), k, now)) <==>
            EpochReturned(Run(Fresh<K, V>(ttl), changes).epochs)
  {
    hide Run, StaleHit;
    var l := Fresh<K, V>(ttl);
    var epochs := Run(l, changes).epochs;
    RunChanges(l, changes);
    if EpochReturned(epochs) {
      var i :| 0 <= i < |epochs[..|epochs| - 1]| && epochs[..|epochs| - 1][i] == epochs[|epochs| - 1];
      StaleRunHits(ttl, changes, i, k, v);
      StaleRunChanges(changes, i, k, v);
    } else {
      forall steps: seq<Step<K, V>>, now: nat | ChangesOf(steps) == changes
        ensures !StaleHit(Run(l, steps), k, now)
      {
        ChangesGiveEpochs(l, l, steps);
        NoStaleHit(ttl, steps, k, now);
      }
    }
  }

  // ---------- the tables of the cached store ----------

  /** A cached table with its epoch is the line `l`, seen without the tags. */
  ghost predicate IsLine<K, V>(m: map<K, CacheEntry<V>>, epoch: nat, ttl: nat, l: Line<K, V>) {
    && l.epochs != [] && Current(l) == epoch && l.ttl == ttl
    && m.Keys == l.table.Keys
    && forall k :: k in m ==> l.table[k].entry == m[k]
  }

  /** What one call does to a table, as steps of its line. */
  function MissSteps<K, V>(found: Option<V>, home: K, k: K, now: nat): seq<Step<K, V>> {
    [Drop({k})] + if found.Some? then [Put(home, found.value, now)] else []
  }

  function SessionSteps(c: Cache, b: Bulk, op: Op, now: nat): seq<Step<nat, SessionState>> {
    match op
    case PutSession(s) => [Put(s.sessionId, s, now)]
    case GetSession(id) =>
      if CacheGet(c.sessions, id, c.epoch, now).Some? then []
      else MissSteps(Find(b.sessions, id), if id in b.sessions then b.sessions[id].sessionId else id, id, now)
    case DeleteSession(id) => [Drop({id})]
    case RefreshSession(id, _) => [Drop({id})]
    case _ => []
  }

  function TreeSteps(c: Cache, b: Bulk, op: Op, now: nat): seq<Step<TreeKey, TreeState>> {
    match op
    case PutTree(t) => [Put((t.sessionId, t.treeId), t, now)]
    case GetTree(s, t) =>
      if CacheGet(c.trees, (s, t), c.epoch, now).Some? then []
      else
        MissSteps(Find(b.trees, (s, t)),
                  if (s, t) in b.trees then (b.trees[(s, t)].sessionId, b.trees[(s, t)].treeId) else (s, t),
                  (s, t), now)
    case DeleteTree(s, t) => [Drop({(s, t)})]
    case _ => []
  }

  function HandleSteps(c: Cache, b: Bulk, op: Op, now: nat): seq<Step<nat, HandleState>> {
    match op
    case PutHandle(h) => [Put(h.persistentId, h, now)]
    case GetHandle(id) =>
      if CacheGet(c.handles, id, c.epoch, now).Some? then []
      else MissSteps(Find(b.handles, id), if id in b.handles then b.handles[id].persistentId else id, id, now)
    case DeleteHandle(id) => [Drop({id})]
    case _ => []
  }

  lemma RunOne<K, V>(l: Line<K, V>, step: Step<K, V>)
    requires l.epochs != []
    ensures Run(l, [step]) == Apply(l, step)
  {
  }

  lemma MissIsLine<K, V>(m: map<K, CacheEntry<V>>, epoch: nat, ttl: nat, l: Line<K, V>, found: Option<V>, home: K,
                         k: K, now: nat)
    requires IsLine(m, epoch, ttl, l) && CacheGet(m, k, epoch, now).None?
    ensures var looked := AfterGet(m, k, epoch, now);
            IsLine(if found.Some? then looked[home := CacheEntry(found.value, epoch, now, ttl)] else looked,
                   epoch, ttl, Run(l, MissSteps(found, home, k, now)))
  {
    var l' := Apply(l, Step<K, V>.Drop({k}));
    RunOne(l, Step<K, V>.Drop({k}));
    assert AfterGet(m, k, epoch, now) == m - {k};
    assert IsLine(m - {k}, epoch, ttl, l');
    if found.Some? {
      RunConcat(l, [Step<K, V>.Drop({k})], [Put(home, found.value, now)]);
      RunOne(l', Step<K, V>.Put(home, found.value, now));
    } else {
      assert MissSteps(found, home, k, now) == [Drop({k})];
    }
  }

  /** The three tables of the cache, as lines. */
  datatype Lines = Lines(
    sessions: Line<nat, SessionState>, trees: Line<TreeKey, TreeState>, handles: Line<nat, HandleState>)

  ghost predicate AreLines(c: Cache, ls: Lines) {
    && IsLine(c.sessions, c.epoch, c.ttl, ls.sessions)
    && IsLine(c.trees, c.epoch, c.ttl, ls.trees)
    && IsLine(c.handles, c.epoch, c.ttl, ls.handles)
    && ls.sessions.epochs == ls.trees.epochs == ls.handles.epochs
  }

  lemma SessionsStayLine(c: Cache, b: Bulk, op: Op, now: nat, l: Line<nat, SessionState>)
    requires IsLine(c.sessions, c.epoch, c.ttl, l)
    ensures IsLine(CacheAfter(c, b, op, now).sessions, c.epoch, c.ttl, Run(l, SessionSteps(c, b, op, now)))
  {
    hide CacheGet, AfterGet;
    match op {
      case PutSession(s) => RunOne(l, Step<nat, SessionState>.Put(s.sessionId, s, now));
      case GetSession(id) =>
        if CacheGet(c.sessions, id, c.epoch, now).None? {
          MissIsLine(c.sessions, c.epoch, c.ttl, l, Find(b.sessions, id),
                     if id in b.sessions then b.sessions[id].sessionId else id, id, now);
        }
      case DeleteSession(id) => RunOne(l, Step<nat, SessionState>.Drop({id}));
      case RefreshSession(id, _) => RunOne(l, Step<nat, SessionState>.Drop({id}));
      case _ =>
    }
  }

  lemma TreesStayLine(c: Cache, b: Bulk, op: Op, now: nat, l: Line<TreeKey, TreeState>)
    requires IsLine(c.trees, c.epoch, c.ttl, l)
    ensures IsLine(CacheAfter(c, b, op, now).trees, c.epoch, c.ttl, Run(l, TreeSteps(c, b, op, now)))
  {
    hide CacheGet, AfterGet;
    match op {
      case PutTree(t) => RunOne(l, Step<TreeKey, TreeState>.Put((t.sessionId, t.treeId), t, now));
      case GetTree(s, t) =>
        if CacheGet(c.trees, (s, t), c.epoch, now).None? {
          MissIsLine(c.trees, c.epoch, c.ttl, l, Find(b.trees, (s, t)),
                     if (s, t) in b.trees then (b.trees[(s, t)].sessionId, b.trees[(s, t)].treeId) else (s, t),
                     (s, t), now);
        }
      case DeleteTree(s, t) => RunOne(l, Step<TreeKey, TreeState>.Drop({(s, t)}));
      case _ =>
    }
  }

  lemma HandlesStayLine(c: Cache, b: Bulk, op: Op, now: nat, l: Line<nat, HandleState>)
    requires IsLine(c.handles, c.epoch, c.ttl, l)
    ensures IsLine(CacheAfter(c, b, op, now).handles, c.epoch, c.ttl, Run(l, HandleSteps(c, b, op, now)))
  {
    hide CacheGet, AfterGet;
    match op {
      case PutHandle(h) => RunOne(l, Step<nat, HandleState>.Put(h.persistentId, h, now));
      case GetHandle(id) =>
        if CacheGet(c.handles, id, c.epoch, now).None? {
          MissIsLine(c.handles, c.epoch, c.ttl, l, Find(b.handles, id),
                     if id in b.handles then b.handles[id].persistentId else id, id, now);
        }
      case DeleteHandle(id) => RunOne(l, Step<nat, HandleState>.Drop({id}));
      case _ =>
    }
  }

  lemma {:induction false} CallsKeepEpochs<K, V>(l: Line<K, V>, steps: seq<Step<K, V>>)
    requires l.epochs != [] && forall i :: 0 <= i < |steps| ==> steps[i].Put? || steps[i].Drop?
    ensures Run(l, steps).epochs == l.epochs
    decreases |steps|
  {
    if steps != [] {
      CallsKeepEpochs(Apply(l, steps[0]), steps[1..]);
    }
  }

  lemma OpKeepsEpochs(c: Cache, b: Bulk, op: Op, now: nat, ls: Lines)
    requires HasEpochs(ls)
    ensures Run(ls.sessions, SessionSteps(c, b, op, now)).epochs == ls.sessions.epochs
    ensures Run(ls.trees, TreeSteps(c, b, op, now)).epochs == ls.trees.epochs
    ensures Run(ls.handles, HandleSteps(c, b, op, now)).epochs == ls.handles.epochs
  {
    hide Run, CacheGet;
    CallsKeepEpochs(ls.sessions, SessionSteps(c, b, op, now));
    CallsKeepEpochs(ls.trees, TreeSteps(c, b, op, now));
    CallsKeepEpochs(ls.handles, HandleSteps(c, b, op, now));
  }

  predicate HasEpochs(ls: Lines) {
    ls.sessions.epochs != [] && ls.trees.epochs != [] && ls.handles.epochs != []
  }

  /** The lines after an event of the cached store. */
  function LinesAfter(s: Cached, e: Event, ls: Lines): (r: Lines)
    requires s.cache.Some? && HasEpochs(ls)
    ensures HasEpochs(r)
  {
    match e
    case Call(op, now) =>
      var c, b := s.cache.value, BulkStep(s.bulk, op, now).0;
      Lines(Run(ls.sessions, SessionSteps(c, b, op, now)), Run(ls.trees, TreeSteps(c, b, op, now)),
            Run(ls.handles, HandleSteps(c, b, op, now)))
    case Evict(ss, ts, hs) =>
      Lines(Apply(ls.sessions, Drop(ss)), Apply(ls.trees, Drop(ts)), Apply(ls.handles, Drop(hs)))
    case SetEpoch(n) => Lines(Apply(ls.sessions, Set(n)), Apply(ls.trees, Set(n)), Apply(ls.handles, Set(n)))
    case InvalidateAll => Lines(Apply(ls.sessions, Bump), Apply(ls.trees, Bump), Apply(ls.handles, Bump))
  }

  /** The values the epoch takes along the events. */
  function EpochsAfter(epochs: seq<nat>, e: Event): (r: seq<nat>)
    requires epochs != []
    ensures r != []
  {
    match e
    case SetEpoch(n) => epochs + [n]
    case InvalidateAll => epochs + [epochs[|epochs| - 1] + 1]
    case _ => epochs
  }

  function History(epochs: seq<nat>, events: seq<Event>): (r: seq<nat>)
    requires epochs != []
    ensures r != []
    decreases |events|
  {
    if events == [] then epochs else History(EpochsAfter(epochs, events[0]), events[1..])
  }

  lemma CallKeepsLines(s: Cached, e: Event, ls: Lines)
    requires s.cache.Some? && AreLines(s.cache.value, ls) && HasEpochs(ls) && e.Call?
    ensures EventStep(s, e).0.cache.Some?
    ensures AreLines(EventStep(s, e).0.cache.value, LinesAfter(s, e, ls))
    ensures LinesAfter(s, e, ls).sessions.epochs == ls.sessions.epochs
  {
    hide IsLine, CacheAfter, SessionSteps, TreeSteps, HandleSteps, BulkStep, Run;
    var c, b := s.cache.value, BulkStep(s.bulk, e.op, e.now).0;
    SessionsStayLine(c, b, e.op, e.now, ls.sessions);
    TreesStayLine(c, b, e.op, e.now, ls.trees);
    HandlesStayLine(c, b, e.op, e.now, ls.handles);
    OpKeepsEpochs(c, b, e.op, e.now, ls);
    CallKeepsEpoch(c, b, e.op, e.now);
  }

  lemma EventKeepsLines(s: Cached, e: Event, ls: Lines)
    requires s.cache.Some? && AreLines(s.cache.value, ls) && HasEpochs(ls)
    ensures EventStep(s, e).0.cache.Some?
    ensures AreLines(EventStep(s, e).0.cache.value, LinesAfter(s, e, ls))
    ensures LinesAfter(s, e, ls).sessions.epochs == EpochsAfter(ls.sessions.epochs, e)
  {
    hide CacheAfter, SessionSteps, TreeSteps, HandleSteps, BulkStep;
    if e.Call? {
      CallKeepsLines(s, e, ls);
    }
  }

  lemma CallKeepsEpoch(c: Cache, b: Bulk, op: Op, now: nat)
    ensures CacheAfter(c, b, op, now).epoch == c.epoch && CacheAfter(c, b, op, now).ttl == c.ttl
  {
  }

  ghost predicate LinesTagged(ls: Lines) {
    TagsMatch(ls.sessions) && TagsMatch(ls.trees) && TagsMatch(ls.handles)
  }

  function LinesRun(s: Cached, events: seq<Event>, ls: Lines): Lines
    requires s.cache.Some? && HasEpochs(ls)
    decreases |events|
  {
    if events == [] then ls else LinesRun(EventStep(s, events[0]).0, events[1..], LinesAfter(s, events[0], ls))
  }

  lemma {:induction false} RunKeepsLines(s: Cached, events: seq<Event>, ls: Lines)
    requires s.cache.Some? && AreLines(s.cache.value, ls) && LinesTagged(ls) && HasEpochs(ls)
    ensures CachedRun(s, events).0.cache.Some?
    ensures AreLines(CachedRun(s, events).0.cache.value, LinesRun(s, events, ls))
    ensures LinesTagged(LinesRun(s, events, ls))
    ensures LinesRun(s, events, ls).sessions.epochs == History(ls.sessions.epochs, events)
    decreases |events|
  {
    hide EventStep, LinesAfter, IsLine, TagsMatch;
    if events != [] {
      EventKeepsLines(s, events[0], ls);
      LinesAfterTagged(s, events[0], ls);
      RunKeepsLines(EventStep(s, events[0]).0, events[1..], LinesAfter(s, events[0], ls));
    }
  }

  lemma LinesAfterTagged(s: Cached, e: Event, ls: Lines)
    requires s.cache.Some? && LinesTagged(ls) && HasEpochs(ls)
    ensures LinesTagged(LinesAfter(s, e, ls))
  {
    if e.Call? {
      hide SessionSteps, TreeSteps, HandleSteps, BulkStep;
      var c, b := s.cache.value, BulkStep(s.bulk, e.op, e.now).0;
      RunTagsMatch(ls.sessions, SessionSteps(c, b, e.op, e.now));
      RunTagsMatch(ls.trees, TreeSteps(c, b, e.op, e.now));
      RunTagsMatch(ls.handles, HandleSteps(c, b, e.op, e.now));
    }
  }

  /** A cached store over any bulk records with a fresh cache. */
  function FreshStore(b: Bulk, ttl: nat): Cached {
    Cached(b, Some(Cache(map[], map[], map[], 1, ttl)))
  }

  function FreshLines(ttl: nat): Lines {
    Lines(Fresh(ttl), Fresh(ttl), Fresh(ttl))
  }

  /**
   In every run of the cached store whose epoch has not returned to an earlier value, a hit in
   any of the three tables was cached after the last epoch change.
   */
  lemma HitsAreRecent(b: Bulk, ttl: nat, events: seq<Event>, now: nat, session: nat, tree: TreeKey, handle: nat)
    requires !EpochReturned(History([1], events))
    ensures var s, ls := CachedRun(FreshStore(b, ttl), events).0, LinesRun(FreshStore(b, ttl), events, FreshLines(ttl));
            && s.cache.Some? && AreLines(s.cache.value, ls)
            && var c, changes := s.cache.value, |History([1], events)| - 1;
               && (CacheGet(c.sessions, session, c.epoch, now).Some? ==> ls.sessions.table[session].born == changes)
               && (CacheGet(c.trees, tree, c.epoch, now).Some? ==> ls.trees.table[tree].born == changes)
               && (CacheGet(c.handles, handle, c.epoch, now).Some? ==> ls.handles.table[handle].born == changes)
  {
    var s0, ls0 := FreshStore(b, ttl), FreshLines(ttl);
    RunKeepsLines(s0, events, ls0);
    var c, ls := CachedRun(s0, events).0.cache.value, LinesRun(s0, events, ls0);
    HitIsRecent(c.sessions, c.epoch, c.ttl, ls.sessions, session, now);
    HitIsRecent(c.trees, c.epoch, c.ttl, ls.trees, tree, now);
    HitIsRecent(c.handles, c.epoch, c.ttl, ls.handles, handle, now);
  }

  lemma HitIsRecent<K, V>(m: map<K, CacheEntry<V>>, epoch: nat, ttl: nat, l: Line<K, V>, k: K, now: nat)
    requires IsLine(m, epoch, ttl, l) && TagsMatch(l) && !EpochReturned(l.epochs)
    ensures CacheGet(m, k, epoch, now).Some? ==> k in l.table && l.table[k].born == |l.epochs| - 1
  {
  }

  // ---------- the two listeners ----------

  /** What the listeners do to the cache: an epoch event sets and bumps, a failure bumps. */
  datatype Notice = EpochChanged(epoch: nat) | ServerFailed

  function Listen<K, V>(e: Notice): seq<Step<K, V>> {
    match e
    case EpochChanged(n) => [Set(n), Bump]
    case ServerFailed => [Bump]
  }

  function ListenAll<K, V>(events: seq<Notice>): seq<Step<K, V>> {
    if events == [] then [] else Listen(events[0]) + ListenAll(events[1..])
  }

  /** Local epoch after an event. */
  function EpochAfter(epoch: nat, e: Notice): nat {
    match e
    case EpochChanged(n) => n + 1
    case ServerFailed => epoch + 1
  }

  /** Every announced epoch is above the local one when it arrives. */
  predicate Ascending(epoch: nat, events: seq<Notice>)
    decreases |events|
  {
    events == [] ||
    ((events[0].EpochChanged? ==> events[0].epoch > epoch) &&
     Ascending(EpochAfter(epoch, events[0]), events[1..]))
  }

  predicate Increasing(epochs: seq<nat>) {
    forall i, j :: 0 <= i < j < |epochs| ==> epochs[i] < epochs[j]
  }

  lemma IncreasingNeverReturns(epochs: seq<nat>)
    requires epochs != [] && Increasing(epochs)
    ensures !EpochReturned(epochs)
  {
  }

  lemma {:induction false} RunExtendsEpochs<K, V>(l: Line<K, V>, steps: seq<Step<K, V>>)
    requires l.epochs != []
    ensures l.epochs <= Run(l, steps).epochs
    decreases |steps|
  {
    if steps != [] {
      RunExtendsEpochs(Apply(l, steps[0]), steps[1..]);
    }
  }

  /**
   The epoch only grows exactly when every announced epoch is above the local one as it
   arrives; then it never returns.
   */
  lemma {:induction false} AscendingEventsProtect<K, V>(l: Line<K, V>, events: seq<Notice>)
    requires l.epochs != [] && Increasing(l.epochs)
    ensures Increasing(Run(l, ListenAll<K, V>(events)).epochs) <==> Ascending(Current(l), events)
    ensures Ascending(Current(l), events) ==> !EpochReturned(Run(l, ListenAll<K, V>(events)).epochs)
    decreases |events|
  {
    hide Run;
    var after := Run(l, ListenAll<K, V>(events));
    if events == [] {
      RunNothing(l);
    } else {
      var e := events[0];
      RunConcat(l, Listen<K, V>(e), ListenAll<K, V>(events[1..]));
      var l' := Run(l, Listen<K, V>(e));
      ListenRun(l, e);
      if Increasing(l'.epochs) {
        AscendingEventsProtect(l', events[1..]);
      } else {
        RunExtendsEpochs(l', ListenAll<K, V>(events[1..]));
        if Increasing(after.epochs) {
          PrefixIncreasing(l'.epochs, after.epochs);
        }
      }
      FirstNotice(l.epochs, e);
    }
    if Increasing(after.epochs) {
      IncreasingNeverReturns(after.epochs);
    }
  }

  lemma RunNothing<K, V>(l: Line<K, V>)
    requires l.epochs != []
    ensures Run(l, []) == l
  {
  }

  lemma PrefixIncreasing(a: seq<nat>, b: seq<nat>)
    requires a <= b && Increasing(b)
    ensures Increasing(a)
  {
  }

  lemma FirstNotice(epochs: seq<nat>, e: Notice)
    requires epochs != [] && Increasing(epochs)
    ensures Increasing(epochs + if e.EpochChanged? then [e.epoch, e.epoch + 1] else [epochs[|epochs| - 1] + 1]) <==>
            (e.EpochChanged? ==> e.epoch > epochs[|epochs| - 1])
  {
    var last := |epochs| - 1;
    if e.EpochChanged? {
      var more := epochs + [e.epoch, e.epoch + 1];
      assert more[last] == epochs[last] && more[last + 1] == e.epoch;
    }
  }

  lemma ListenRun<K, V>(l: Line<K, V>, e: Notice)
    requires l.epochs != []
    ensures Run(l, Listen<K, V>(e)) ==
            l.(epochs := l.epochs + if e.EpochChanged? then [e.epoch, e.epoch + 1] else [Current(l) + 1])
  {
    if e.EpochChanged? {
      var l1 := Apply(l, Step<K, V>.Set(e.epoch));
      assert Listen<K, V>(e)[1..] == [Bump];
      assert [Step<K, V>.Bump][1..] == [];
      assert Run(l, Listen<K, V>(e)) == Run(l1, [Bump]) == Apply(l1, Bump);
      assert l.epochs + [e.epoch] + [e.epoch + 1] == l.epochs + [e.epoch, e.epoch + 1];
    } else {
      assert [Step<K, V>.Bump][1..] == [];
    }
  }

  lemma {:induction false} ListenersMakeChanges<K, V>(events: seq<Notice>)
    ensures AreChanges(ListenAll<K, V>(events))
  {
    if events != [] {
      ListenersMakeChanges<K, V>(events[1..]);
    }
  }

  /** For the listeners: some run with these events has a stale hit if and only if the epoch returned. */
  lemma ListenersStaleHit<K, V>(ttl: nat, events: seq<Notice>, k: K, v: V)
    ensures (exists steps: seq<Step<K, V>>, now: nat ::
               ChangesOf(steps) == ListenAll<K, V>(events) && StaleHit(Run(Fresh<K, V>(ttl), steps), k, now)) <==>
            EpochReturned(Run(Fresh<K, V>(ttl), ListenAll<K, V>(events)).epochs)
  {
    ListenersMakeChanges<K, V>(events);
    StaleHitIffEpochReturned(ttl, ListenAll<K, V>(events), k, v);
  }

  /**
   The listeners do bring old entries back: two failures move the epoch to 3, an entry is cached,
   and an announced epoch 2 sets the epoch to 2 and moves it to 3 again, where the entry is found.
   */
  lemma ListenersReturn<K, V>(ttl: nat, k: K, v: V)
    ensures var before, after := ListenAll<K, V>([ServerFailed, ServerFailed]), ListenAll<K, V>([EpochChanged(2)]);
            var l := Run(Fresh<K, V>(ttl), before + ([Put(k, v, 0)] + after));
            && l.epochs == [1, 2, 3, 2, 3]
            && k in l.table && l.table[k].born == 2
            && StaleHit(l, k, 0)
  {
    hide Run;
    var l, put := Fresh<K, V>(ttl), Step<K, V>.Put(k, v, 0);
    var before, after := ListenAll<K, V>([ServerFailed, ServerFailed]), ListenAll<K, V>([EpochChanged(2)]);
    RunConcat(l, before, [put] + after);
    FirstEvent(l, [ServerFailed, ServerFailed]);
    var l1 := Run(l, Listen<K, V>(ServerFailed));
    assert [ServerFailed, ServerFailed][1..] == [ServerFailed];
    FirstEvent(l1, [ServerFailed]);
    var l2 := Run(l1, Listen<K, V>(ServerFailed));
    RunNothing(l2);
    RunConcat(l2, [put], after);
    RunOne(l2, put);
    var l3 := Apply(l2, put);
    FirstEvent(l3, [EpochChanged(2)]);
    RunNothing(Run(l3, Listen<K, V>(EpochChanged(2))));
  }

  lemma FirstEvent<K, V>(l: Line<K, V>, events: seq<Notice>)
    requires l.epochs != [] && events != []
    ensures Run(l, ListenAll<K, V>(events)) == Run(Run(l, Listen<K, V>(events[0])), ListenAll<K, V>(events[1..]))
    ensures Run(l, Listen<K, V>(events[0])) ==
            l.(epochs := l.epochs +
                 if events[0].EpochChanged? then [events[0].epoch, events[0].epoch + 1] else [Current(l) + 1])
  {
    hide Run;
    RunConcat(l, Listen<K, V>(events[0]), ListenAll<K, V>(events[1..]));
    ListenRun(l, events[0]);
  }
}
