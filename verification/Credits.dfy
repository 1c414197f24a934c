/** Credit flow control of one connection. */
module Credits {
  import opened Core

  const MIN_CREDITS_PER_RESPONSE: u16 := 1

  datatype CreditConfig = CreditConfig(
    initialCredits: u16, maxCredits: u16, grantPerResponse: u16, adaptiveGrants: bool)

  function Min(a: nat, b: nat): (m: nat)
    ensures m <= a && m <= b
  {
    if a < b then a else b
  }

  function Max(a: nat, b: nat): (m: nat)
    ensures m == a || m == b
  {
    if a < b then b else a
  }

  function SaturatingSub(a: nat, b: nat): nat {
    if a < b then 0 else a - b
  }

  /** A charge of 0 counts as 1. */
  function Charge(c: u16): u16 {
    Max(c, 1)
  }

  // ---------- the calls as single steps ----------

  /** New balance and result of consume. */
  function Consume(available: u16, charge: u16): (u16, Option<u16>) {
    if available < Charge(charge) then (available, None) else (available - Charge(charge), Some(Charge(charge)))
  }

  /** Credits a grant can add below the maximum. */
  function ActualGrant(max: u16, available: u16, credits: u16): (actual: u16)
    ensures available + actual <= Max(available, max)
  {
    Min(credits, SaturatingSub(max, available))
  }

  /** New balance and result of grant. */
  function Grant(max: u16, available: u16, credits: u16): (u16, u16) {
    if ActualGrant(max, available, credits) == 0 then (available, 0)
    else (available + ActualGrant(max, available, credits), ActualGrant(max, available, credits))
  }

  function CalculateGrant(config: CreditConfig, available: u16, requested: u16, isAsync: bool): u16 {
    var headroom := SaturatingSub(config.maxCredits, available);
    if headroom == 0 then 0
    else if !config.adaptiveGrants then Min(config.grantPerResponse, headroom)
    else
      var target := config.maxCredits / 2;
      var base := Max(config.grantPerResponse, MIN_CREDITS_PER_RESPONSE);
      var boosted := if available < target then Min(base + (target - available) / 4, U16_MAX) else base;
      var honoured := if requested > 0 then Max(boosted, requested) else boosted;
      var doubled := if isAsync then Min(honoured * 2, U16_MAX) else honoured;
      Max(Min(doubled, headroom), Min(MIN_CREDITS_PER_RESPONSE, headroom))
  }

  /**
   A consume succeeds exactly when the balance covers the charge, and one credit for a charge of
   0; it takes that amount and returns it.  A refusal takes nothing.
   */
  lemma ConsumeTakesCharge(available: u16, charge: u16)
    ensures var (left, taken) := Consume(available, charge);
            && (taken.Some? <==> available >= 1 && available >= charge)
            && (taken.Some? && charge >= 1 ==> taken.value == charge && left == available - charge)
            && (taken.Some? && charge == 0 ==> taken.value == 1 && left == available - 1)
            && (taken.None? ==> left == available)
  {
  }

  /** A grant adds what was asked for or, if that is less, what is missing to the maximum. */
  lemma GrantAddsCredits(max: u16, available: u16, credits: u16)
    ensures var (left, given) := Grant(max, available, credits);
            && left == available + given && given <= credits
            && (given > 0 ==> left <= max)
            && (given < credits ==> left >= max)
  {
  }

  /**
   The exact amount of an adaptive grant: the configured amount and a quarter of the deficit
   below half the maximum, or the request if that is more, twice that for an asynchronous
   response, and at most the headroom.  The saturations at 16 bits never show.
   */
  lemma AdaptiveGrantExactly(config: CreditConfig, available: u16, requested: u16, isAsync: bool)
    requires config.adaptiveGrants && available <= config.maxCredits
    ensures var g := CalculateGrant(config, available, requested, isAsync);
            var half := config.maxCredits / 2;
            var base := (if config.grantPerResponse == 0 then 1 else config.grantPerResponse) +
                        (if available < half then (half - available) / 4 else 0);
            var wanted := (if requested > base then requested else base) * (if isAsync then 2 else 1);
            g == if wanted < config.maxCredits - available then wanted else config.maxCredits - available
  {
  }

  /** Without adaptation it is the configured amount, as far as there is headroom. */
  lemma FixedGrantExactly(config: CreditConfig, available: u16, requested: u16, isAsync: bool)
    requires !config.adaptiveGrants
    ensures var g := CalculateGrant(config, available, requested, isAsync);
            && g <= config.grantPerResponse && (g > 0 ==> available + g <= config.maxCredits)
            && (g < config.grantPerResponse ==> available + g >= config.maxCredits)
  {
  }

  // ---------- threads racing on the atomics ----------

  datatype Request = ConsumeRequest(charge: u16) | GrantRequest(credits: u16)

  datatype Answer = Taken(taken: Option<u16>) | Given(given: u16)

  /** Where a caller of consume or grant stands between its atomic operations. */
  datatype Thread =
    | Idle
    | ConsumeLoad(charge: u16)
    | ConsumeSwap(charge: u16, current: u16, newValue: u16)
    | ConsumeCount(charge: u16)
    | GrantLoad(credits: u16)
    | GrantSwap(credits: u16, current: u16, actual: u16, newValue: u16)
    | GrantCount(credits: u16, actual: u16)
    | Finished(answer: Answer)

  /** What happens to a call: it is made, it takes effect, it returns. */
  datatype Event =
    | Called(thread: nat, request: Request)
    | Effect(thread: nat, request: Request, answer: Answer)
    | Returned(thread: nat, answer: Answer)

  datatype Machine = Machine(
    config: CreditConfig,
    available: u16,
    granted: nat,
    consumed: nat,
    threads: seq<Thread>,
    history: seq<Event>)

  function Start(config: CreditConfig, n: nat): Machine {
    Machine(config, config.initialCredits, config.initialCredits, 0, seq(n, _ => Idle), [])
  }

  datatype Action =
    | Call(request: Request)
    /** The thread does its next atomic operation; a weak swap may fail for no reason. */
    | Advance(spurious: bool)

  predicate Resting(t: Thread) {
    t.Idle? || t.Finished?
  }

  /** Thread `i` moves on, and `events` happen. */
  function Proceed(m: Machine, i: nat, t: Thread, events: seq<Event>): Machine
    requires i < |m.threads|
  {
    m.(threads := m.threads[i := t], history := m.history + events)
  }

  function AdvanceConsume(m: Machine, i: nat, spurious: bool): Machine
    requires i < |m.threads|
    requires m.threads[i].ConsumeLoad? || m.threads[i].ConsumeSwap? || m.threads[i].ConsumeCount?
  {
    match m.threads[i]
    case ConsumeLoad(charge) =>
      var current := m.available;
      if current < Charge(charge)
      then Proceed(m, i, Finished(Taken(None)),
                   [Effect(i, ConsumeRequest(charge), Taken(None)), Returned(i, Taken(None))])
      else Proceed(m, i, ConsumeSwap(charge, current, current - Charge(charge)), [])
    case ConsumeSwap(charge, current, newValue) =>
      if m.available == current && !spurious
      then Proceed(m, i, ConsumeCount(charge),
                   [Effect(i, ConsumeRequest(charge), Taken(Some(Charge(charge))))]).(available := newValue)
      else Proceed(m, i, ConsumeLoad(charge), [])
    case ConsumeCount(charge) =>
      Proceed(m, i, Finished(Taken(Some(Charge(charge)))), [Returned(i, Taken(Some(Charge(charge))))]).(
      consumed := m.consumed + Charge(charge))
  }

  function AdvanceGrant(m: Machine, i: nat, spurious: bool): Machine
    requires i < |m.threads|
    requires m.threads[i].GrantLoad? || m.threads[i].GrantSwap? || m.threads[i].GrantCount?
  {
    match m.threads[i]
    case GrantLoad(credits) =>
      var current := m.available;
      var actual := ActualGrant(m.config.maxCredits, current, credits);
      if actual == 0
      then Proceed(m, i, Finished(Given(0)), [Effect(i, GrantRequest(credits), Given(0)), Returned(i, Given(0))])
      else Proceed(m, i, GrantSwap(credits, current, actual, current + actual), [])
    case GrantSwap(credits, current, actual, newValue) =>
      if m.available == current && !spurious
      then Proceed(m, i, GrantCount(credits, actual),
                   [Effect(i, GrantRequest(credits), Given(actual))]).(available := newValue)
      else Proceed(m, i, GrantLoad(credits), [])
    case GrantCount(credits, actual) =>
      Proceed(m, i, Finished(Given(actual)), [Returned(i, Given(actual))]).(granted := m.granted + actual)
  }

  function Entry(request: Request): Thread {
    match request
    case ConsumeRequest(charge) => ConsumeLoad(charge)
    case GrantRequest(credits) => GrantLoad(credits)
  }

  function Step(m: Machine, i: nat, a: Action): Machine
    requires i < |m.threads|
  {
    var t := m.threads[i];
    if Resting(t) then
      match a
      case Call(request) => Proceed(m, i, Entry(request), [Called(i, request)])
      case Advance(_) => m
    else if !a.Advance? then m
    else if t.ConsumeLoad? || t.ConsumeSwap? || t.ConsumeCount? then AdvanceConsume(m, i, a.spurious)
    else AdvanceGrant(m, i, a.spurious)
  }

  /** A schedule: which thread does what next. */
  datatype Move = Move(thread: nat, action: Action)

  function Run(m: Machine, moves: seq<Move>): Machine
    decreases |moves|
  {
    if moves == [] then m
    else if moves[0].thread >= |m.threads| then Run(m, moves[1..])
    else Run(Step(m, moves[0].thread, moves[0].action), moves[1..])
  }

  /** The calls a schedule makes: the call moves of threads that are not inside a call. */
  function Calls(m: Machine, moves: seq<Move>): seq<(nat, Request)>
    decreases |moves|
  {
    if moves == [] then []
    else
      var i, a := moves[0].thread, moves[0].action;
      if i >= |m.threads| then Calls(m, moves[1..])
      else Made(m, i, a) + Calls(Step(m, i, a), moves[1..])
  }

  function Made(m: Machine, i: nat, a: Action): seq<(nat, Request)>
    requires i < |m.threads|
  {
    if a.Call? && Resting(m.threads[i]) then [(i, a.request)] else []
  }

  // ---------- counters that still have to catch up ----------

  /** Swapped grants not yet added to the total, minus swapped charges not yet added. */
  function Owed(t: Thread): int {
    match t
    case ConsumeCount(charge) => -(Charge(charge) as int)
    case GrantCount(_, actual) => actual
    case _ => 0
  }

  function OwedSum(threads: seq<Thread>): int {
    if threads == [] then 0 else OwedSum(threads[..|threads| - 1]) + Owed(threads[|threads| - 1])
  }

  lemma {:induction false} OwedSumUpdate(threads: seq<Thread>, i: nat, t: Thread)
    requires i < |threads|
    ensures OwedSum(threads[i := t]) == OwedSum(threads) - Owed(threads[i]) + Owed(t)
  {
    var n := |threads| - 1;
    if i < n {
      OwedSumUpdate(threads[..n], i, t);
      assert threads[i := t][..n] == threads[..n][i := t];
    } else {
      assert threads[i := t][..n] == threads[..n];
    }
  }

  lemma {:induction false} OwedSumIdle(n: nat)
    ensures OwedSum(seq(n, _ => Idle)) == 0
  {
    if n > 0 {
      OwedSumIdle(n - 1);
      assert seq(n, _ => Idle)[..n - 1] == seq(n - 1, _ => Idle);
    }
  }

  // ---------- the calls one after the other ----------

  /** A call made alone, as a single step. */
  function Alone(config: CreditConfig, available: u16, request: Request): (u16, Answer) {
    match request
    case ConsumeRequest(charge) => var (a, r) := Consume(available, charge); (a, Taken(r))
    case GrantRequest(credits) => var (a, r) := Grant(config.maxCredits, available, credits); (a, Given(r))
  }

  /** The balance when every call is made alone at the moment of its effect. */
  function Replay(config: CreditConfig, history: seq<Event>): u16 {
    if history == [] then config.initialCredits
    else
      var before, e := Replay(config, history[..|history| - 1]), history[|history| - 1];
      if e.Effect? then Alone(config, before, e.request).0 else before
  }

  /** Each effect has the answer of the call made alone at that moment. */
  ghost predicate AnswersMatch(config: CreditConfig, history: seq<Event>) {
    forall k :: 0 <= k < |history| && history[k].Effect? ==>
      history[k].answer == Alone(config, Replay(config, history[..k]), history[k].request).1
  }

  /** The latest event of a thread. */
  function LatestOf(history: seq<Event>, thread: nat): Option<Event> {
    if history == [] then None
    else if history[|history| - 1].thread == thread then Some(history[|history| - 1])
    else LatestOf(history[..|history| - 1], thread)
  }

  /**
   An event follows from the event of its thread before it: a call starts from rest, an effect
   belongs to the call just made, and what returns is the answer of that effect.
   */
  predicate Follows(latest: Option<Event>, e: Event) {
    match e
    case Called(_, _) => latest.None? || latest.value.Returned?
    case Effect(i, request, _) => latest == Some(Called(i, request))
    case Returned(_, answer) => latest.Some? && latest.value.Effect? && latest.value.answer == answer
  }

  /** Every thread goes through call, effect and return, over and over. */
  ghost predicate Orderly(history: seq<Event>) {
    forall k :: 0 <= k < |history| ==> Follows(LatestOf(history[..k], history[k].thread), history[k])
  }

  function Invocations(history: seq<Event>): seq<(nat, Request)> {
    if history == [] then []
    else
      var before, e := Invocations(history[..|history| - 1]), history[|history| - 1];
      if e.Called? then before + [(e.thread, e.request)] else before
  }

  /** A thread stands where its latest event has left it. */
  predicate Stands(latest: Option<Event>, i: nat, t: Thread) {
    match t
    case Idle => latest.None?
    case ConsumeLoad(charge) => latest == Some(Called(i, ConsumeRequest(charge)))
    case ConsumeSwap(charge, _, _) => latest == Some(Called(i, ConsumeRequest(charge)))
    case ConsumeCount(charge) => latest == Some(Effect(i, ConsumeRequest(charge), Taken(Some(Charge(charge)))))
    case GrantLoad(credits) => latest == Some(Called(i, GrantRequest(credits)))
    case GrantSwap(credits, _, _, _) => latest == Some(Called(i, GrantRequest(credits)))
    case GrantCount(credits, actual) => latest == Some(Effect(i, GrantRequest(credits), Given(actual)))
    case Finished(answer) => latest == Some(Returned(i, answer))
  }

  ghost predicate Conserved(m: Machine) {
    m.granted as int - m.consumed as int + OwedSum(m.threads) == m.available as int
  }

  ghost predicate Linear(config: CreditConfig, available: u16, history: seq<Event>) {
    Replay(config, history) == available && AnswersMatch(config, history) && Orderly(history)
  }

  /** What a thread holds between its operations is sound. */
  predicate ThreadSound(config: CreditConfig, t: Thread) {
    match t
    case ConsumeSwap(charge, current, newValue) => newValue as int == current as int - Charge(charge) as int
    case GrantSwap(credits, current, actual, newValue) =>
      current <= config.maxCredits && actual == ActualGrant(config.maxCredits, current, credits) > 0 &&
      newValue == current + actual
    case _ => true
  }

  ghost predicate ThreadInv(m: Machine, i: nat)
    requires i < |m.threads|
  {
    ThreadSound(m.config, m.threads[i]) && Stands(LatestOf(m.history, i), i, m.threads[i])
  }

  ghost predicate Inv(m: Machine) {
    && m.available <= m.config.maxCredits
    && Conserved(m)
    && Linear(m.config, m.available, m.history)
    && forall i :: 0 <= i < |m.threads| ==> ThreadInv(m, i)
  }

  lemma StartInv(config: CreditConfig, n: nat)
    requires config.initialCredits <= config.maxCredits
    ensures Inv(Start(config, n))
  {
    OwedSumIdle(n);
  }

  /** One more event at the end of a history. */
  lemma EventAppended(config: CreditConfig, available: u16, history: seq<Event>, e: Event)
    requires Linear(config, available, history) && Follows(LatestOf(history, e.thread), e)
    requires e.Effect? ==> e.answer == Alone(config, available, e.request).1
    ensures Linear(config, if e.Effect? then Alone(config, available, e.request).0 else available, history + [e])
    ensures forall i :: LatestOf(history + [e], i) == if e.thread == i then Some(e) else LatestOf(history, i)
    ensures Invocations(history + [e]) ==
            Invocations(history) + if e.Called? then [(e.thread, e.request)] else []
  {
    var h := history + [e];
    assert h[..|history|] == history;
    hide Replay, Alone, LatestOf, Follows;
    assert forall k :: 0 <= k < |history| ==> h[k] == history[k] && h[..k] == history[..k];
  }

  /** A thread that moves leaves the others where they stand. */
  lemma OthersStand(m: Machine, m': Machine, i: nat)
    requires i < |m.threads| == |m'.threads| && m'.config == m.config
    requires m'.threads == m.threads[i := m'.threads[i]]
    requires forall j :: 0 <= j < |m.threads| ==> ThreadInv(m, j)
    requires forall j :: j != i ==> LatestOf(m'.history, j) == LatestOf(m.history, j)
    requires ThreadInv(m', i)
    ensures forall j :: 0 <= j < |m'.threads| ==> ThreadInv(m', j)
  {
    hide LatestOf, Stands, ThreadSound;
    forall j | 0 <= j < |m'.threads|
      ensures ThreadInv(m', j)
    {
      assert ThreadInv(m, j);
    }
  }

  lemma AdvanceConsumeInv(m: Machine, i: nat, spurious: bool)
    requires Inv(m) && i < |m.threads|
    requires m.threads[i].ConsumeLoad? || m.threads[i].ConsumeSwap? || m.threads[i].ConsumeCount?
    ensures Inv(AdvanceConsume(m, i, spurious))
    ensures Invocations(AdvanceConsume(m, i, spurious).history) == Invocations(m.history)
  {
    hide Linear, OwedSum, LatestOf, Invocations;
    var m' := AdvanceConsume(m, i, spurious);
    OwedSumUpdate(m.threads, i, m'.threads[i]);
    assert ThreadInv(m, i);
    var events := m'.history[|m.history|..];
    if events == [] {
      assert m'.history == m.history;
    } else {
      EventAppended(m.config, m.available, m.history, events[0]);
      if |events| == 1 {
        assert m'.history == m.history + [events[0]];
      } else {
        EventAppended(m.config, m.available, m.history + [events[0]], events[1]);
        assert m'.history == m.history + [events[0]] + [events[1]];
      }
    }
    OthersStand(m, m', i);
  }

  lemma AdvanceGrantInv(m: Machine, i: nat, spurious: bool)
    requires Inv(m) && i < |m.threads|
    requires m.threads[i].GrantLoad? || m.threads[i].GrantSwap? || m.threads[i].GrantCount?
    ensures Inv(AdvanceGrant(m, i, spurious))
    ensures Invocations(AdvanceGrant(m, i, spurious).history) == Invocations(m.history)
  {
    hide Linear, OwedSum, LatestOf, Invocations;
    var m' := AdvanceGrant(m, i, spurious);
    OwedSumUpdate(m.threads, i, m'.threads[i]);
    assert ThreadInv(m, i);
    var events := m'.history[|m.history|..];
    if events == [] {
      assert m'.history == m.history;
    } else {
      EventAppended(m.config, m.available, m.history, events[0]);
      if |events| == 1 {
        assert m'.history == m.history + [events[0]];
      } else {
        EventAppended(m.config, m.available, m.history + [events[0]], events[1]);
        assert m'.history == m.history + [events[0]] + [events[1]];
      }
    }
    OthersStand(m, m', i);
  }

  lemma CallInv(m: Machine, i: nat, request: Request)
    requires Inv(m) && i < |m.threads| && Resting(m.threads[i])
    ensures Inv(Step(m, i, Call(request)))
    ensures Invocations(Step(m, i, Call(request)).history) == Invocations(m.history) + [(i, request)]
  {
    hide Linear, OwedSum, LatestOf, Invocations;
    var m' := Step(m, i, Call(request));
    OwedSumUpdate(m.threads, i, Entry(request));
    assert ThreadInv(m, i);
    EventAppended(m.config, m.available, m.history, Called(i, request));
    OthersStand(m, m', i);
  }

  lemma StepInv(m: Machine, i: nat, a: Action)
    requires Inv(m) && i < |m.threads|
    ensures Inv(Step(m, i, a)) && Step(m, i, a).config == m.config
    ensures Invocations(Step(m, i, a).history) == Invocations(m.history) + Made(m, i, a)
  {
    hide Inv, Invocations, Entry, AdvanceConsume, AdvanceGrant;
    var t := m.threads[i];
    StepConfig(m, i, a);
    if Resting(t) {
      if a.Call? {
        CallInv(m, i, a.request);
      }
    } else if a.Advance? {
      if t.ConsumeLoad? || t.ConsumeSwap? || t.ConsumeCount? {
        AdvanceConsumeInv(m, i, a.spurious);
      } else {
        AdvanceGrantInv(m, i, a.spurious);
      }
    }
  }

  lemma StepConfig(m: Machine, i: nat, a: Action)
    requires i < |m.threads|
    ensures Step(m, i, a).config == m.config
  {
  }

  lemma {:induction false} RunInv(m: Machine, moves: seq<Move>)
    requires Inv(m)
    ensures Inv(Run(m, moves)) && Run(m, moves).config == m.config
    ensures Invocations(Run(m, moves).history) == Invocations(m.history) + Calls(m, moves)
    decreases |moves|
  {
    hide Inv, Step, Invocations, Made;
    if moves != [] {
      var i, a := moves[0].thread, moves[0].action;
      if i >= |m.threads| {
        RunInv(m, moves[1..]);
      } else {
        StepInv(m, i, a);
        RunInv(Step(m, i, a), moves[1..]);
        Regroup(Invocations(m.history), Made(m, i, a), Calls(Step(m, i, a), moves[1..]));
      }
    }
  }

  lemma Regroup<T>(a: seq<T>, b: seq<T>, c: seq<T>)
    ensures a + b + c == a + (b + c)
  {
  }

  // ---------- what every schedule guarantees ----------

  /** Under every interleaving the balance stays within the maximum. */
  lemma BalanceWithinMax(config: CreditConfig, n: nat, moves: seq<Move>)
    requires config.initialCredits <= config.maxCredits
    ensures Run(Start(config, n), moves).available <= config.maxCredits
  {
    StartInv(config, n);
    RunInv(Start(config, n), moves);
  }

  /** Granted minus consumed is the balance, once the pending counter updates are in. */
  lemma CreditsConserved(config: CreditConfig, n: nat, moves: seq<Move>)
    requires config.initialCredits <= config.maxCredits
    ensures var m := Run(Start(config, n), moves);
            && m.granted as int - m.consumed as int + OwedSum(m.threads) == m.available as int
            && ((forall i :: 0 <= i < |m.threads| ==> Resting(m.threads[i])) ==>
                  m.granted as int - m.consumed as int == m.available as int)
  {
    StartInv(config, n);
    RunInv(Start(config, n), moves);
    var m := Run(Start(config, n), moves);
    if forall i :: 0 <= i < |m.threads| ==> Resting(m.threads[i]) {
      RestingOwesNothing(m.threads);
    }
  }

  lemma {:induction false} RestingOwesNothing(threads: seq<Thread>)
    requires forall i :: 0 <= i < |threads| ==> Resting(threads[i])
    ensures OwedSum(threads) == 0
  {
    if threads != [] {
      RestingOwesNothing(threads[..|threads| - 1]);
    }
  }

  /**
   Under every interleaving the calls are linearisable.  The history holds the calls that the
   schedule makes, in order.  Each thread goes through call, effect and return, so a call has at
   most one effect, with its own argument and between its call and its return, and what returns
   is the answer of that effect.  The effects, one after the other, give the balance, and each
   answer is the answer of the call made alone at that moment.
   */
  lemma CallsAreAtomic(config: CreditConfig, n: nat, moves: seq<Move>)
    requires config.initialCredits <= config.maxCredits
    ensures var m := Run(Start(config, n), moves);
            && Invocations(m.history) == Calls(Start(config, n), moves)
            && Orderly(m.history)
            && AnswersMatch(config, m.history)
            && Replay(config, m.history) == m.available
            && forall i :: 0 <= i < |m.threads| ==> Stands(LatestOf(m.history, i), i, m.threads[i])
  {
    StartInv(config, n);
    RunInv(Start(config, n), moves);
    var m := Run(Start(config, n), moves);
    forall i | 0 <= i < |m.threads|
      ensures Stands(LatestOf(m.history, i), i, m.threads[i])
    {
      assert ThreadInv(m, i);
    }
  }

  /**
   What each effect of a schedule does to the balance: a consume takes its charge, or one credit
   for a charge of 0, exactly when the balance covers it, and a grant adds what was asked for up
   to the maximum.
   */
  lemma EffectsMoveCredits(config: CreditConfig, n: nat, moves: seq<Move>, k: nat)
    requires config.initialCredits <= config.maxCredits
    requires k < |Run(Start(config, n), moves).history| && Run(Start(config, n), moves).history[k].Effect?
    ensures var history := Run(Start(config, n), moves).history;
            var before, after := Replay(config, history[..k]), Replay(config, history[..k + 1]);
            match history[k].request
            case ConsumeRequest(charge) =>
              && history[k].answer ==
                 Taken(if before < 1 || before < charge then None else Some(if charge == 0 then 1 else charge))
              && after as int == before as int - (if history[k].answer.taken.Some? then history[k].answer.taken.value else 0)
            case GrantRequest(credits) =>
              && history[k].answer.Given? && after == before + history[k].answer.given
              && history[k].answer.given == if before + credits <= config.maxCredits then credits
                                            else config.maxCredits - before
  {
    hide Run, Start, Consume, Grant, Orderly, Invocations, Calls;
    CallsAreAtomic(config, n, moves);
    var history := Run(Start(config, n), moves).history;
    assert history[..k + 1][..k] == history[..k];
    var before := Replay(config, history[..k]);
    ReplayWithinMax(config, history[..k]);
    match history[k].request {
      case ConsumeRequest(charge) => ConsumeTakesCharge(before, charge);
      case GrantRequest(credits) => GrantAddsCredits(config.maxCredits, before, credits);
    }
  }

  lemma {:induction false} ReplayWithinMax(config: CreditConfig, history: seq<Event>)
    requires config.initialCredits <= config.maxCredits
    ensures Replay(config, history) <= config.maxCredits
  {
    hide Consume, Grant;
    if history != [] {
      var before, e := history[..|history| - 1], history[|history| - 1];
      ReplayWithinMax(config, before);
      if e.Effect? {
        match e.request {
          case ConsumeRequest(charge) => ConsumeTakesCharge(Replay(config, before), charge);
          case GrantRequest(credits) => GrantAddsCredits(config.maxCredits, Replay(config, before), credits);
        }
      }
    }
  }

  /** The requests of a thread's effects, in order. */
  function EffectsOf(history: seq<Event>, i: nat): seq<Request> {
    if history == [] then []
    else
      var before, e := EffectsOf(history[..|history| - 1], i), history[|history| - 1];
      if e.Effect? && e.thread == i then before + [e.request] else before
  }

  /** The requests of a thread's calls, in order. */
  function CallsOf(calls: seq<(nat, Request)>, i: nat): seq<Request> {
    if calls == [] then []
    else
      var before, c := CallsOf(calls[..|calls| - 1], i), calls[|calls| - 1];
      if c.0 == i then before + [c.1] else before
  }

  /** A thread's effects are its calls, in order, but for the one still waiting for its effect. */
  lemma {:induction false} EffectsAreCalls(history: seq<Event>, i: nat)
    requires Orderly(history)
    ensures var calls, latest := CallsOf(Invocations(history), i), LatestOf(history, i);
            if latest.Some? && latest.value.Called?
            then calls == EffectsOf(history, i) + [latest.value.request]
            else calls == EffectsOf(history, i)
  {
    if history != [] {
      var n := |history| - 1;
      var before, e := history[..n], history[n];
      assert Orderly(before) by {
        assert forall k :: 0 <= k < n ==> before[k] == history[k] && before[..k] == history[..k];
      }
      EffectsAreCalls(before, i);
      assert Follows(LatestOf(before, e.thread), e);
      if e.Called? {
        var calls := Invocations(before);
        assert (calls + [(e.thread, e.request)])[..|calls|] == calls;
      }
    }
  }

  /** Under every interleaving each call of the schedule takes effect exactly once, or has yet to. */
  lemma EachCallTakesEffect(config: CreditConfig, n: nat, moves: seq<Move>, i: nat)
    requires config.initialCredits <= config.maxCredits && i < n
    ensures var m := Run(Start(config, n), moves);
            var calls := CallsOf(Calls(Start(config, n), moves), i);
            && i < |m.threads|
            && (EffectsOf(m.history, i) == calls <==>
                  Resting(m.threads[i]) || m.threads[i].ConsumeCount? || m.threads[i].GrantCount?)
            && EffectsOf(m.history, i) <= calls && |calls| <= |EffectsOf(m.history, i)| + 1
  {
    CallsAreAtomic(config, n, moves);
    ThreadsStay(Start(config, n), moves);
    var m := Run(Start(config, n), moves);
    EffectsAreCalls(m.history, i);
    hide Run, Calls, Orderly, AnswersMatch, Replay, EffectsOf, CallsOf, Invocations, LatestOf;
    assert Stands(LatestOf(m.history, i), i, m.threads[i]);
  }

  lemma {:induction false} ThreadsStay(m: Machine, moves: seq<Move>)
    ensures |Run(m, moves).threads| == |m.threads|
    decreases |moves|
  {
    if moves != [] {
      var i, a := moves[0].thread, moves[0].action;
      ThreadsStay(if i >= |m.threads| then m else Step(m, i, a), moves[1..]);
    }
  }

  // ---------- cycles of consume and grant ----------

  datatype Cycle = Cycle(charge: u16, requested: u16, isAsync: bool)

  /** One request: consume its charge, then grant_credits in the response. */
  function AfterCycle(config: CreditConfig, available: u16, c: Cycle): (r: u16)
    requires available <= config.maxCredits
    ensures r <= config.maxCredits
  {
    var left := Consume(available, c.charge).0;
    Grant(config.maxCredits, left, CalculateGrant(config, left, c.requested, c.isAsync)).0
  }

  function AfterCycles(config: CreditConfig, available: u16, cycles: seq<Cycle>): (r: u16)
    requires available <= config.maxCredits
    ensures r <= config.maxCredits
    decreases |cycles|
  {
    if cycles == [] then available else AfterCycles(config, AfterCycle(config, available, cycles[0]), cycles[1..])
  }

  /**
   An adaptive grant gives at least one credit, a quarter of the deficit below the target and
   what was requested, as far as there is room; an asynchronous request gets no less.
   */
  lemma AdaptiveGrantFloor(config: CreditConfig, available: u16, requested: u16, isAsync: bool)
    requires config.adaptiveGrants && available < config.maxCredits
    ensures var g := CalculateGrant(config, available, requested, isAsync);
            && 1 <= g <= config.maxCredits - available
            && (available < config.maxCredits / 2 ==> g >= 1 + (config.maxCredits / 2 - available) / 4)
            && g >= Min(requested, config.maxCredits - available)
            && (isAsync ==> g >= CalculateGrant(config, available, requested, false))
  {
  }

  /** A cycle never ends with an empty balance. */
  lemma CycleLeavesCredit(config: CreditConfig, available: u16, c: Cycle)
    requires config.adaptiveGrants && 1 <= available <= config.maxCredits
    ensures AfterCycle(config, available, c) >= 1
  {
  }

  lemma {:induction false} CyclesLeaveCredit(config: CreditConfig, available: u16, cycles: seq<Cycle>)
    requires config.adaptiveGrants && 1 <= available <= config.maxCredits
    ensures AfterCycles(config, available, cycles) >= 1
    decreases |cycles|
  {
    hide AfterCycle;
    if cycles != [] {
      CycleLeavesCredit(config, available, cycles[0]);
      CyclesLeaveCredit(config, AfterCycle(config, available, cycles[0]), cycles[1..]);
    }
  }

  /** A cycle that charges one credit never lowers the balance, and raises it while it is low. */
  lemma UnitCycle(config: CreditConfig, available: u16, c: Cycle)
    requires config.adaptiveGrants && 1 <= available <= config.maxCredits && c.charge <= 1
    ensures AfterCycle(config, available, c) >= available
    ensures available + 2 < config.maxCredits / 2 ==>
              AfterCycle(config, available, c) >= available + (config.maxCredits / 2 - available + 1) / 4
    ensures available + 2 < config.maxCredits / 2 ==> AfterCycle(config, available, c) > available
  {
  }

  predicate UnitCycles(cycles: seq<Cycle>) {
    forall i :: 0 <= i < |cycles| ==> cycles[i].charge <= 1
  }

  /** Each cycle of one credit brings a low balance at least one credit closer to half the maximum. */
  lemma {:induction false} UnitCyclesRise(config: CreditConfig, available: u16, cycles: seq<Cycle>)
    requires config.adaptiveGrants && 1 <= available <= config.maxCredits && UnitCycles(cycles)
    ensures AfterCycles(config, available, cycles) >= available
    ensures AfterCycles(config, available, cycles) + 2 >= Min(config.maxCredits / 2, available + 2 + |cycles|)
    decreases |cycles|
  {
    hide AfterCycle;
    if cycles != [] {
      UnitCycle(config, available, cycles[0]);
      UnitCyclesRise(config, AfterCycle(config, available, cycles[0]), cycles[1..]);
    }
  }

  /**
   After half the maximum number of one-credit cycles the balance is at least half the maximum
   less two, and it never falls below that again.
   */
  lemma UnitCyclesSettle(config: CreditConfig, available: u16, cycles: seq<Cycle>)
    requires config.adaptiveGrants && 1 <= available <= config.maxCredits && UnitCycles(cycles)
    requires |cycles| >= config.maxCredits / 2
    ensures AfterCycles(config, available, cycles) + 2 >= config.maxCredits / 2
  {
    UnitCyclesRise(config, available, cycles);
  }

  /** Exactly which configurations never starve a client that pays its charges. */
  lemma StarvationFree(config: CreditConfig)
    requires config.maxCredits >= 1
    ensures (forall available: u16, c: Cycle :: 1 <= available <= config.maxCredits ==>
               AfterCycle(config, available, c) >= 1) <==>
            config.adaptiveGrants || config.grantPerResponse >= 1
  {
    if config.adaptiveGrants {
      forall available: u16, c: Cycle | 1 <= available <= config.maxCredits
        ensures AfterCycle(config, available, c) >= 1
      {
        CycleLeavesCredit(config, available, c);
      }
    } else if config.grantPerResponse == 0 {
      assert AfterCycle(config, 1, Cycle(1, 0, false)) == 0;
    }
  }

  /** reset stores the initial balance and leaves the totals alone. */
  function Reset(m: Machine): Machine {
    m.(available := m.config.initialCredits)
  }

  lemma ResetKeepsConservation(m: Machine)
    requires Conserved(m)
    ensures Conserved(Reset(m)) <==> m.available == m.config.initialCredits
  {
  }

  // ---------- the credit manager without contention ----------

  class CreditManager {
    var available: u16
    var granted: nat
    var consumed: nat
    const config: CreditConfig

    constructor (config: CreditConfig)
      ensures this.config == config
      ensures available == config.initialCredits && granted == config.initialCredits && consumed == 0
    {
      this.config := config;
      available, granted, consumed := config.initialCredits, config.initialCredits, 0;
    }

    /** `lost` weak swaps fail before one is allowed to succeed. */
    method ConsumeCredits(charge: u16, lost: nat) returns (r: Option<u16>)
      modifies this`available, this`consumed
      ensures (available, r) == Consume(old(available), charge)
      ensures consumed == old(consumed) + if r.Some? then r.value else 0
    {
      var actual := if charge < 1 then 1 else charge;
      var failures := lost;
      while true
        invariant available == old(available) && consumed == old(consumed)
        decreases failures
      {
        var current := available;
        if current < actual {
          return None;
        }
        var newValue := current - actual;
        if failures == 0 {
          available := newValue;
          consumed := consumed + actual;
          return Some(actual);
        }
        failures := failures - 1;
      }
    }

    method GrantUpTo(credits: u16, lost: nat) returns (r: u16)
      modifies this`available, this`granted
      ensures (available, r) == Grant(config.maxCredits, old(available), credits)
      ensures granted == old(granted) + r
    {
      if credits == 0 {
        return 0;
      }
      var failures := lost;
      while true
        invariant available == old(available) && granted == old(granted)
        decreases failures
      {
        var current := available;
        var maxGrant := if config.maxCredits < current then 0 else config.maxCredits - current;
        var actual := if credits < maxGrant then credits else maxGrant;
        if actual == 0 {
          return 0;
        }
        var newValue := current + actual;
        if failures == 0 {
          available := newValue;
          granted := granted + actual;
          return actual;
        }
        failures := failures - 1;
      }
    }

    method Calculate(requested: u16, isAsync: bool) returns (grant: u16)
      ensures grant == CalculateGrant(config, available, requested, isAsync)
    {
      hide Min, Max;
      var headroom := if config.maxCredits < available then 0 else config.maxCredits - available;
      if headroom == 0 {
        return 0;
      }
      if !config.adaptiveGrants {
        return Min(config.grantPerResponse, headroom);
      }
      var target := config.maxCredits / 2;
      var g := Max(config.grantPerResponse, MIN_CREDITS_PER_RESPONSE);
      if available < target {
        var deficit := target - available;
        g := Min(g + deficit / 4, U16_MAX);
      }
      if requested > 0 {
        g := Max(g, requested);
      }
      if isAsync {
        g := Min(g * 2, U16_MAX);
      }
      grant := Max(Min(g, headroom), Min(MIN_CREDITS_PER_RESPONSE, headroom));
    }
  }
}
