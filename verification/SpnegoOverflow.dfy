/**
 The two token parsers on machine words: which tokens take the sum of an offset and a declared
 length beyond 64 bits, and for which tokens the field loop runs for ever when sums wrap.
 */
module SpnegoOverflow {
  import opened Core
  import opened Der
  import opened Spnego

  /** With overflow checks a sum beyond 64 bits is an error, without them it wraps. */
  datatype Mode = Checked | Wrapping

  datatype Parser = InitParser | RespParser

  const WORD: nat := 0x1_0000_0000_0000_0000

  function Sum(mode: Mode, from: nat, len: nat): Outcome<nat> {
    if from + len <= U64_MAX then Value(from + len)
    else if mode.Checked? then Overflow
    else Value((from + len) % WORD)
  }

  /** The triple at `i` declares a length that takes its end beyond 64 bits. */
  predicate LongAt(data: Bytes, i: nat) {
    i < |data| &&
    var header := DerLength(data[i + 1..]);
    header.Value? && i + 1 + LengthSize(header.value.1) + header.value.1 > U64_MAX
  }

  // ---------- the parsers, reduced to where they stand ----------

  /** Begin and end of the body of the triple at `i`. */
  function Bounds(mode: Mode, data: Bytes, i: nat): Outcome<(nat, nat)>
    requires i < |data|
  {
    var (_, len) :- DerLength(data[i + 1..]);
    var from := i + 1 + LengthSize(len);
    var to :- Sum(mode, from, len);
    Value((from, to))
  }

  function InnerRead(mode: Mode, data: Bytes, at: nat, tag: byte): Outcome<()> {
    var first :- At(data, at);
    if first != tag then Value(())
    else
      var (from, to) :- Bounds(mode, data, at);
      var _ :- Slice(data, from, to);
      Value(())
  }

  predicate OidAt(data: Bytes, end: nat, offset: nat) {
    offset < end && offset < |data| && data[offset] == TAG_OID
  }

  function OidRound(mode: Mode, data: Bytes, offset: nat): Outcome<nat>
    requires offset < |data|
  {
    var (from, to) :- Bounds(mode, data, offset);
    var _ :- Slice(data, from, to);
    Value(to)
  }

  lemma OidRoundAdvances(mode: Mode, data: Bytes, offset: nat)
    requires offset < |data|
    ensures OidRound(mode, data, offset).Value? ==> offset < OidRound(mode, data, offset).value <= |data|
  {
  }

  function OidRun(mode: Mode, data: Bytes, end: nat, offset: nat): Outcome<()>
    decreases |data| - offset
  {
    if !OidAt(data, end, offset) then Value(())
    else
      OidRoundAdvances(mode, data, offset);
      var to :- OidRound(mode, data, offset);
      OidRun(mode, data, end, to)
  }

  /** Where the mechanism loop stands after reading `n` OIDs, if it gets that far. */
  function OidsAfter(data: Bytes, end: nat, offset: nat, n: nat): Option<nat>
    decreases n
  {
    if n == 0 then Some(offset)
    else if OidAt(data, end, offset) && OidRound(Checked, data, offset).Value?
    then OidsAfter(data, end, OidRound(Checked, data, offset).value, n - 1)
    else None
  }

  function MechRead(mode: Mode, data: Bytes): Outcome<()> {
    if data == [] || data[0] != TAG_SEQUENCE then NoValue
    else
      var (from, to) :- Bounds(mode, data, 0);
      OidRun(mode, data, to, from)
  }

  function StateRead(data: Bytes, from: nat): Outcome<()> {
    var first :- At(data, from);
    if first != TAG_ENUM then Value(())
    else
      var _ :- At(data, from + 2);
      Value(())
  }

  /** The tag of the triple that a parser reads inside a field with this tag. */
  function InnerTag(p: Parser, tag: byte): Option<byte> {
    if tag == TAG_2 then Some(TAG_OCTETS)
    else if p.RespParser? && tag == TAG_1 then Some(TAG_OID)
    else None
  }

  function FieldRead(p: Parser, mode: Mode, data: Bytes, tag: byte, from: nat, to: nat): Outcome<()> {
    if tag == TAG_0 && p.InitParser? then
      var body :- Slice(data, from, to);
      MechRead(mode, body)
    else if tag == TAG_0 then StateRead(data, from)
    else if InnerTag(p, tag).Some? then InnerRead(mode, data, from, InnerTag(p, tag).value)
    else Value(())
  }

  /** One round of the field loop: the offset of the next field. */
  function Round(p: Parser, mode: Mode, data: Bytes, offset: nat): Outcome<nat>
    requires offset < |data|
  {
    var (from, to) :- Bounds(mode, data, offset);
    var _ :- FieldRead(p, mode, data, data[offset], from, to);
    Value(to)
  }

  /** Where the field loop stands after `n` rounds, if it makes that many. */
  function After(p: Parser, mode: Mode, data: Bytes, offset: nat, n: nat): Option<nat>
    decreases n
  {
    if n == 0 then Some(offset)
    else if offset < |data| && Round(p, mode, data, offset).Value?
    then After(p, mode, data, Round(p, mode, data, offset).value, n - 1)
    else None
  }

  /** After `n` rounds the loop stands at a field. */
  predicate Reaches(p: Parser, mode: Mode, data: Bytes, start: nat, n: nat) {
    After(p, mode, data, start, n).Some? && After(p, mode, data, start, n).value < |data|
  }

  function GssEnd(mode: Mode, data: Bytes): Outcome<nat>
    requires data != []
  {
    if data[0] != TAG_GSS then Value(0)
    else
      var offset :- Enter(data, 0, TAG_GSS);
      var first :- At(data, offset);
      if first != TAG_OID then NoValue
      else
        var (_, to) :- Bounds(mode, data, offset);
        Value(to)
  }

  /** Where the field loop of a token begins. */
  function FieldsAt(p: Parser, mode: Mode, data: Bytes): Outcome<nat> {
    match p
    case InitParser =>
      if |data| < 4 then NoValue
      else
        var start :- GssEnd(mode, data);
        var inner :- Enter(data, start, TAG_0);
        Enter(data, inner, TAG_SEQUENCE)
    case RespParser =>
      if |data| < 2 || data[0] != TAG_1 then NoValue
      else
        var inner :- Enter(data, 0, TAG_1);
        Enter(data, inner, TAG_SEQUENCE)
  }

  // ---------- the reduction is the parser ----------

  predicate SameEnd<T(==), U(==)>(a: Outcome<T>, b: Outcome<U>) {
    (a.Value? <==> b.Value?) && (a.NoValue? <==> b.NoValue?) && (a.Panic? <==> b.Panic?)
  }

  lemma InnerSame(data: Bytes, at: nat, tag: byte)
    ensures SameEnd(Inner(data, at, tag), InnerRead(Checked, data, at, tag))
  {
    hide DerLength, LengthSize;
  }

  lemma {:induction false} OidsSame(data: Bytes, offset: nat, end: nat, types: seq<Bytes>)
    ensures SameEnd(MechLoop(data, offset, end, types), OidRun(Checked, data, end, offset))
    decreases |data| - offset
  {
    hide DerLength, LengthSize;
    if OidAt(data, end, offset) && OidRound(Checked, data, offset).Value? {
      OidRoundAdvances(Checked, data, offset);
      var (from, to) := Bounds(Checked, data, offset).value;
      OidsSame(data, to, end, types + [data[from..to]]);
    }
  }

  lemma MechSame(data: Bytes)
    ensures SameEnd(MechTypes(data), MechRead(Checked, data))
  {
    hide DerLength, LengthSize, MechLoop, OidRun;
    if data != [] && data[0] == TAG_SEQUENCE && Bounds(Checked, data, 0).Value? {
      var (from, to) := Bounds(Checked, data, 0).value;
      OidsSame(data, from, to, []);
    }
  }

  lemma InitFieldSame(data: Bytes, tag: byte, from: nat, to: nat, init: NegTokenInit)
    ensures SameEnd(InitField(data, tag, from, to, init), FieldRead(InitParser, Checked, data, tag, from, to))
  {
    hide MechTypes, MechRead, Inner, InnerRead;
    if tag == TAG_0 && from <= to <= |data| {
      MechSame(data[from..to]);
    }
    InnerSame(data, from, TAG_OCTETS);
  }

  lemma RespFieldSame(data: Bytes, tag: byte, from: nat, to: nat, resp: NegTokenResp)
    ensures SameEnd(RespField(data, tag, from, resp), FieldRead(RespParser, Checked, data, tag, from, to))
  {
    hide MechRead, Inner, InnerRead;
    InnerSame(data, from, TAG_OCTETS);
    InnerSame(data, from, TAG_OID);
  }

  lemma RoundAdvances(p: Parser, mode: Mode, data: Bytes, offset: nat)
    requires offset < |data| && Round(p, mode, data, offset).Value? && !LongAt(data, offset)
    ensures Round(p, mode, data, offset).value > offset
  {
    hide FieldRead;
  }

  /** After one round the loop goes on from the next field, or ends as the round does. */
  lemma InitLoopRound(data: Bytes, offset: nat, init: NegTokenInit) returns (next: NegTokenInit)
    requires offset < |data|
    ensures var round := Round(InitParser, Checked, data, offset);
            && (round.Value? ==> InitLoop(data, offset, init) == InitLoop(data, round.value, next))
            && (!round.Value? ==> SameEnd(InitLoop(data, offset, init), round))
  {
    hide DerLength, LengthSize, InitField, FieldRead;
    next := init;
    if Bounds(Checked, data, offset).Value? {
      var (from, to) := Bounds(Checked, data, offset).value;
      InitFieldSame(data, data[offset], from, to, init);
      var field := InitField(data, data[offset], from, to, init);
      if field.Value? {
        next := field.value;
      }
    }
  }

  lemma RespLoopRound(data: Bytes, offset: nat, resp: NegTokenResp) returns (next: NegTokenResp)
    requires offset < |data|
    ensures var round := Round(RespParser, Checked, data, offset);
            && (round.Value? ==> RespLoop(data, offset, resp) == RespLoop(data, round.value, next))
            && (!round.Value? ==> SameEnd(RespLoop(data, offset, resp), round))
  {
    hide DerLength, LengthSize, RespField, FieldRead;
    next := resp;
    if Bounds(Checked, data, offset).Value? {
      var (from, to) := Bounds(Checked, data, offset).value;
      RespFieldSame(data, data[offset], from, to, resp);
      var field := RespField(data, data[offset], from, resp);
      if field.Value? {
        next := field.value;
      }
    }
  }

  // ---------- exactly when a round overflows ----------

  lemma {:induction false} AccumulateNeverOverflows(bytes: Bytes, len: nat)
    ensures Accumulate(bytes, len) != Overflow
  {
    if bytes != [] && len * 256 + bytes[0] <= U64_MAX {
      AccumulateNeverOverflows(bytes[1..], len * 256 + bytes[0]);
    }
  }

  lemma LengthNeverOverflows(data: Bytes)
    ensures DerLength(data) != Overflow
  {
    if data != [] && data[0] > 0x80 && |data| >= 1 + (data[0] - 0x80) {
      AccumulateNeverOverflows(data[1..1 + (data[0] - 0x80)], 0);
    }
  }

  lemma BoundsOverflow(data: Bytes, i: nat)
    requires i < |data|
    ensures Bounds(Checked, data, i) == Overflow <==> LongAt(data, i)
  {
    hide DerLength, LengthSize;
    LengthNeverOverflows(data[i + 1..]);
  }

  /** The mechanism loop comes to an OID with a long length. */
  ghost predicate OidsLong(data: Bytes, end: nat, offset: nat) {
    exists n: nat ::
      OidsAfter(data, end, offset, n).Some? && OidAt(data, end, OidsAfter(data, end, offset, n).value) &&
      LongAt(data, OidsAfter(data, end, offset, n).value)
  }

  lemma {:induction false} OidsOverflow(data: Bytes, end: nat, offset: nat)
    ensures OidRun(Checked, data, end, offset) == Overflow <==> OidsLong(data, end, offset)
    decreases |data| - offset
  {
    hide Bounds, LongAt, OidRound;
    if OidAt(data, end, offset) {
      OidRoundOverflow(data, offset);
      assert OidsAfter(data, end, offset, 0) == Some(offset);
      var round := OidRound(Checked, data, offset);
      if round.Value? {
        OidRoundAdvances(Checked, data, offset);
        OidsOverflow(data, end, round.value);
        OidsLongLater(data, end, offset);
      }
    }
  }

  lemma OidRoundOverflow(data: Bytes, offset: nat)
    requires offset < |data|
    ensures OidRound(Checked, data, offset) == Overflow <==> LongAt(data, offset)
  {
    hide LongAt, Bounds;
    BoundsOverflow(data, offset);
  }

  lemma OidsLongLater(data: Bytes, end: nat, offset: nat)
    requires OidAt(data, end, offset) && OidRound(Checked, data, offset).Value? && !LongAt(data, offset)
    ensures OidsLong(data, end, offset) <==> OidsLong(data, end, OidRound(Checked, data, offset).value)
  {
    hide LongAt, OidRound;
    var next := OidRound(Checked, data, offset).value;
    assert forall n: nat :: OidsAfter(data, end, offset, n + 1) == OidsAfter(data, end, next, n);
    if OidsLong(data, end, next) {
      var n: nat :| OidsAfter(data, end, next, n).Some? && OidAt(data, end, OidsAfter(data, end, next, n).value) &&
                    LongAt(data, OidsAfter(data, end, next, n).value);
      assert OidsAfter(data, end, offset, n + 1) == OidsAfter(data, end, next, n);
    }
    if OidsLong(data, end, offset) {
      var n: nat :| OidsAfter(data, end, offset, n).Some? && OidAt(data, end, OidsAfter(data, end, offset, n).value) &&
                    LongAt(data, OidsAfter(data, end, offset, n).value);
      assert n > 0 && OidsAfter(data, end, offset, n) == OidsAfter(data, end, next, n - 1);
    }
  }

  /** A mechanism list whose own length is long, or that comes to a long OID. */
  ghost predicate MechsLong(data: Bytes) {
    && data != [] && data[0] == TAG_SEQUENCE
    && (LongAt(data, 0) ||
        (Bounds(Checked, data, 0).Value? &&
         OidsLong(data, Bounds(Checked, data, 0).value.1, Bounds(Checked, data, 0).value.0)))
  }

  /** The field is long itself, or the triple or the mechanism list that the parser reads in it is. */
  ghost predicate FieldLong(p: Parser, data: Bytes, offset: nat)
    requires offset < |data|
  {
    LongAt(data, offset) ||
    (Bounds(Checked, data, offset).Value? &&
     var (from, to) := Bounds(Checked, data, offset).value;
     var tag := data[offset];
     || (tag == TAG_0 && p.InitParser? && from <= to <= |data| && MechsLong(data[from..to]))
     || (tag != TAG_0 && InnerTag(p, tag).Some? && from < |data| && data[from] == InnerTag(p, tag).value &&
         LongAt(data, from)))
  }

  lemma MechOverflow(data: Bytes)
    ensures MechRead(Checked, data) == Overflow <==> MechsLong(data)
  {
    hide Bounds, LongAt, OidRun, OidsLong;
    if data != [] && data[0] == TAG_SEQUENCE {
      BoundsOverflow(data, 0);
      if Bounds(Checked, data, 0).Value? {
        var (from, to) := Bounds(Checked, data, 0).value;
        OidsOverflow(data, to, from);
      }
    }
  }

  lemma InnerOverflow(data: Bytes, at: nat, tag: byte)
    ensures InnerRead(Checked, data, at, tag) == Overflow <==> at < |data| && data[at] == tag && LongAt(data, at)
  {
    hide Bounds, LongAt;
    if at < |data| {
      BoundsOverflow(data, at);
    }
  }

  lemma RoundOverflow(p: Parser, data: Bytes, offset: nat)
    requires offset < |data|
    ensures Round(p, Checked, data, offset) == Overflow <==> FieldLong(p, data, offset)
    ensures Round(p, Checked, data, offset).Value? ==> !LongAt(data, offset)
  {
    hide Bounds, LongAt, MechRead, MechsLong, InnerRead;
    BoundsOverflow(data, offset);
    if Bounds(Checked, data, offset).Value? {
      var (from, to) := Bounds(Checked, data, offset).value;
      var tag := data[offset];
      if from <= to <= |data| {
        MechOverflow(data[from..to]);
      }
      if InnerTag(p, tag).Some? {
        InnerOverflow(data, from, InnerTag(p, tag).value);
      }
    }
  }

  // ---------- exactly when a parser overflows ----------

  /** The field loop comes to a field with a long length in it. */
  ghost predicate ReachesLong(p: Parser, data: Bytes, start: nat) {
    exists n: nat :: Reaches(p, Checked, data, start, n) && FieldLong(p, data, After(p, Checked, data, start, n).value)
  }

  lemma ReachesLongLater(p: Parser, data: Bytes, offset: nat)
    requires offset < |data| && Round(p, Checked, data, offset).Value? && !FieldLong(p, data, offset)
    ensures ReachesLong(p, data, offset) <==> ReachesLong(p, data, Round(p, Checked, data, offset).value)
  {
    hide FieldLong, Round;
    var next := Round(p, Checked, data, offset).value;
    if ReachesLong(p, data, next) {
      var n: nat :| Reaches(p, Checked, data, next, n) && FieldLong(p, data, After(p, Checked, data, next, n).value);
      assert After(p, Checked, data, offset, n + 1) == After(p, Checked, data, next, n);
      assert Reaches(p, Checked, data, offset, n + 1);
    }
    if ReachesLong(p, data, offset) {
      var n: nat :| Reaches(p, Checked, data, offset, n) && FieldLong(p, data, After(p, Checked, data, offset, n).value);
      assert n > 0 && After(p, Checked, data, offset, n) == After(p, Checked, data, next, n - 1);
      assert Reaches(p, Checked, data, next, n - 1);
    }
  }

  lemma ReachesLongNow(p: Parser, data: Bytes, offset: nat)
    ensures offset < |data| && FieldLong(p, data, offset) ==> ReachesLong(p, data, offset)
    ensures ReachesLong(p, data, offset) ==>
              offset < |data| && (FieldLong(p, data, offset) || Round(p, Checked, data, offset).Value?)
  {
    hide FieldLong, Round;
    assert After(p, Checked, data, offset, 0) == Some(offset);
    if offset < |data| && FieldLong(p, data, offset) {
      assert Reaches(p, Checked, data, offset, 0);
    }
  }

  lemma {:induction false} InitLoopOverflow(data: Bytes, offset: nat, init: NegTokenInit)
    ensures InitLoop(data, offset, init) == Overflow <==> ReachesLong(InitParser, data, offset)
    decreases |data| - offset
  {
    hide InitLoop, Round, FieldLong, ReachesLong, LongAt;
    ReachesLongNow(InitParser, data, offset);
    if offset < |data| {
      var next := InitLoopRound(data, offset, init);
      RoundOverflow(InitParser, data, offset);
      var round := Round(InitParser, Checked, data, offset);
      if round.Value? {
        RoundAdvances(InitParser, Checked, data, offset);
        InitLoopOverflow(data, round.value, next);
        ReachesLongLater(InitParser, data, offset);
      }
    } else {
      InitLoopDone(data, offset, init);
    }
  }

  lemma InitLoopDone(data: Bytes, offset: nat, init: NegTokenInit)
    requires offset >= |data|
    ensures InitLoop(data, offset, init) == Value(init)
  {
  }

  lemma {:induction false} RespLoopOverflow(data: Bytes, offset: nat, resp: NegTokenResp)
    ensures RespLoop(data, offset, resp) == Overflow <==> ReachesLong(RespParser, data, offset)
    decreases |data| - offset
  {
    hide RespLoop, Round, FieldLong, ReachesLong, LongAt;
    ReachesLongNow(RespParser, data, offset);
    if offset < |data| {
      var next := RespLoopRound(data, offset, resp);
      RoundOverflow(RespParser, data, offset);
      var round := Round(RespParser, Checked, data, offset);
      if round.Value? {
        RoundAdvances(RespParser, Checked, data, offset);
        RespLoopOverflow(data, round.value, next);
        ReachesLongLater(RespParser, data, offset);
      }
    } else {
      RespLoopDone(data, offset, resp);
    }
  }

  lemma RespLoopDone(data: Bytes, offset: nat, resp: NegTokenResp)
    requires offset >= |data|
    ensures RespLoop(data, offset, resp) == Value(resp)
  {
  }

  /** The mechanism in the GSS-API wrapper declares a long length. */
  predicate GssLong(data: Bytes) {
    && |data| >= 4 && data[0] == TAG_GSS
    && Enter(data, 0, TAG_GSS).Value?
    && var offset := Enter(data, 0, TAG_GSS).value;
       offset < |data| && data[offset] == TAG_OID && LongAt(data, offset)
  }

  lemma EnterNeverOverflows(data: Bytes, offset: nat, tag: byte)
    ensures Enter(data, offset, tag) != Overflow
  {
    hide DerLength;
    if offset < |data| {
      LengthNeverOverflows(data[offset + 1..]);
    }
  }

  lemma GssOverflow(data: Bytes)
    requires |data| >= 4
    ensures SkipGss(data) == GssEnd(Checked, data)
    ensures SkipGss(data) == Overflow <==> GssLong(data)
  {
    hide DerLength, LengthSize, Enter;
    EnterNeverOverflows(data, 0, TAG_GSS);
    if Enter(data, 0, TAG_GSS).Value? {
      var offset := Enter(data, 0, TAG_GSS).value;
      if offset < |data| {
        BoundsOverflow(data, offset);
      }
    }
  }

  /**
   Exactly when a parser overflows: when it comes to a triple that declares a length beyond 64
   bits, be it the wrapper's mechanism, a field, the triple in a field, the mechanism list or an
   OID of the list.
   */
  lemma InitOverflowsExactly(data: Bytes)
    ensures ParseInit(data) == Overflow <==>
            GssLong(data) ||
            (FieldsAt(InitParser, Checked, data).Value? &&
             ReachesLong(InitParser, data, FieldsAt(InitParser, Checked, data).value))
  {
    hide Enter, GssEnd, SkipGss, InitLoop, ReachesLong, GssLong;
    if |data| >= 4 {
      GssOverflow(data);
      if SkipGss(data).Value? {
        var start := SkipGss(data).value;
        EnterNeverOverflows(data, start, TAG_0);
        if Enter(data, start, TAG_0).Value? {
          var inner := Enter(data, start, TAG_0).value;
          EnterNeverOverflows(data, inner, TAG_SEQUENCE);
          if Enter(data, inner, TAG_SEQUENCE).Value? {
            InitLoopOverflow(data, Enter(data, inner, TAG_SEQUENCE).value, EMPTY_INIT);
          }
        }
      }
    } else {
      ShortHasNoWrapper(data);
    }
  }

  lemma ShortHasNoWrapper(data: Bytes)
    requires |data| < 4
    ensures !GssLong(data)
  {
  }

  lemma RespOverflowsExactly(data: Bytes)
    ensures ParseResp(data) == Overflow <==>
            FieldsAt(RespParser, Checked, data).Value? &&
            ReachesLong(RespParser, data, FieldsAt(RespParser, Checked, data).value)
  {
    hide Enter, RespLoop, ReachesLong;
    if |data| >= 2 && data[0] == TAG_1 {
      EnterNeverOverflows(data, 0, TAG_1);
      if Enter(data, 0, TAG_1).Value? {
        var inner := Enter(data, 0, TAG_1).value;
        EnterNeverOverflows(data, inner, TAG_SEQUENCE);
        if Enter(data, inner, TAG_SEQUENCE).Value? {
          RespLoopOverflow(data, Enter(data, inner, TAG_SEQUENCE).value, EMPTY_RESP);
        }
      }
    }
  }

  // ---------- such a length is somewhere in the token ----------

  /** More bytes behind a readable length do not change it. */
  lemma LengthPrefix(a: Bytes, b: Bytes)
    requires a <= b && DerLength(a).Value?
    ensures DerLength(b) == DerLength(a)
  {
    hide Accumulate;
    if a[0] >= 0x80 {
      assert a[1..1 + (a[0] - 0x80)] == b[1..1 + (a[0] - 0x80)];
    }
  }

  lemma LongInSlice(data: Bytes, from: nat, to: nat, i: nat)
    requires from <= to <= |data| && LongAt(data[from..to], i)
    ensures LongAt(data, from + i)
  {
    hide DerLength, LengthSize;
    LengthPrefix(data[from..to][i + 1..], data[from + i + 1..]);
  }

  lemma FieldLongSomewhere(p: Parser, data: Bytes, offset: nat)
    requires offset < |data| && FieldLong(p, data, offset)
    ensures exists i :: LongAt(data, i)
  {
    hide LongAt, Bounds;
    if !LongAt(data, offset) {
      var (from, to) := Bounds(Checked, data, offset).value;
      if data[offset] == TAG_0 {
        var body := data[from..to];
        var i: nat :| LongAt(body, i);
        LongInSlice(data, from, to, i);
      }
    }
  }

  /** A parser overflows only on a token that somewhere declares a length beyond 64 bits. */
  lemma OverflowNeedsLongLength(data: Bytes)
    ensures ParseInit(data) == Overflow || ParseResp(data) == Overflow ==> exists i :: LongAt(data, i)
  {
    hide ParseInit, ParseResp, FieldLong, Round, FieldsAt, LongAt;
    InitOverflowsExactly(data);
    RespOverflowsExactly(data);
    forall p: Parser, start: nat | ReachesLong(p, data, start)
      ensures exists i :: LongAt(data, i)
    {
      var n: nat :| Reaches(p, Checked, data, start, n) && FieldLong(p, data, After(p, Checked, data, start, n).value);
      FieldLongSomewhere(p, data, After(p, Checked, data, start, n).value);
    }
  }

  // ---------- exactly when the loop runs for ever ----------

  ghost predicate RunsForever(p: Parser, mode: Mode, data: Bytes, start: nat) {
    forall n: nat :: Reaches(p, mode, data, start, n)
  }

  /** The loop comes back to a field where it has been. */
  ghost predicate Returns(p: Parser, mode: Mode, data: Bytes, start: nat) {
    exists m: nat, n: nat ::
      m < n && Reaches(p, mode, data, start, n) && After(p, mode, data, start, m) == After(p, mode, data, start, n)
  }

  lemma {:induction false} AfterMore(p: Parser, mode: Mode, data: Bytes, start: nat, m: nat, n: nat)
    ensures After(p, mode, data, start, m + n) ==
            if After(p, mode, data, start, m).Some?
            then After(p, mode, data, After(p, mode, data, start, m).value, n) else None
    decreases m
  {
    hide Round;
    if m > 0 && start < |data| && Round(p, mode, data, start).Value? {
      AfterMore(p, mode, data, Round(p, mode, data, start).value, m - 1, n);
    }
  }

  /** To make more rounds the loop stands at a field before. */
  lemma ReachesEarlier(p: Parser, mode: Mode, data: Bytes, start: nat, m: nat, n: nat)
    requires m <= n && Reaches(p, mode, data, start, n)
    ensures Reaches(p, mode, data, start, m)
  {
    hide Round;
    AfterMore(p, mode, data, start, m, n - m);
  }

  lemma {:induction false} ReturnsForever(p: Parser, mode: Mode, data: Bytes, start: nat, m: nat, n: nat, k: nat)
    requires m < n && Reaches(p, mode, data, start, n)
    requires After(p, mode, data, start, m) == After(p, mode, data, start, n)
    ensures Reaches(p, mode, data, start, k)
    decreases k
  {
    hide Round;
    if k <= n {
      ReachesEarlier(p, mode, data, start, k, n);
    } else {
      AfterMore(p, mode, data, start, n, k - n);
      AfterMore(p, mode, data, start, m, k - n);
      ReturnsForever(p, mode, data, start, m, n, m + (k - n));
    }
  }

  /** Where the loop stands before each of the first `n` rounds. */
  lemma {:induction false} Trace(p: Parser, mode: Mode, data: Bytes, start: nat, n: nat) returns (t: seq<nat>)
    requires Reaches(p, mode, data, start, n)
    ensures |t| == n + 1
    ensures forall k :: 0 <= k <= n ==> After(p, mode, data, start, k) == Some(t[k]) && t[k] < |data|
  {
    hide After;
    t := [After(p, mode, data, start, n).value];
    if n > 0 {
      ReachesEarlier(p, mode, data, start, n - 1, n);
      var before := Trace(p, mode, data, start, n - 1);
      t := before + t;
    }
  }

  /** More numbers below `bound` than there are: two of them are equal. */
  lemma {:induction false} Pigeons(t: seq<nat>, bound: nat)
    requires |t| > bound && forall k :: 0 <= k < |t| ==> t[k] < bound
    ensures exists i, j :: 0 <= i < j < |t| && t[i] == t[j]
  {
    if forall i, j :: 0 <= i < j < |t| ==> t[i] != t[j] {
      DistinctFit(t, bound);
    }
  }

  lemma {:induction false} DistinctFit(t: seq<nat>, bound: nat)
    requires forall i, j :: 0 <= i < j < |t| ==> t[i] != t[j]
    requires forall k :: 0 <= k < |t| ==> t[k] < bound
    ensures |t| <= bound
  {
    var members := set k | 0 <= k < |t| :: t[k];
    DistinctSize(t);
    BelowSize(members, bound);
  }

  lemma {:induction false} DistinctSize(t: seq<nat>)
    requires forall i, j :: 0 <= i < j < |t| ==> t[i] != t[j]
    ensures |set k | 0 <= k < |t| :: t[k]| == |t|
  {
    if t != [] {
      var n := |t| - 1;
      DistinctSize(t[..n]);
      var before := set k | 0 <= k < |t[..n]| :: t[..n][k];
      assert (set k | 0 <= k < |t| :: t[k]) == before + {t[n]};
    }
  }

  lemma {:induction false} BelowSize(members: set<nat>, bound: nat)
    requires forall x :: x in members ==> x < bound
    ensures |members| <= bound
  {
    if bound == 0 {
      assert members == {};
    } else {
      BelowSize(members - {bound - 1}, bound - 1);
      if bound - 1 in members {
        assert members == members - {bound - 1} + {bound - 1};
      } else {
        assert members == members - {bound - 1};
      }
    }
  }

  /**
   The loop runs for ever if and only if it comes back to a field where it has been; it does so
   within as many rounds as the token has bytes, or ends.
   */
  lemma ForeverIffReturns(p: Parser, mode: Mode, data: Bytes, start: nat)
    ensures RunsForever(p, mode, data, start) <==> Returns(p, mode, data, start)
    ensures RunsForever(p, mode, data, start) <==> Reaches(p, mode, data, start, |data|)
  {
    hide After;
    if Reaches(p, mode, data, start, |data|) {
      var t := Trace(p, mode, data, start, |data|);
      Pigeons(t, |data|);
      var i, j :| 0 <= i < j < |t| && t[i] == t[j];
      assert Reaches(p, mode, data, start, j);
      assert Returns(p, mode, data, start);
    }
    if Returns(p, mode, data, start) {
      var m: nat, n: nat :| m < n && Reaches(p, mode, data, start, n) &&
                            After(p, mode, data, start, m) == After(p, mode, data, start, n);
      forall k: nat
        ensures Reaches(p, mode, data, start, k)
      {
        ReturnsForever(p, mode, data, start, m, n, k);
      }
    }
  }

  /** No field that the loop comes to without overflow checks is long. */
  ghost predicate NoLongField(p: Parser, mode: Mode, data: Bytes, start: nat) {
    forall k: nat :: mode.Wrapping? && Reaches(p, mode, data, start, k) ==>
      !LongAt(data, After(p, mode, data, start, k).value)
  }

  /** Then the loop only moves forward. */
  lemma {:induction false} MovesForward(p: Parser, mode: Mode, data: Bytes, start: nat, n: nat)
    requires NoLongField(p, mode, data, start)
    ensures After(p, mode, data, start, n).Some? ==> After(p, mode, data, start, n).value >= start + n
  {
    hide Round, LongAt;
    if n > 0 && After(p, mode, data, start, n).Some? {
      AfterMore(p, mode, data, start, n - 1, 1);
      MovesForward(p, mode, data, start, n - 1);
      var o := After(p, mode, data, start, n - 1).value;
      OneRound(p, mode, data, o);
      assert Reaches(p, mode, data, start, n - 1);
      if mode.Checked? {
        RoundOverflow(p, data, o);
      }
      RoundAdvances(p, mode, data, o);
    }
  }

  lemma OneRound(p: Parser, mode: Mode, data: Bytes, offset: nat)
    ensures After(p, mode, data, offset, 1) ==
            if offset < |data| && Round(p, mode, data, offset).Value?
            then Some(Round(p, mode, data, offset).value) else None
  {
    hide Round;
    if offset < |data| && Round(p, mode, data, offset).Value? {
      assert After(p, mode, data, Round(p, mode, data, offset).value, 0) ==
             Some(Round(p, mode, data, offset).value);
    }
  }

  /**
   A test for callers: with overflow checks the loop always ends, and without them it ends if no
   field that it comes to is long, within as many rounds as the token has bytes.
   */
  lemma EndsWithoutLongField(p: Parser, mode: Mode, data: Bytes, start: nat)
    requires NoLongField(p, mode, data, start)
    ensures !Reaches(p, mode, data, start, |data|) && !RunsForever(p, mode, data, start)
  {
    hide After, NoLongField;
    MovesForward(p, mode, data, start, |data|);
  }

  // ---------- fields that do not move the loop forward ----------

  /** The one length whose field ends, modulo 2^64, where it begins. */
  const STUCK_LENGTH: nat := WORD - 5

  /** Where a wrapping sum takes a parser: not forward exactly for long lengths up to 2^64 - 5. */
  lemma WrappedEnd(offset: nat, len: nat)
    requires offset < WORD / 2 && len < WORD
    ensures var from := offset + 1 + LengthSize(len);
            && ((from + len) % WORD <= offset <==> from + len > U64_MAX && len <= STUCK_LENGTH)
            && ((from + len) % WORD == offset <==> len == STUCK_LENGTH)
  {
    var end := offset + 1 + LengthSize(len) + len;
    if end > U64_MAX {
      assert end % WORD == end - WORD;
    }
  }

  lemma {:induction false} AccumulateBound(bytes: Bytes, len: nat)
    requires Accumulate(bytes, len).Value? && len <= U64_MAX
    ensures Accumulate(bytes, len).value <= U64_MAX
  {
    if bytes != [] {
      AccumulateBound(bytes[1..], len * 256 + bytes[0]);
    }
  }

  lemma LengthBound(data: Bytes)
    requires DerLength(data).Value?
    ensures DerLength(data).value.1 <= U64_MAX
  {
    if data[0] >= 0x80 {
      AccumulateBound(data[1..1 + (data[0] - 0x80)], 0);
    }
  }

  /** A field whose tag the parser ignores. */
  predicate IgnoredAt(p: Parser, data: Bytes, offset: nat) {
    && offset < |data| && data[offset] != TAG_0 && InnerTag(p, data[offset]).None?
    && DerLength(data[offset + 1..]).Value?
  }

  lemma IgnoredRound(p: Parser, data: Bytes, offset: nat)
    requires IgnoredAt(p, data, offset)
    ensures var len := DerLength(data[offset + 1..]).value.1;
            Round(p, Wrapping, data, offset) == Value((offset + 1 + LengthSize(len) + len) % WORD)
  {
    hide DerLength, LengthSize;
    var len := DerLength(data[offset + 1..]).value.1;
    var end := offset + 1 + LengthSize(len) + len;
    if end <= U64_MAX {
      assert end % WORD == end;
    }
  }

  /** The loop stays at an ignored field for ever if and only if the field has the length 2^64 - 5. */
  lemma LoopStaysExactly(p: Parser, data: Bytes, offset: nat)
    requires IgnoredAt(p, data, offset) && |data| < WORD / 2
    ensures (forall n: nat :: After(p, Wrapping, data, offset, n) == Some(offset)) <==>
            DerLength(data[offset + 1..]).value.1 == STUCK_LENGTH
  {
    hide DerLength, LengthSize, Round;
    var len := DerLength(data[offset + 1..]).value.1;
    LengthBound(data[offset + 1..]);
    WrappedEnd(offset, len);
    IgnoredRound(p, data, offset);
    OneRound(p, Wrapping, data, offset);
    if len == STUCK_LENGTH {
      forall n: nat
        ensures After(p, Wrapping, data, offset, n) == Some(offset)
      {
        StaysAt(p, data, offset, n);
      }
    }
  }

  lemma {:induction false} StaysAt(p: Parser, data: Bytes, offset: nat, n: nat)
    requires offset < |data| && Round(p, Wrapping, data, offset) == Value(offset)
    ensures After(p, Wrapping, data, offset, n) == Some(offset)
  {
    hide Round;
    if n > 0 {
      StaysAt(p, data, offset, n - 1);
    }
  }

  // ---------- two tokens ----------

  /** Header of a NegTokenInit, then one ignored field of length 2^64 - 5. */
  const STAYING_TOKEN: Bytes := [0xA0, 0x0C, 0x30, 0x0A, 0x99, 0x88, 0xFF, 0xFF, 0xFF, 0xFF, 0xFF, 0xFF, 0xFF, 0xFB]

  /** An empty ignored field, then one of length 2^64 - 7. */
  const RETURNING_TOKEN: Bytes :=
    [0xA0, 0x0E, 0x30, 0x0C, 0x99, 0x00, 0x99, 0x88, 0xFF, 0xFF, 0xFF, 0xFF, 0xFF, 0xFF, 0xFF, 0xF9]

  lemma AccumulateStep(bytes: Bytes, len: nat, more: nat)
    requires bytes != [] && more == len * 256 + bytes[0] <= U64_MAX
    ensures Accumulate(bytes, len) == Accumulate(bytes[1..], more)
  {
  }

  lemma EightBytes(data: Bytes, last: byte)
    requires data == [0x88, 0xFF, 0xFF, 0xFF, 0xFF, 0xFF, 0xFF, 0xFF, last]
    ensures DerLength(data) == Value((9, WORD - 256 + last))
  {
    var bytes := data[1..9];
    AccumulateStep(bytes, 0, 0xFF);
    AccumulateStep(bytes[1..], 0xFF, 0xFFFF);
    AccumulateStep(bytes[2..], 0xFFFF, 0xFFFFFF);
    AccumulateStep(bytes[3..], 0xFFFFFF, 0xFFFFFFFF);
    AccumulateStep(bytes[4..], 0xFFFFFFFF, 0xFFFFFFFFFF);
    AccumulateStep(bytes[5..], 0xFFFFFFFFFF, 0xFFFFFFFFFFFF);
    AccumulateStep(bytes[6..], 0xFFFFFFFFFFFF, 0xFFFFFFFFFFFFFF);
    AccumulateStep(bytes[7..], 0xFFFFFFFFFFFFFF, WORD - 256 + last);
  }

  /** With overflow checks this token overflows; without them the loop stays at its field. */
  lemma StayingToken()
    ensures ParseInit(STAYING_TOKEN) == Overflow
    ensures FieldsAt(InitParser, Wrapping, STAYING_TOKEN) == Value(4)
    ensures RunsForever(InitParser, Wrapping, STAYING_TOKEN, 4)
  {
    var data := STAYING_TOKEN;
    EightBytes(data[5..], 0xFB);
    HeaderRead(data);
    hide DerLength, Enter, Round;
    assert LongAt(data, 4);
    LongFieldOverflows(data, 4, EMPTY_INIT, EMPTY_RESP);
    LoopStaysExactly(InitParser, data, 4);
    assert forall n: nat :: After(InitParser, Wrapping, data, 4, n) == Some(4);
  }

  /** Here the loop goes from the first field to the second and back, for ever. */
  lemma ReturningToken()
    ensures ParseInit(RETURNING_TOKEN) == Overflow
    ensures FieldsAt(InitParser, Wrapping, RETURNING_TOKEN) == Value(4)
    ensures After(InitParser, Wrapping, RETURNING_TOKEN, 4, 1) == Some(6)
    ensures After(InitParser, Wrapping, RETURNING_TOKEN, 4, 2) == Some(4)
    ensures RunsForever(InitParser, Wrapping, RETURNING_TOKEN, 4)
  {
    var data := RETURNING_TOKEN;
    EightBytes(data[7..], 0xF9);
    HeaderRead(data);
    assert DerLength(data[5..]) == Value((1, 0));
    hide DerLength, Enter;
    IgnoredRound(InitParser, data, 4);
    IgnoredRound(InitParser, data, 6);
    assert (6 + 1 + 4 + STUCK_LENGTH - 2) % WORD == 4;
    FirstFieldThenLong(data);
    hide Round;
    OneRound(InitParser, Wrapping, data, 4);
    OneRound(InitParser, Wrapping, data, 6);
    AfterMore(InitParser, Wrapping, data, 4, 1, 1);
    assert After(InitParser, Wrapping, data, 4, 0) == After(InitParser, Wrapping, data, 4, 2);
    assert Reaches(InitParser, Wrapping, data, 4, 2);
    ForeverIffReturns(InitParser, Wrapping, data, 4);
  }

  /** Both tokens begin with two short headers. */
  lemma HeaderRead(data: Bytes)
    requires |data| >= 6 && data[0] == TAG_0 && data[1] < 0x80 && data[2] == TAG_SEQUENCE && data[3] < 0x80
    ensures Enter(data, 0, TAG_0) == Value(2) && Enter(data, 2, TAG_SEQUENCE) == Value(4)
    ensures forall mode :: FieldsAt(InitParser, mode, data) == Value(4)
    ensures ParseInit(data) == InitLoop(data, 4, EMPTY_INIT)
  {
    hide InitLoop;
  }

  /** A long field overflows both parsers, whatever its tag and whatever was read before. */
  lemma LongFieldOverflows(data: Bytes, offset: nat, init: NegTokenInit, resp: NegTokenResp)
    requires LongAt(data, offset)
    ensures InitLoop(data, offset, init) == Overflow && RespLoop(data, offset, resp) == Overflow
  {
    hide DerLength, LengthSize;
  }

  lemma FirstFieldThenLong(data: Bytes)
    requires |data| >= 8 && data[4] == 0x99 && DerLength(data[5..]) == Value((1, 0)) && LongAt(data, 6)
    ensures InitLoop(data, 4, EMPTY_INIT) == Overflow
  {
    hide DerLength, LongAt;
    LongFieldOverflows(data, 6, EMPTY_INIT, EMPTY_RESP);
  }
}
