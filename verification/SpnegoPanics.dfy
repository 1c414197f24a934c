/**
 The two token parsers on malformed tokens: which tokens are read to the end and which make a
 slice go beyond the data, and what each field leaves in the result.
 */
module SpnegoPanics {
  import opened Core
  import opened Der
  import opened Spnego
  import opened SpnegoWire
  import opened SpnegoOverflow

  // ---------- lengths ----------

  lemma {:induction false} MoreBytesMoreValue(a: Bytes, b: Bytes)
    ensures BigEndian(a + b) >= BigEndian(a)
    decreases |b|
  {
    if b == [] {
      assert a + b == a;
    } else {
      var n := |b| - 1;
      assert (a + b)[..|a + b| - 1] == a + b[..n];
      MoreBytesMoreValue(a, b[..n]);
    }
  }

  lemma {:induction false} AccumulateIsBigEndian(read: Bytes, bytes: Bytes)
    requires BigEndian(read) <= U64_MAX
    ensures Accumulate(bytes, BigEndian(read)) ==
            if BigEndian(read + bytes) <= U64_MAX then Value(BigEndian(read + bytes)) else NoValue
    decreases |bytes|
  {
    if bytes == [] {
      assert read + bytes == read;
    } else {
      var next := read + [bytes[0]];
      assert next[..|read|] == read;
      assert next + bytes[1..] == read + bytes;
      MoreBytesMoreValue(next, bytes[1..]);
      if BigEndian(next) <= U64_MAX {
        AccumulateIsBigEndian(next, bytes[1..]);
      }
    }
  }

  /**
   The decoder, for all data: a first byte below 128 is the length; otherwise it counts the bytes
   of a big-endian length, and there is none if the count is 0, bytes are missing or the length
   does not fit 64 bits.
   */
  lemma DerLengthExactly(data: Bytes)
    ensures DerLength(data) ==
            if data == [] then NoValue
            else if data[0] < 0x80 then Value((1, data[0]))
            else if data[0] == 0x80 || |data| <= data[0] - 0x80 then NoValue
            else if BigEndian(data[1..1 + (data[0] - 0x80)]) > U64_MAX then NoValue
            else Value((1 + (data[0] - 0x80), BigEndian(data[1..1 + (data[0] - 0x80)])))
  {
    if data != [] && data[0] > 0x80 && |data| > data[0] - 0x80 {
      var body := data[1..1 + (data[0] - 0x80)];
      assert [] + body == body;
      AccumulateIsBigEndian([], body);
    }
  }

  lemma LengthNeverPanics(data: Bytes)
    ensures DerLength(data) != Panic
  {
    hide DerLength, BigEndian;
    DerLengthExactly(data);
  }

  // ---------- exactly when a round panics ----------

  /** The triple at `i` ends within 64 bits but beyond the data. */
  predicate BeyondAt(data: Bytes, i: nat) {
    i < |data| && Bounds(Checked, data, i).Value? && Bounds(Checked, data, i).value.1 > |data|
  }

  lemma BoundsNeverPanic(data: Bytes, i: nat)
    requires i < |data|
    ensures Bounds(Checked, data, i) != Panic
    ensures Bounds(Checked, data, i).Value? ==>
              i < Bounds(Checked, data, i).value.0 <= Bounds(Checked, data, i).value.1
  {
    hide DerLength;
    LengthNeverPanics(data[i + 1..]);
    if DerLength(data[i + 1..]).Value? {
      var len: nat := DerLength(data[i + 1..]).value.1;
    }
  }

  /** The mechanism loop comes to an OID that ends beyond the list. */
  ghost predicate OidsBeyond(data: Bytes, end: nat, offset: nat) {
    exists n: nat ::
      OidsAfter(data, end, offset, n).Some? && OidAt(data, end, OidsAfter(data, end, offset, n).value) &&
      BeyondAt(data, OidsAfter(data, end, offset, n).value)
  }

  lemma OidsBeyondLater(data: Bytes, end: nat, offset: nat)
    requires OidAt(data, end, offset) && OidRound(Checked, data, offset).Value? && !BeyondAt(data, offset)
    ensures OidsBeyond(data, end, offset) <==> OidsBeyond(data, end, OidRound(Checked, data, offset).value)
  {
    hide BeyondAt, OidRound;
    var next := OidRound(Checked, data, offset).value;
    assert forall n: nat :: OidsAfter(data, end, offset, n + 1) == OidsAfter(data, end, next, n);
    if OidsBeyond(data, end, next) {
      var n: nat :| OidsAfter(data, end, next, n).Some? && OidAt(data, end, OidsAfter(data, end, next, n).value) &&
                    BeyondAt(data, OidsAfter(data, end, next, n).value);
      assert OidsAfter(data, end, offset, n + 1) == OidsAfter(data, end, next, n);
    }
    if OidsBeyond(data, end, offset) {
      var n: nat :| OidsAfter(data, end, offset, n).Some? && OidAt(data, end, OidsAfter(data, end, offset, n).value) &&
                    BeyondAt(data, OidsAfter(data, end, offset, n).value);
      assert n > 0 && OidsAfter(data, end, offset, n) == OidsAfter(data, end, next, n - 1);
    }
  }

  lemma OidRoundPanics(data: Bytes, offset: nat)
    requires offset < |data|
    ensures OidRound(Checked, data, offset) == Panic <==> BeyondAt(data, offset)
  {
    hide Bounds;
    BoundsNeverPanic(data, offset);
  }

  lemma {:induction false} OidsPanic(data: Bytes, end: nat, offset: nat)
    ensures OidRun(Checked, data, end, offset) == Panic <==> OidsBeyond(data, end, offset)
    decreases |data| - offset
  {
    hide Bounds, BeyondAt, OidRound;
    if OidAt(data, end, offset) {
      OidRoundPanics(data, offset);
      assert OidsAfter(data, end, offset, 0) == Some(offset);
      var round := OidRound(Checked, data, offset);
      if round.Value? {
        OidRoundAdvances(Checked, data, offset);
        OidsPanic(data, end, round.value);
        OidsBeyondLater(data, end, offset);
      }
    }
  }

  ghost predicate MechsBeyond(data: Bytes) {
    && data != [] && data[0] == TAG_SEQUENCE && Bounds(Checked, data, 0).Value?
    && OidsBeyond(data, Bounds(Checked, data, 0).value.1, Bounds(Checked, data, 0).value.0)
  }

  lemma MechPanics(data: Bytes)
    ensures MechRead(Checked, data) == Panic <==> MechsBeyond(data)
  {
    hide Bounds, OidRun, OidsBeyond;
    if data != [] && data[0] == TAG_SEQUENCE {
      BoundsNeverPanic(data, 0);
      if Bounds(Checked, data, 0).Value? {
        var (from, to) := Bounds(Checked, data, 0).value;
        OidsPanic(data, to, from);
      }
    }
  }

  /** A mechanism list ends beyond the data or comes to such an OID, or the triple in a field does. */
  ghost predicate FieldBeyond(p: Parser, data: Bytes, offset: nat)
    requires offset < |data|
  {
    Bounds(Checked, data, offset).Value? &&
    var (from, to) := Bounds(Checked, data, offset).value;
    var tag := data[offset];
    || (tag == TAG_0 && p.InitParser? && (to > |data| || (from <= to && MechsBeyond(data[from..to]))))
    || (tag != TAG_0 && InnerTag(p, tag).Some? && from < |data| && data[from] == InnerTag(p, tag).value &&
        BeyondAt(data, from))
  }

  lemma InnerPanics(data: Bytes, at: nat, tag: byte)
    ensures InnerRead(Checked, data, at, tag) == Panic <==> at < |data| && data[at] == tag && BeyondAt(data, at)
  {
    hide Bounds;
    if at < |data| {
      BoundsNeverPanic(data, at);
    }
  }

  lemma RoundPanics(p: Parser, data: Bytes, offset: nat)
    requires offset < |data|
    ensures Round(p, Checked, data, offset) == Panic <==> FieldBeyond(p, data, offset)
  {
    hide Bounds, BeyondAt, MechRead, MechsBeyond, InnerRead;
    BoundsNeverPanic(data, offset);
    if Bounds(Checked, data, offset).Value? {
      var (from, to) := Bounds(Checked, data, offset).value;
      var tag := data[offset];
      if to <= |data| {
        MechPanics(data[from..to]);
      }
      if InnerTag(p, tag).Some? {
        InnerPanics(data, from, InnerTag(p, tag).value);
      }
    }
  }

  // ---------- how the field loop ends ----------

  /** The field loop comes to a field that it cannot read, for this reason. */
  ghost predicate StopsAt(p: Parser, data: Bytes, start: nat, reason: Outcome<nat>) {
    exists n: nat ::
      Reaches(p, Checked, data, start, n) && Round(p, Checked, data, After(p, Checked, data, start, n).value) == reason
  }

  lemma StopsLater(p: Parser, data: Bytes, offset: nat, reason: Outcome<nat>)
    requires offset < |data| && Round(p, Checked, data, offset).Value? && !reason.Value?
    ensures StopsAt(p, data, offset, reason) <==> StopsAt(p, data, Round(p, Checked, data, offset).value, reason)
  {
    hide Round;
    var next := Round(p, Checked, data, offset).value;
    if StopsAt(p, data, next, reason) {
      var n: nat :| Reaches(p, Checked, data, next, n) &&
                    Round(p, Checked, data, After(p, Checked, data, next, n).value) == reason;
      assert After(p, Checked, data, offset, n + 1) == After(p, Checked, data, next, n);
      assert Reaches(p, Checked, data, offset, n + 1);
    }
    if StopsAt(p, data, offset, reason) {
      var n: nat :| Reaches(p, Checked, data, offset, n) &&
                    Round(p, Checked, data, After(p, Checked, data, offset, n).value) == reason;
      assert n > 0 && After(p, Checked, data, offset, n) == After(p, Checked, data, next, n - 1);
      assert Reaches(p, Checked, data, next, n - 1);
    }
  }

  lemma StopsNow(p: Parser, data: Bytes, offset: nat, reason: Outcome<nat>)
    requires !reason.Value?
    ensures offset < |data| && Round(p, Checked, data, offset) == reason ==> StopsAt(p, data, offset, reason)
    ensures StopsAt(p, data, offset, reason) ==>
              offset < |data| && (Round(p, Checked, data, offset) == reason || Round(p, Checked, data, offset).Value?)
  {
    hide Round;
    assert After(p, Checked, data, offset, 0) == Some(offset);
    if offset < |data| && Round(p, Checked, data, offset) == reason {
      assert Reaches(p, Checked, data, offset, 0);
    }
  }

  lemma {:induction false} InitLoopStops(data: Bytes, offset: nat, init: NegTokenInit)
    ensures InitLoop(data, offset, init) == Panic <==> StopsAt(InitParser, data, offset, Panic)
    ensures InitLoop(data, offset, init) == NoValue <==> StopsAt(InitParser, data, offset, NoValue)
    decreases |data| - offset
  {
    hide InitLoop, Round, StopsAt, LongAt, FieldLong;
    StopsNow(InitParser, data, offset, Panic);
    StopsNow(InitParser, data, offset, NoValue);
    if offset < |data| {
      var next := InitLoopRound(data, offset, init);
      var round := Round(InitParser, Checked, data, offset);
      if round.Value? {
        RoundOverflow(InitParser, data, offset);
        RoundAdvances(InitParser, Checked, data, offset);
        InitLoopStops(data, round.value, next);
        StopsLater(InitParser, data, offset, Panic);
        StopsLater(InitParser, data, offset, NoValue);
      }
    } else {
      InitLoopDone(data, offset, init);
    }
  }

  lemma {:induction false} RespLoopStops(data: Bytes, offset: nat, resp: NegTokenResp)
    ensures RespLoop(data, offset, resp) == Panic <==> StopsAt(RespParser, data, offset, Panic)
    ensures RespLoop(data, offset, resp) == NoValue <==> StopsAt(RespParser, data, offset, NoValue)
    decreases |data| - offset
  {
    hide RespLoop, Round, StopsAt, LongAt, FieldLong;
    StopsNow(RespParser, data, offset, Panic);
    StopsNow(RespParser, data, offset, NoValue);
    if offset < |data| {
      var next := RespLoopRound(data, offset, resp);
      var round := Round(RespParser, Checked, data, offset);
      if round.Value? {
        RoundOverflow(RespParser, data, offset);
        RoundAdvances(RespParser, Checked, data, offset);
        RespLoopStops(data, round.value, next);
        StopsLater(RespParser, data, offset, Panic);
        StopsLater(RespParser, data, offset, NoValue);
      }
    } else {
      RespLoopDone(data, offset, resp);
    }
  }

  lemma EnterNeverPanics(data: Bytes, offset: nat, tag: byte)
    ensures Enter(data, offset, tag) != Panic
  {
    hide DerLength;
    if offset < |data| {
      LengthNeverPanics(data[offset + 1..]);
    }
  }

  lemma GssNeverPanics(data: Bytes)
    requires data != []
    ensures SkipGss(data) != Panic
  {
    hide DerLength, Enter;
    EnterNeverPanics(data, 0, TAG_GSS);
    if Enter(data, 0, TAG_GSS).Value? {
      var offset := Enter(data, 0, TAG_GSS).value;
      if offset < |data| {
        LengthNeverPanics(data[offset + 1..]);
      }
    }
  }

  /** The field loop comes to a field that reaches beyond its data. */
  ghost predicate ReachesBeyond(p: Parser, data: Bytes, start: nat) {
    exists n: nat :: Reaches(p, Checked, data, start, n) && FieldBeyond(p, data, After(p, Checked, data, start, n).value)
  }

  lemma StopsBeyond(p: Parser, data: Bytes, start: nat)
    ensures StopsAt(p, data, start, Panic) <==> ReachesBeyond(p, data, start)
  {
    hide Round, After, FieldBeyond;
    forall i: nat | i < |data|
      ensures Round(p, Checked, data, i) == Panic <==> FieldBeyond(p, data, i)
    {
      RoundPanics(p, data, i);
    }
    if StopsAt(p, data, start, Panic) {
      var n: nat :| Reaches(p, Checked, data, start, n) &&
                    Round(p, Checked, data, After(p, Checked, data, start, n).value) == Panic;
      assert FieldBeyond(p, data, After(p, Checked, data, start, n).value);
    }
    if ReachesBeyond(p, data, start) {
      var n: nat :| Reaches(p, Checked, data, start, n) && FieldBeyond(p, data, After(p, Checked, data, start, n).value);
      assert Round(p, Checked, data, After(p, Checked, data, start, n).value) == Panic;
    }
  }

  /**
   Exactly when the parser of a NegTokenInit panics: when its field loop comes to a mechanism list
   that ends beyond the data, to an OID that ends beyond its list, or to an octet string that ends
   beyond the data.  The headers before the fields never make it panic.
   */
  lemma InitPanicsExactly(data: Bytes)
    ensures ParseInit(data) == Panic <==>
            FieldsAt(InitParser, Checked, data).Value? &&
            ReachesBeyond(InitParser, data, FieldsAt(InitParser, Checked, data).value)
  {
    hide Enter, GssEnd, SkipGss, InitLoop, ReachesBeyond, GssLong, StopsAt;
    if |data| >= 4 {
      GssOverflow(data);
      GssNeverPanics(data);
      if SkipGss(data).Value? {
        var start := SkipGss(data).value;
        EnterNeverPanics(data, start, TAG_0);
        if Enter(data, start, TAG_0).Value? {
          var inner := Enter(data, start, TAG_0).value;
          EnterNeverPanics(data, inner, TAG_SEQUENCE);
          if Enter(data, inner, TAG_SEQUENCE).Value? {
            var fields := Enter(data, inner, TAG_SEQUENCE).value;
            InitLoopStops(data, fields, EMPTY_INIT);
            StopsBeyond(InitParser, data, fields);
          }
        }
      }
    }
  }

  /** And the parser of a NegTokenResp: when it comes to an OID or octet string that ends beyond the data. */
  lemma RespPanicsExactly(data: Bytes)
    ensures ParseResp(data) == Panic <==>
            FieldsAt(RespParser, Checked, data).Value? &&
            ReachesBeyond(RespParser, data, FieldsAt(RespParser, Checked, data).value)
  {
    hide Enter, RespLoop, ReachesBeyond, StopsAt;
    if |data| >= 2 && data[0] == TAG_1 {
      EnterNeverPanics(data, 0, TAG_1);
      if Enter(data, 0, TAG_1).Value? {
        var inner := Enter(data, 0, TAG_1).value;
        EnterNeverPanics(data, inner, TAG_SEQUENCE);
        if Enter(data, inner, TAG_SEQUENCE).Value? {
          var fields := Enter(data, inner, TAG_SEQUENCE).value;
          RespLoopStops(data, fields, EMPTY_RESP);
          StopsBeyond(RespParser, data, fields);
        }
      }
    }
  }

  // ---------- what a field leaves in the result ----------

  /** The field holds a triple with the tag of its kind of value. */
  predicate Holds(data: Bytes, from: nat, tag: byte) {
    from < |data| && data[from] == tag
  }

  /**
   Each field of a NegTokenInit sets its own part of the result: [0] the mechanisms, [2] the
   token if it holds an octet string.  Any other content leaves the result as it is.
   */
  lemma InitFieldSets(data: Bytes, tag: byte, from: nat, to: nat, init: NegTokenInit)
    requires InitField(data, tag, from, to, init).Value?
    ensures var r := InitField(data, tag, from, to, init).value;
            && (tag != 0xa0 ==> r.mechTypes == init.mechTypes)
            && (tag == 0xa0 ==> from <= to <= |data| && MechTypes(data[from..to]) == Value(r.mechTypes))
            && (!(tag == 0xa2 && Holds(data, from, 0x04)) ==> r.mechToken == init.mechToken)
            && (tag == 0xa2 && Holds(data, from, 0x04) ==>
                  BodyAt(data, from).Value? && r.mechToken == Some(BodyAt(data, from).value))
  {
    hide MechTypes;
    InnerIsBody(data, from, TAG_OCTETS);
  }

  /** Each field of a NegTokenResp: [0] the state if it holds an enumeration, [1] and [2] as above. */
  lemma RespFieldSets(data: Bytes, tag: byte, from: nat, resp: NegTokenResp)
    requires RespField(data, tag, from, resp).Value?
    ensures var r := RespField(data, tag, from, resp).value;
            && (!(tag == 0xa0 && Holds(data, from, 0x0a)) ==> r.negState == resp.negState)
            && (tag == 0xa0 && Holds(data, from, 0x0a) ==>
                  from + 2 < |data| && r.negState == NegStateOf(data[from + 2]))
            && (!(tag == 0xa1 && Holds(data, from, 0x06)) ==> r.supportedMech == resp.supportedMech)
            && (tag == 0xa1 && Holds(data, from, 0x06) ==>
                  BodyAt(data, from).Value? && r.supportedMech == Some(BodyAt(data, from).value))
            && (!(tag == 0xa2 && Holds(data, from, 0x04)) ==> r.responseToken == resp.responseToken)
            && (tag == 0xa2 && Holds(data, from, 0x04) ==>
                  BodyAt(data, from).Value? && r.responseToken == Some(BodyAt(data, from).value))
  {
    InnerIsBody(data, from, TAG_OCTETS);
    InnerIsBody(data, from, TAG_OID);
  }

  /** The body of the triple at `i`. */
  function BodyAt(data: Bytes, i: nat): Outcome<Bytes>
    requires i < |data|
  {
    var (from, to) :- Bounds(Checked, data, i);
    Slice(data, from, to)
  }

  lemma InnerIsBody(data: Bytes, at: nat, tag: byte)
    ensures Holds(data, at, tag) && Inner(data, at, tag).Value? ==>
              BodyAt(data, at).Value? && Inner(data, at, tag).value == Some(BodyAt(data, at).value)
    ensures at < |data| && data[at] != tag ==> Inner(data, at, tag) == Value(None)
  {
    hide DerLength;
  }
}
