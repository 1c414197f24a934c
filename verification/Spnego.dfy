/** SPNEGO negotiation tokens (sections 4.2.1 and 4.2.2 of RFC 4178): builders and parsers. */
module Spnego {
  import opened Core
  import opened Der

  const SPNEGO_OID: Bytes := [0x2b, 0x06, 0x01, 0x05, 0x05, 0x02]

  const TAG_OCTETS: byte := 0x04
  const TAG_OID: byte := 0x06
  const TAG_ENUM: byte := 0x0a
  const TAG_SEQUENCE: byte := 0x30
  const TAG_GSS: byte := 0x60
  const TAG_0: byte := 0xa0
  const TAG_1: byte := 0xa1
  const TAG_2: byte := 0xa2
  const TAG_3: byte := 0xa3

  datatype NegState = AcceptCompleted | AcceptIncomplete | Reject | RequestMic

  function NegStateByte(s: NegState): byte {
    match s
    case AcceptCompleted => 0
    case AcceptIncomplete => 1
    case Reject => 2
    case RequestMic => 3
  }

  function NegStateOf(b: byte): Option<NegState> {
    if b == 0 then Some(AcceptCompleted)
    else if b == 1 then Some(AcceptIncomplete)
    else if b == 2 then Some(Reject)
    else if b == 3 then Some(RequestMic)
    else None
  }

  datatype NegTokenInit = NegTokenInit(mechTypes: seq<Bytes>, mechToken: Option<Bytes>)

  datatype NegTokenResp = NegTokenResp(
    negState: Option<NegState>, supportedMech: Option<Bytes>, responseToken: Option<Bytes>)

  const EMPTY_INIT := NegTokenInit([], None)
  const EMPTY_RESP := NegTokenResp(None, None, None)

  // ---------- builders ----------

  function OidList(types: seq<Bytes>): Bytes {
    if types == [] then [] else Tlv(TAG_OID, types[0]) + OidList(types[1..])
  }

  function MechSeq(types: seq<Bytes>): Bytes {
    Tlv(TAG_SEQUENCE, OidList(types))
  }

  /** An optional context-tagged field holding one triple. */
  function Field(tag: byte, innerTag: byte, value: Option<Bytes>): Bytes {
    match value
    case None => []
    case Some(v) => Tlv(tag, Tlv(innerTag, v))
  }

  function InitFields(types: seq<Bytes>, token: Option<Bytes>): Bytes {
    Tlv(TAG_0, MechSeq(types)) + Field(TAG_2, TAG_OCTETS, token)
  }

  function InitSeq(types: seq<Bytes>, token: Option<Bytes>): Bytes {
    Tlv(TAG_SEQUENCE, InitFields(types, token))
  }

  /** The body of the GSS-API wrapper. */
  function GssBody(types: seq<Bytes>, token: Option<Bytes>): Bytes {
    Tlv(TAG_OID, SPNEGO_OID) + Tlv(TAG_0, InitSeq(types, token))
  }

  function InitToken(types: seq<Bytes>, token: Option<Bytes>): Bytes {
    Tlv(TAG_GSS, GssBody(types, token))
  }

  function StateField(s: Option<NegState>): Bytes {
    match s
    case None => []
    case Some(v) => Tlv(TAG_0, [TAG_ENUM, 1, NegStateByte(v)])
  }

  function RespFields(s: Option<NegState>, mech: Option<Bytes>, token: Option<Bytes>, mic: Option<Bytes>): Bytes {
    StateField(s) + (Field(TAG_1, TAG_OID, mech) + (Field(TAG_2, TAG_OCTETS, token) + Field(TAG_3, TAG_OCTETS, mic)))
  }

  function RespSeq(s: Option<NegState>, mech: Option<Bytes>, token: Option<Bytes>, mic: Option<Bytes>): Bytes {
    Tlv(TAG_SEQUENCE, RespFields(s, mech, token, mic))
  }

  function RespToken(s: Option<NegState>, mech: Option<Bytes>, token: Option<Bytes>, mic: Option<Bytes>): Bytes {
    Tlv(TAG_1, RespSeq(s, mech, token, mic))
  }

  lemma {:induction false} OidListSnoc(types: seq<Bytes>, oid: Bytes)
    ensures OidList(types + [oid]) == OidList(types) + Tlv(TAG_OID, oid)
  {
    if types == [] {
      assert types + [oid] == [oid];
      assert OidList([oid][1..]) == [];
    } else {
      assert (types + [oid])[1..] == types[1..] + [oid];
      OidListSnoc(types[1..], oid);
    }
  }

  method EncodeOid(oid: Bytes) returns (buf: Bytes)
    ensures buf == Tlv(TAG_OID, oid)
  {
    buf := [TAG_OID];
    buf := buf + EncodeLength(|oid|);
    buf := buf + oid;
  }

  method EncodeOctetString(data: Bytes) returns (buf: Bytes)
    ensures buf == Tlv(TAG_OCTETS, data)
  {
    buf := [TAG_OCTETS];
    buf := buf + EncodeLength(|data|);
    buf := buf + data;
  }

  method EncodeMechTypes(types: seq<Bytes>) returns (buf: Bytes)
    ensures buf == MechSeq(types)
  {
    var content: Bytes := [];
    for i := 0 to |types|
      invariant content == OidList(types[..i])
    {
      var oid := EncodeOid(types[i]);
      content := content + oid;
      OidListSnoc(types[..i], types[i]);
      assert types[..i + 1] == types[..i] + [types[i]];
    }
    assert types[..|types|] == types;
    buf := [TAG_SEQUENCE];
    buf := buf + EncodeLength(|content|);
    buf := buf + content;
  }

  /** Append an optional field to the fields built so far. */
  method AppendField(fields: Bytes, tag: byte, innerTag: byte, value: Option<Bytes>) returns (out: Bytes)
    requires innerTag == TAG_OID || innerTag == TAG_OCTETS
    ensures out == fields + Field(tag, innerTag, value)
  {
    out := fields;
    if value.Some? {
      var der: Bytes;
      if innerTag == TAG_OID {
        der := EncodeOid(value.value);
      } else {
        der := EncodeOctetString(value.value);
      }
      out := out + ([tag] + EncodeLength(|der|) + der);
    }
  }

  method BuildNegTokenInit(types: seq<Bytes>, token: Option<Bytes>) returns (gss: Bytes)
    ensures gss == InitToken(types, token)
  {
    var mechSeq := EncodeMechTypes(types);
    var fields: Bytes := [TAG_0] + EncodeLength(|mechSeq|) + mechSeq;
    fields := AppendField(fields, TAG_2, TAG_OCTETS, token);
    var sequence: Bytes := [TAG_SEQUENCE] + EncodeLength(|fields|) + fields;
    var init: Bytes := [TAG_0] + EncodeLength(|sequence|) + sequence;
    var oidDer := EncodeOid(SPNEGO_OID);
    var total := |oidDer| + |init|;
    gss := [TAG_GSS] + EncodeLength(total) + (oidDer + init);
  }

  method BuildNegTokenResp(s: Option<NegState>, mech: Option<Bytes>, token: Option<Bytes>, mic: Option<Bytes>)
    returns (resp: Bytes)
    ensures resp == RespToken(s, mech, token, mic)
  {
    var fields: Bytes := [];
    if s.Some? {
      fields := fields + [TAG_0, 3, TAG_ENUM, 1, NegStateByte(s.value)];
    }
    assert fields == StateField(s);
    fields := AppendField(fields, TAG_1, TAG_OID, mech);
    fields := AppendField(fields, TAG_2, TAG_OCTETS, token);
    fields := AppendField(fields, TAG_3, TAG_OCTETS, mic);
    ConcatFour(StateField(s), Field(TAG_1, TAG_OID, mech), Field(TAG_2, TAG_OCTETS, token),
               Field(TAG_3, TAG_OCTETS, mic));
    var sequence: Bytes := [TAG_SEQUENCE] + EncodeLength(|fields|) + fields;
    resp := [TAG_1] + EncodeLength(|sequence|) + sequence;
  }

  lemma ConcatFour(a: Bytes, b: Bytes, c: Bytes, d: Bytes)
    ensures a + b + c + d == a + (b + (c + d))
  {
  }

  // ---------- parsers ----------

  /** The value of a triple at `at` if it carries `tag`; `None` if it carries another. */
  function Inner(data: Bytes, at: nat, tag: byte): Outcome<Option<Bytes>> {
    var first :- At(data, at);
    if first != tag then Value(None)
    else
      var (_, len) :- DerLength(data[at + 1..]);
      var start := at + 1 + LengthSize(len);
      var end :- End(start, len);
      var body :- Slice(data, start, end);
      Value(Some(body))
  }

  /** The loop of parse_mech_types. */
  function MechLoop(data: Bytes, offset: nat, end: nat, types: seq<Bytes>): Outcome<seq<Bytes>>
    decreases |data| - offset
  {
    if offset >= end || offset >= |data| || data[offset] != TAG_OID then Value(types)
    else
      var (_, len) :- DerLength(data[offset + 1..]);
      var start := offset + 1 + LengthSize(len);
      var next :- End(start, len);
      var oid :- Slice(data, start, next);
      MechLoop(data, next, end, types + [oid])
  }

  function MechTypes(data: Bytes): Outcome<seq<Bytes>> {
    if data == [] || data[0] != TAG_SEQUENCE then NoValue
    else
      var (_, len) :- DerLength(data[1..]);
      var offset := 1 + LengthSize(len);
      var end :- End(offset, len);
      MechLoop(data, offset, end, [])
  }

  /** One field of a NegTokenInit, its body from `from` to `to`. */
  function InitField(data: Bytes, tag: byte, from: nat, to: nat, init: NegTokenInit): Outcome<NegTokenInit> {
    if tag == TAG_0 then
      var body :- Slice(data, from, to);
      var types :- MechTypes(body);
      Value(init.(mechTypes := types))
    else if tag == TAG_2 then
      var token :- Inner(data, from, TAG_OCTETS);
      Value(if token.Some? then init.(mechToken := token) else init)
    else Value(init)
  }

  function InitLoop(data: Bytes, offset: nat, init: NegTokenInit): Outcome<NegTokenInit>
    decreases |data| - offset
  {
    if offset >= |data| then Value(init)
    else
      var (_, len) :- DerLength(data[offset + 1..]);
      var from := offset + 1 + LengthSize(len);
      var to :- End(from, len);
      var next :- InitField(data, data[offset], from, to, init);
      InitLoop(data, to, next)
  }

  /** The offset just behind the tag and length of a triple with this tag. */
  function Enter(data: Bytes, offset: nat, tag: byte): Outcome<nat> {
    var first :- At(data, offset);
    if first != tag then NoValue
    else
      var (_, len) :- DerLength(data[offset + 1..]);
      Value(offset + 1 + LengthSize(len))
  }

  /** Behind the optional GSS-API wrapper and its mechanism. */
  function SkipGss(data: Bytes): Outcome<nat>
    requires data != []
  {
    if data[0] != TAG_GSS then Value(0)
    else
      var offset :- Enter(data, 0, TAG_GSS);
      var first :- At(data, offset);
      if first != TAG_OID then NoValue
      else
        var (_, len) :- DerLength(data[offset + 1..]);
        End(offset + 1 + LengthSize(len), len)
  }

  function ParseInit(data: Bytes): Outcome<NegTokenInit> {
    if |data| < 4 then NoValue
    else
      var start :- SkipGss(data);
      var inner :- Enter(data, start, TAG_0);
      var fields :- Enter(data, inner, TAG_SEQUENCE);
      InitLoop(data, fields, EMPTY_INIT)
  }

  function RespField(data: Bytes, tag: byte, from: nat, resp: NegTokenResp): Outcome<NegTokenResp> {
    if tag == TAG_0 then
      var first :- At(data, from);
      if first != TAG_ENUM then Value(resp)
      else
        var state :- At(data, from + 2);
        Value(resp.(negState := NegStateOf(state)))
    else if tag == TAG_1 then
      var oid :- Inner(data, from, TAG_OID);
      Value(if oid.Some? then resp.(supportedMech := oid) else resp)
    else if tag == TAG_2 then
      var token :- Inner(data, from, TAG_OCTETS);
      Value(if token.Some? then resp.(responseToken := token) else resp)
    else Value(resp)
  }

  function RespLoop(data: Bytes, offset: nat, resp: NegTokenResp): Outcome<NegTokenResp>
    decreases |data| - offset
  {
    if offset >= |data| then Value(resp)
    else
      var (_, len) :- DerLength(data[offset + 1..]);
      var from := offset + 1 + LengthSize(len);
      var to :- End(from, len);
      var next :- RespField(data, data[offset], from, resp);
      RespLoop(data, to, next)
  }

  function ParseResp(data: Bytes): Outcome<NegTokenResp> {
    if |data| < 2 || data[0] != TAG_1 then NoValue
    else
      var inner :- Enter(data, 0, TAG_1);
      var fields :- Enter(data, inner, TAG_SEQUENCE);
      RespLoop(data, fields, EMPTY_RESP)
  }

  method ParseMechTypes(data: Bytes) returns (r: Outcome<seq<Bytes>>)
    ensures r == MechTypes(data)
  {
    if data == [] || data[0] != TAG_SEQUENCE {
      return NoValue;
    }
    var header := ParseDerLength(data[1..]);
    if !header.Value? {
      return header.PropagateFailure();
    }
    var offset := 1 + LengthSize(header.value.1);
    if offset + header.value.1 > U64_MAX {
      return Overflow;
    }
    var end := offset + header.value.1;
    var types: seq<Bytes> := [];
    ghost var start := offset;
    while offset < end && offset < |data|
      invariant MechLoop(data, start, end, []) == MechLoop(data, offset, end, types)
      decreases |data| - offset
    {
      if data[offset] != TAG_OID {
        break;
      }
      var len := ParseDerLength(data[offset + 1..]);
      if !len.Value? {
        return len.PropagateFailure();
      }
      var oidStart := offset + 1 + LengthSize(len.value.1);
      if oidStart + len.value.1 > U64_MAX {
        return Overflow;
      }
      if oidStart + len.value.1 > |data| {
        return Panic;
      }
      types := types + [data[oidStart..oidStart + len.value.1]];
      offset := oidStart + len.value.1;
    }
    r := Value(types);
  }

  /** The value of an OCTET STRING or OID triple inside a field. */
  method ParseInner(data: Bytes, at: nat, tag: byte) returns (r: Outcome<Option<Bytes>>)
    ensures r == Inner(data, at, tag)
  {
    if at >= |data| {
      return NoValue;
    }
    if data[at] != tag {
      return Value(None);
    }
    var len := ParseDerLength(data[at + 1..]);
    if !len.Value? {
      return len.PropagateFailure();
    }
    var start := at + 1 + LengthSize(len.value.1);
    if start + len.value.1 > U64_MAX {
      return Overflow;
    }
    if start + len.value.1 > |data| {
      return Panic;
    }
    r := Value(Some(data[start..start + len.value.1]));
  }

  /** Check a tag and step over it and its length. */
  method ParseEnter(data: Bytes, offset: nat, tag: byte) returns (r: Outcome<nat>)
    ensures r == Enter(data, offset, tag)
  {
    if offset >= |data| || data[offset] != tag {
      return NoValue;
    }
    var len := ParseDerLength(data[offset + 1..]);
    if !len.Value? {
      return len.PropagateFailure();
    }
    r := Value(offset + 1 + LengthSize(len.value.1));
  }

  method ParseGss(data: Bytes) returns (r: Outcome<nat>)
    requires data != []
    ensures r == SkipGss(data)
  {
    if data[0] != TAG_GSS {
      return Value(0);
    }
    var gss := ParseEnter(data, 0, TAG_GSS);
    if !gss.Value? {
      return gss;
    }
    var offset := gss.value;
    if offset >= |data| || data[offset] != TAG_OID {
      return NoValue;
    }
    var oid := ParseDerLength(data[offset + 1..]);
    if !oid.Value? {
      return oid.PropagateFailure();
    }
    var end := offset + 1 + LengthSize(oid.value.1) + oid.value.1;
    r := if end > U64_MAX then Overflow else Value(end);
  }

  method ParseNegTokenInit(data: Bytes) returns (r: Outcome<NegTokenInit>)
    ensures r == ParseInit(data)
  {
    if |data| < 4 {
      return NoValue;
    }
    var start := ParseGss(data);
    if !start.Value? {
      return start.PropagateFailure();
    }
    var inner := ParseEnter(data, start.value, TAG_0);
    if !inner.Value? {
      return inner.PropagateFailure();
    }
    var fields := ParseEnter(data, inner.value, TAG_SEQUENCE);
    if !fields.Value? {
      return fields.PropagateFailure();
    }
    r := ParseInitLoop(data, fields.value);
  }

  /** The match on the field tag in parse_neg_token_init. */
  method ParseInitField(data: Bytes, tag: byte, from: nat, to: nat, init: NegTokenInit)
    returns (r: Outcome<NegTokenInit>)
    requires from <= to
    ensures r == InitField(data, tag, from, to, init)
  {
    if tag == TAG_0 {
      if to > |data| {
        return Panic;
      }
      var types := ParseMechTypes(data[from..to]);
      if !types.Value? {
        return types.PropagateFailure();
      }
      return Value(init.(mechTypes := types.value));
    } else if tag == TAG_2 {
      var token := ParseInner(data, from, TAG_OCTETS);
      if !token.Value? {
        return token.PropagateFailure();
      }
      if token.value.Some? {
        return Value(init.(mechToken := token.value));
      }
    }
    r := Value(init);
  }

  /** The field loop of parse_neg_token_init. */
  method ParseInitLoop(data: Bytes, start: nat) returns (r: Outcome<NegTokenInit>)
    ensures r == InitLoop(data, start, EMPTY_INIT)
  {
    hide InitField, DerLength, LengthSize;
    var offset := start;
    var init := EMPTY_INIT;
    while offset < |data|
      invariant InitLoop(data, start, EMPTY_INIT) == InitLoop(data, offset, init)
      decreases |data| - offset
    {
      var len := ParseDerLength(data[offset + 1..]);
      if !len.Value? {
        return len.PropagateFailure();
      }
      var from := offset + 1 + LengthSize(len.value.1);
      if from + len.value.1 > U64_MAX {
        return Overflow;
      }
      var end := from + len.value.1;
      var next := ParseInitField(data, data[offset], from, end, init);
      if !next.Value? {
        return next;
      }
      init := next.value;
      offset := end;
    }
    r := Value(init);
  }

  method ParseNegTokenResp(data: Bytes) returns (r: Outcome<NegTokenResp>)
    ensures r == ParseResp(data)
  {
    if |data| < 2 || data[0] != TAG_1 {
      return NoValue;
    }
    var inner := ParseEnter(data, 0, TAG_1);
    if !inner.Value? {
      return inner.PropagateFailure();
    }
    var fields := ParseEnter(data, inner.value, TAG_SEQUENCE);
    if !fields.Value? {
      return fields.PropagateFailure();
    }
    r := ParseRespLoop(data, fields.value);
  }

  /** The match on the field tag in parse_neg_token_resp. */
  method ParseRespField(data: Bytes, tag: byte, from: nat, resp: NegTokenResp)
    returns (r: Outcome<NegTokenResp>)
    ensures r == RespField(data, tag, from, resp)
  {
    if tag == TAG_0 {
      if from >= |data| {
        return NoValue;
      }
      if data[from] == TAG_ENUM {
        if from + 2 >= |data| {
          return NoValue;
        }
        return Value(resp.(negState := NegStateOf(data[from + 2])));
      }
    } else if tag == TAG_1 {
      var oid := ParseInner(data, from, TAG_OID);
      if !oid.Value? {
        return oid.PropagateFailure();
      }
      if oid.value.Some? {
        return Value(resp.(supportedMech := oid.value));
      }
    } else if tag == TAG_2 {
      var token := ParseInner(data, from, TAG_OCTETS);
      if !token.Value? {
        return token.PropagateFailure();
      }
      if token.value.Some? {
        return Value(resp.(responseToken := token.value));
      }
    }
    r := Value(resp);
  }

  /** The field loop of parse_neg_token_resp. */
  method ParseRespLoop(data: Bytes, start: nat) returns (r: Outcome<NegTokenResp>)
    ensures r == RespLoop(data, start, EMPTY_RESP)
  {
    hide RespField, DerLength, LengthSize;
    var offset := start;
    var resp := EMPTY_RESP;
    while offset < |data|
      invariant RespLoop(data, start, EMPTY_RESP) == RespLoop(data, offset, resp)
      decreases |data| - offset
    {
      var len := ParseDerLength(data[offset + 1..]);
      if !len.Value? {
        return len.PropagateFailure();
      }
      var from := offset + 1 + LengthSize(len.value.1);
      if from + len.value.1 > U64_MAX {
        return Overflow;
      }
      var end := from + len.value.1;
      var next := ParseRespField(data, data[offset], from, resp);
      if !next.Value? {
        return next;
      }
      resp := next.value;
      offset := end;
    }
    r := Value(resp);
  }

  // ---------- round trips ----------

  lemma EnterTlv(data: Bytes, offset: nat, tag: byte, body: Bytes)
    requires TlvAt(data, offset, tag, body) && SizeKept(|body|)
    ensures Enter(data, offset, tag) == Value(BodyStart(offset, body))
  {
    hide DerLength, EncodeLength;
    TlvParts(data, offset, tag, body);
    SizeKeptExactly(|body|);
  }

  lemma InnerTlv(data: Bytes, offset: nat, tag: byte, body: Bytes)
    requires TlvAt(data, offset, tag, body) && |body| < LENGTH_LIMIT && |data| <= U64_MAX
    ensures Inner(data, offset, tag) == Value(Some(body))
  {
    ReadTlv(data, offset, tag, body);
  }

  /** The mechanism loop reads back a list of OIDs that ends where the data ends. */
  lemma {:induction false} MechLoopReads(data: Bytes, offset: nat, rest: seq<Bytes>, types: seq<Bytes>)
    requires offset <= |data| && data[offset..] == OidList(rest)
    requires |data| < LENGTH_LIMIT
    ensures MechLoop(data, offset, |data|, types) == Value(types + rest)
    decreases |rest|
  {
    hide EncodeLength, DerLength, LengthSize;
    if rest == [] {
      assert types + rest == types;
    } else {
      var oid := rest[0];
      TlvLength(TAG_OID, oid);
      assert data[offset..][..|Tlv(TAG_OID, oid)|] == Tlv(TAG_OID, oid);
      assert TlvAt(data, offset, TAG_OID, oid);
      ReadTlv(data, offset, TAG_OID, oid);
      var next := BodyEnd(offset, oid);
      assert data[next..] == data[offset..][|Tlv(TAG_OID, oid)|..] == OidList(rest[1..]);
      MechLoopReads(data, next, rest[1..], types + [oid]);
      assert types + [oid] + rest[1..] == types + rest;
    }
  }

  lemma MechTypesRoundTrip(types: seq<Bytes>)
    requires |MechSeq(types)| < LENGTH_LIMIT
    ensures MechTypes(MechSeq(types)) == Value(types)
  {
    hide EncodeLength, DerLength, LengthSize, MechLoop;
    var body := OidList(types);
    var data := MechSeq(types);
    TlvLength(TAG_SEQUENCE, body);
    assert data[0..] == data;
    ReadTlv(data, 0, TAG_SEQUENCE, body);
    var start := BodyStart(0, body);
    assert data[start..] == body;
    MechLoopReads(data, start, types, []);
    assert [] + types == types;
  }

  /** The rest of the data, from `offset` to its end, is `tail`. */
  predicate RestIs(data: Bytes, offset: nat, tail: Bytes) {
    offset <= |data| && data[offset..] == tail
  }

  /** Reading a field in front of `tail` leaves `tail`. */
  lemma AfterTlv(data: Bytes, offset: nat, tag: byte, body: Bytes, tail: Bytes)
    requires RestIs(data, offset, Tlv(tag, body) + tail)
    ensures TlvAt(data, offset, tag, body)
    ensures RestIs(data, BodyEnd(offset, body), tail)
  {
  }

  /** An optional field holding one triple, and the triple inside it. */
  lemma FieldReads(data: Bytes, offset: nat, tag: byte, innerTag: byte, v: Bytes, tail: Bytes)
    requires |data| <= U64_MAX && |Tlv(innerTag, v)| < LENGTH_LIMIT
    requires RestIs(data, offset, Tlv(tag, Tlv(innerTag, v)) + tail)
    ensures var body := Tlv(innerTag, v);
            && offset < |data| && data[offset] == tag
            && DerLength(data[offset + 1..]) == Value((LengthSize(|body|), |body|))
            && Inner(data, BodyStart(offset, body), innerTag) == Value(Some(v))
            && RestIs(data, BodyEnd(offset, body), tail)
  {
    hide EncodeLength, DerLength, LengthSize;
    var body := Tlv(innerTag, v);
    TlvLength(innerTag, v);
    AfterTlv(data, offset, tag, body, tail);
    ReadTlv(data, offset, tag, body);
    assert body == Tlv(innerTag, v) + [];
    TlvInBody(data, offset, tag, body, innerTag, v, []);
    InnerTlv(data, BodyStart(offset, body), innerTag, v);
  }

  lemma InitLoopStep(data: Bytes, offset: nat, body: Bytes, init: NegTokenInit, next: NegTokenInit)
    requires offset < |data| && BodyEnd(offset, body) <= U64_MAX
    requires DerLength(data[offset + 1..]) == Value((LengthSize(|body|), |body|))
    requires InitField(data, data[offset], BodyStart(offset, body), BodyEnd(offset, body), init) == Value(next)
    ensures InitLoop(data, offset, init) == InitLoop(data, BodyEnd(offset, body), next)
  {
    hide InitField, DerLength, LengthSize;
  }

  lemma InitMechsRead(data: Bytes, offset: nat, types: seq<Bytes>, tail: Bytes)
    requires |MechSeq(types)| < LENGTH_LIMIT && |data| <= U64_MAX
    requires RestIs(data, offset, Tlv(TAG_0, MechSeq(types)) + tail)
    ensures RestIs(data, BodyEnd(offset, MechSeq(types)), tail)
    ensures InitLoop(data, offset, EMPTY_INIT) ==
            InitLoop(data, BodyEnd(offset, MechSeq(types)), EMPTY_INIT.(mechTypes := types))
  {
    hide EncodeLength, DerLength, LengthSize, MechTypes;
    var mechs := MechSeq(types);
    AfterTlv(data, offset, TAG_0, mechs, tail);
    ReadTlv(data, offset, TAG_0, mechs);
    MechTypesRoundTrip(types);
    InitLoopStep(data, offset, mechs, EMPTY_INIT, EMPTY_INIT.(mechTypes := types));
  }

  lemma InitTokenRead(data: Bytes, offset: nat, token: Option<Bytes>, init: NegTokenInit)
    requires |data| <= U64_MAX && init.mechToken == None
    requires RestIs(data, offset, Field(TAG_2, TAG_OCTETS, token)) && Fits(TAG_OCTETS, token)
    ensures InitLoop(data, offset, init) == Value(init.(mechToken := token))
  {
    hide EncodeLength, DerLength, LengthSize, Inner;
    if token.Some? {
      var body := Tlv(TAG_OCTETS, token.value);
      TlvLength(TAG_2, body);
      assert Field(TAG_2, TAG_OCTETS, token) == Tlv(TAG_2, body) + [];
      FieldReads(data, offset, TAG_2, TAG_OCTETS, token.value, []);
      assert BodyEnd(offset, body) == |data|;
    } else {
      assert offset == |data|;
    }
  }

  lemma InitFieldsRead(data: Bytes, offset: nat, types: seq<Bytes>, token: Option<Bytes>)
    requires |MechSeq(types)| < LENGTH_LIMIT && Fits(TAG_OCTETS, token) && |data| <= U64_MAX
    requires RestIs(data, offset, InitFields(types, token))
    ensures InitLoop(data, offset, EMPTY_INIT) == Value(NegTokenInit(types, token))
  {
    hide EncodeLength, InitLoop;
    var tail := Field(TAG_2, TAG_OCTETS, token);
    TlvLength(TAG_0, MechSeq(types));
    InitMechsRead(data, offset, types, tail);
    InitTokenRead(data, BodyEnd(offset, MechSeq(types)), token, EMPTY_INIT.(mechTypes := types));
  }

  /** The triple in an optional field is short enough for its length bytes. */
  predicate Fits(innerTag: byte, value: Option<Bytes>) {
    value.Some? ==> |Tlv(innerTag, value.value)| < LENGTH_LIMIT
  }

  /** The list and the token are short enough, and the lengths around them keep their size. */
  predicate InitFits(types: seq<Bytes>, token: Option<Bytes>) {
    && |MechSeq(types)| < LENGTH_LIMIT && Fits(TAG_OCTETS, token)
    && SizeKept(|InitFields(types, token)|) && SizeKept(|InitSeq(types, token)|)
  }

  lemma FieldSize(tag: byte, innerTag: byte, value: Option<Bytes>)
    requires Fits(innerTag, value)
    ensures |Field(tag, innerTag, value)| < LENGTH_LIMIT + 5
  {
    if value.Some? {
      TlvLength(tag, Tlv(innerTag, value.value));
    }
  }

  lemma InitSizes(types: seq<Bytes>, token: Option<Bytes>)
    requires |MechSeq(types)| < LENGTH_LIMIT && Fits(TAG_OCTETS, token)
    ensures 4 <= |Tlv(TAG_0, InitSeq(types, token))| <= |InitToken(types, token)| <= U64_MAX
  {
    hide Field, MechSeq, EncodeLength;
    FieldSize(TAG_2, TAG_OCTETS, token);
    TlvLength(TAG_0, MechSeq(types));
    TlvLength(TAG_SEQUENCE, InitFields(types, token));
    TlvLength(TAG_0, InitSeq(types, token));
    TlvLength(TAG_OID, SPNEGO_OID);
    TlvLength(TAG_GSS, GssBody(types, token));
  }

  /** A body below 2^24 bytes meets all the conditions. */
  lemma ShortBodyFits(types: seq<Bytes>, token: Option<Bytes>)
    requires |GssBody(types, token)| < LENGTH_LIMIT
    ensures InitFits(types, token) && SizeKept(|GssBody(types, token)|)
  {
    TlvLength(TAG_0, MechSeq(types));
    TlvLength(TAG_SEQUENCE, InitFields(types, token));
    TlvLength(TAG_0, InitSeq(types, token));
    if token.Some? {
      TlvLength(TAG_2, Tlv(TAG_OCTETS, token.value));
    }
  }

  /**
   Parsing a built NegTokenInit gives back the mechanism list and the token, for every list and
   token below 2^24 bytes each whose outer lengths are below 2^24 or at least 2^16 modulo 2^24.
   */
  lemma InitRoundTrip(types: seq<Bytes>, token: Option<Bytes>)
    requires InitFits(types, token) && SizeKept(|GssBody(types, token)|)
    ensures ParseInit(InitToken(types, token)) == Value(NegTokenInit(types, token))
    ensures ParseResp(InitToken(types, token)) == NoValue
  {
    hide EncodeLength, DerLength, LengthSize, InitLoop, SizeKept;
    var data := InitToken(types, token);
    var gss := GssBody(types, token);
    var init := Tlv(TAG_0, InitSeq(types, token));
    InitSizes(types, token);

    assert data == Tlv(TAG_GSS, gss) + [];
    assert RestIs(data, 0, Tlv(TAG_GSS, gss) + []);
    AfterTlv(data, 0, TAG_GSS, gss, []);
    EnterTlv(data, 0, TAG_GSS, gss);
    TlvParts(data, 0, TAG_GSS, gss);
    var oidAt := BodyStart(0, gss);
    assert data[oidAt..] == gss;
    assert RestIs(data, oidAt, Tlv(TAG_OID, SPNEGO_OID) + init);
    AfterTlv(data, oidAt, TAG_OID, SPNEGO_OID, init);
    ReadTlv(data, oidAt, TAG_OID, SPNEGO_OID);
    var initAt := BodyEnd(oidAt, SPNEGO_OID);
    assert SkipGss(data) == Value(initAt);
    InitBodyReads(data, initAt, types, token);
  }

  /** With a wrapper length that changes its size, no token is parsed at all. */
  lemma WrapperSizeLost(types: seq<Bytes>, token: Option<Bytes>)
    requires !SizeKept(|GssBody(types, token)|)
    ensures ParseInit(InitToken(types, token)) == NoValue
  {
    var data, gss := InitToken(types, token), GssBody(types, token);
    var n := |gss|;
    var m := n % LENGTH_LIMIT;
    WrapperBytes(types, token);
    assert data[0..] == data;
    TlvParts(data, 0, TAG_GSS, gss);
    assert DerLength(data[1..]).value.1 == m;
    ThreeBytes(n);
    hide DerLength, EncodeLength, GssBody, InitToken;
    assert Enter(data, 0, TAG_GSS) == Value(1 + LengthSize(m));
    if LengthSize(m) == 3 && data[4] == TAG_OID {
      ShortLength(data[5..]);
      assert SkipGss(data) == Value(12);
    } else {
      assert SkipGss(data) == NoValue;
    }
  }

  lemma ShortLength(data: Bytes)
    requires data != [] && data[0] < 0x80
    ensures DerLength(data) == Value((1, data[0]))
  {
  }

  lemma WrapperBytes(types: seq<Bytes>, token: Option<Bytes>)
    requires |GssBody(types, token)| >= 0x10000
    ensures var data, n := InitToken(types, token), |GssBody(types, token)|;
            && |data| > 13
            && data[..5] == [TAG_GSS, 0x83, (n / 65536) % 256, (n / 256) % 256, n % 256]
            && data[5] == TAG_OID && data[12] == 2
  {
    var data, gss := InitToken(types, token), GssBody(types, token);
    assert gss[..8] == Tlv(TAG_OID, SPNEGO_OID);
    assert data[5..] == gss;
    assert data[12] == gss[7];
  }

  /** So for tokens that fit, the wrapper's length decides: the round trip holds if and only if it keeps its size. */
  lemma InitRoundTripExactly(types: seq<Bytes>, token: Option<Bytes>)
    requires InitFits(types, token)
    ensures ParseInit(InitToken(types, token)) == Value(NegTokenInit(types, token)) <==>
            SizeKept(|GssBody(types, token)|)
  {
    hide InitFits, ParseInit, InitToken, SizeKept;
    if SizeKept(|GssBody(types, token)|) {
      InitRoundTrip(types, token);
    } else {
      WrapperSizeLost(types, token);
    }
  }

  /** From the context tag on, wrapped or not. */
  lemma InitBodyReads(data: Bytes, initAt: nat, types: seq<Bytes>, token: Option<Bytes>)
    requires InitFits(types, token) && |data| <= U64_MAX
    requires RestIs(data, initAt, Tlv(TAG_0, InitSeq(types, token)))
    ensures Enter(data, initAt, TAG_0).Value?
    ensures Enter(data, Enter(data, initAt, TAG_0).value, TAG_SEQUENCE).Value?
    ensures InitLoop(data, Enter(data, Enter(data, initAt, TAG_0).value, TAG_SEQUENCE).value, EMPTY_INIT) ==
            Value(NegTokenInit(types, token))
  {
    hide EncodeLength, DerLength, LengthSize, InitLoop, InitFields, SizeKept;
    var sequence := InitSeq(types, token);
    var fields := InitFields(types, token);
    assert Tlv(TAG_0, sequence) + [] == Tlv(TAG_0, sequence);
    AfterTlv(data, initAt, TAG_0, sequence, []);
    EnterTlv(data, initAt, TAG_0, sequence);
    TlvParts(data, initAt, TAG_0, sequence);
    var seqAt := BodyStart(initAt, sequence);
    assert data[seqAt..] == sequence;
    assert sequence == Tlv(TAG_SEQUENCE, fields) + [];
    AfterTlv(data, seqAt, TAG_SEQUENCE, fields, []);
    TlvLength(TAG_SEQUENCE, fields);
    EnterTlv(data, seqAt, TAG_SEQUENCE, fields);
    TlvParts(data, seqAt, TAG_SEQUENCE, fields);
    var at := BodyStart(seqAt, fields);
    assert data[at..] == fields;
    InitFieldsRead(data, at, types, token);
  }

  /** A NegTokenInit without the GSS-API wrapper is read the same way. */
  lemma UnwrappedInitRoundTrip(types: seq<Bytes>, token: Option<Bytes>)
    requires InitFits(types, token)
    ensures ParseInit(Tlv(TAG_0, InitSeq(types, token))) == Value(NegTokenInit(types, token))
  {
    hide InitLoop, SizeKept;
    var data := Tlv(TAG_0, InitSeq(types, token));
    InitSizes(types, token);
    assert data[0..] == data;
    InitBodyReads(data, 0, types, token);
  }

  // ---------- NegTokenResp ----------

  lemma RespMicSkipped(data: Bytes, offset: nat, mic: Option<Bytes>, resp: NegTokenResp)
    requires |data| <= U64_MAX && RestIs(data, offset, Field(TAG_3, TAG_OCTETS, mic)) && Fits(TAG_OCTETS, mic)
    ensures RespLoop(data, offset, resp) == Value(resp)
  {
    hide EncodeLength, DerLength, LengthSize, Inner;
    if mic.Some? {
      var body := Tlv(TAG_OCTETS, mic.value);
      TlvLength(TAG_3, body);
      assert Field(TAG_3, TAG_OCTETS, mic) == Tlv(TAG_3, body) + [];
      FieldReads(data, offset, TAG_3, TAG_OCTETS, mic.value, []);
      assert BodyEnd(offset, body) == |data|;
    } else {
      assert offset == |data|;
    }
  }

  lemma RespTokenRead(data: Bytes, offset: nat, token: Option<Bytes>, tail: Bytes, resp: NegTokenResp)
    requires |data| <= U64_MAX && resp.responseToken == None
    requires RestIs(data, offset, Field(TAG_2, TAG_OCTETS, token) + tail)
    requires Fits(TAG_OCTETS, token)
    ensures offset + |Field(TAG_2, TAG_OCTETS, token)| <= |data|
    ensures RestIs(data, offset + |Field(TAG_2, TAG_OCTETS, token)|, tail)
    ensures RespLoop(data, offset, resp) ==
            RespLoop(data, offset + |Field(TAG_2, TAG_OCTETS, token)|, resp.(responseToken := token))
  {
    hide EncodeLength, DerLength, LengthSize, Inner;
    if token.Some? {
      var body := Tlv(TAG_OCTETS, token.value);
      TlvLength(TAG_2, body);
      FieldReads(data, offset, TAG_2, TAG_OCTETS, token.value, tail);
    } else {
      assert [] + tail == tail;
    }
  }

  lemma RespMechRead(data: Bytes, offset: nat, mech: Option<Bytes>, tail: Bytes, resp: NegTokenResp)
    requires |data| <= U64_MAX && resp.supportedMech == None
    requires RestIs(data, offset, Field(TAG_1, TAG_OID, mech) + tail)
    requires Fits(TAG_OID, mech)
    ensures offset + |Field(TAG_1, TAG_OID, mech)| <= |data|
    ensures RestIs(data, offset + |Field(TAG_1, TAG_OID, mech)|, tail)
    ensures RespLoop(data, offset, resp) ==
            RespLoop(data, offset + |Field(TAG_1, TAG_OID, mech)|, resp.(supportedMech := mech))
  {
    hide EncodeLength, DerLength, LengthSize, Inner;
    if mech.Some? {
      var body := Tlv(TAG_OID, mech.value);
      TlvLength(TAG_1, body);
      FieldReads(data, offset, TAG_1, TAG_OID, mech.value, tail);
    } else {
      assert [] + tail == tail;
    }
  }

  lemma RespStateRead(data: Bytes, offset: nat, s: Option<NegState>, tail: Bytes)
    requires RestIs(data, offset, StateField(s) + tail) && |data| <= U64_MAX
    ensures offset + |StateField(s)| <= |data|
    ensures RestIs(data, offset + |StateField(s)|, tail)
    ensures RespLoop(data, offset, EMPTY_RESP) ==
            RespLoop(data, offset + |StateField(s)|, EMPTY_RESP.(negState := s))
  {
    if s.Some? {
      StateFieldRead(data, offset, s.value, tail);
    } else {
      assert [] + tail == tail;
    }
  }

  lemma StateFieldRead(data: Bytes, offset: nat, s: NegState, tail: Bytes)
    requires RestIs(data, offset, StateField(Some(s)) + tail) && |data| <= U64_MAX
    ensures RespLoop(data, offset, EMPTY_RESP) ==
            RespLoop(data, offset + |StateField(Some(s))|, EMPTY_RESP.(negState := Some(s)))
    ensures RestIs(data, offset + |StateField(Some(s))|, tail)
  {
    var field := StateField(Some(s));
    assert field == [TAG_0, 3, TAG_ENUM, 1, NegStateByte(s)];
    assert forall k :: 0 <= k < 5 ==> data[offset + k] == (field + tail)[k];
    assert DerLength(data[offset + 1..]) == Value((1, 3));
    assert NegStateOf(NegStateByte(s)) == Some(s);
    assert RespField(data, data[offset], offset + 2, EMPTY_RESP) == Value(EMPTY_RESP.(negState := Some(s)));
    assert data[offset + 5..] == data[offset..][5..];
  }

  lemma FourLengths(a: Bytes, b: Bytes, c: Bytes, d: Bytes)
    ensures |a + (b + (c + d))| == |a| + |b| + |c| + |d|
  {
  }

  lemma RespTailRead(data: Bytes, offset: nat, token: Option<Bytes>, mic: Option<Bytes>, resp: NegTokenResp)
    requires |data| <= U64_MAX && resp.responseToken == None
    requires Fits(TAG_OCTETS, token) && Fits(TAG_OCTETS, mic)
    requires RestIs(data, offset, Field(TAG_2, TAG_OCTETS, token) + Field(TAG_3, TAG_OCTETS, mic))
    ensures RespLoop(data, offset, resp) == Value(resp.(responseToken := token))
  {
    hide Field, RespLoop;
    RespTokenRead(data, offset, token, Field(TAG_3, TAG_OCTETS, mic), resp);
    RespMicSkipped(data, offset + |Field(TAG_2, TAG_OCTETS, token)|, mic, resp.(responseToken := token));
  }

  lemma RespMechTailRead(data: Bytes, offset: nat, mech: Option<Bytes>, token: Option<Bytes>,
                         mic: Option<Bytes>, resp: NegTokenResp)
    requires |data| <= U64_MAX && resp.responseToken == None && resp.supportedMech == None
    requires Fits(TAG_OID, mech) && Fits(TAG_OCTETS, token) && Fits(TAG_OCTETS, mic)
    requires RestIs(data, offset, Field(TAG_1, TAG_OID, mech) +
                    (Field(TAG_2, TAG_OCTETS, token) + Field(TAG_3, TAG_OCTETS, mic)))
    ensures RespLoop(data, offset, resp) == Value(resp.(supportedMech := mech, responseToken := token))
  {
    hide Field, RespLoop;
    var tail := Field(TAG_2, TAG_OCTETS, token) + Field(TAG_3, TAG_OCTETS, mic);
    RespMechRead(data, offset, mech, tail, resp);
    RespTailRead(data, offset + |Field(TAG_1, TAG_OID, mech)|, token, mic, resp.(supportedMech := mech));
  }

  lemma RespFieldsRead(data: Bytes, offset: nat, s: Option<NegState>, mech: Option<Bytes>,
                       token: Option<Bytes>, mic: Option<Bytes>)
    requires Fits(TAG_OID, mech) && Fits(TAG_OCTETS, token) && Fits(TAG_OCTETS, mic) && |data| <= U64_MAX
    requires RestIs(data, offset, RespFields(s, mech, token, mic))
    ensures RespLoop(data, offset, EMPTY_RESP) == Value(NegTokenResp(s, mech, token))
  {
    hide Field, RespLoop, StateField;
    FourLengths(StateField(s), Field(TAG_1, TAG_OID, mech), Field(TAG_2, TAG_OCTETS, token),
                Field(TAG_3, TAG_OCTETS, mic));
    RespStateRead(data, offset, s, Field(TAG_1, TAG_OID, mech) +
                  (Field(TAG_2, TAG_OCTETS, token) + Field(TAG_3, TAG_OCTETS, mic)));
    RespMechTailRead(data, offset + |StateField(s)|, mech, token, mic, EMPTY_RESP.(negState := s));
  }

  predicate RespFits(s: Option<NegState>, mech: Option<Bytes>, token: Option<Bytes>, mic: Option<Bytes>) {
    && Fits(TAG_OID, mech) && Fits(TAG_OCTETS, token) && Fits(TAG_OCTETS, mic)
    && SizeKept(|RespFields(s, mech, token, mic)|) && SizeKept(|RespSeq(s, mech, token, mic)|)
  }

  lemma RespSizes(s: Option<NegState>, mech: Option<Bytes>, token: Option<Bytes>, mic: Option<Bytes>)
    requires Fits(TAG_OID, mech) && Fits(TAG_OCTETS, token) && Fits(TAG_OCTETS, mic)
    ensures 2 <= |RespToken(s, mech, token, mic)| <= U64_MAX
  {
    hide Field, EncodeLength;
    FourLengths(StateField(s), Field(TAG_1, TAG_OID, mech), Field(TAG_2, TAG_OCTETS, token),
                Field(TAG_3, TAG_OCTETS, mic));
    FieldSize(TAG_1, TAG_OID, mech);
    FieldSize(TAG_2, TAG_OCTETS, token);
    FieldSize(TAG_3, TAG_OCTETS, mic);
    if s.Some? {
      TlvLength(TAG_0, [TAG_ENUM, 1, NegStateByte(s.value)]);
    }
    TlvLength(TAG_SEQUENCE, RespFields(s, mech, token, mic));
    TlvLength(TAG_1, RespSeq(s, mech, token, mic));
  }

  /** A body below 2^24 bytes meets all the conditions. */
  lemma ShortRespFits(s: Option<NegState>, mech: Option<Bytes>, token: Option<Bytes>, mic: Option<Bytes>)
    requires |RespSeq(s, mech, token, mic)| < LENGTH_LIMIT
    ensures RespFits(s, mech, token, mic)
  {
    hide EncodeLength;
    FourLengths(StateField(s), Field(TAG_1, TAG_OID, mech), Field(TAG_2, TAG_OCTETS, token),
                Field(TAG_3, TAG_OCTETS, mic));
    TlvLength(TAG_SEQUENCE, RespFields(s, mech, token, mic));
    if mech.Some? {
      TlvLength(TAG_1, Tlv(TAG_OID, mech.value));
    }
    if token.Some? {
      TlvLength(TAG_2, Tlv(TAG_OCTETS, token.value));
    }
    if mic.Some? {
      TlvLength(TAG_3, Tlv(TAG_OCTETS, mic.value));
    }
  }

  /**
   Parsing a built NegTokenResp gives back state, mechanism and token; the MIC is skipped.  The
   conditions are those of a NegTokenInit, and the token is never taken for one.
   */
  lemma RespRoundTrip(s: Option<NegState>, mech: Option<Bytes>, token: Option<Bytes>, mic: Option<Bytes>)
    requires RespFits(s, mech, token, mic)
    ensures ParseResp(RespToken(s, mech, token, mic)) == Value(NegTokenResp(s, mech, token))
    ensures ParseInit(RespToken(s, mech, token, mic)) == NoValue
  {
    hide EncodeLength, DerLength, RespLoop, RespFields, SizeKept, LengthSize;
    var data := RespToken(s, mech, token, mic);
    var sequence := RespSeq(s, mech, token, mic);
    var fields := RespFields(s, mech, token, mic);
    RespSizes(s, mech, token, mic);
    assert data == Tlv(TAG_1, sequence) + [];
    assert RestIs(data, 0, Tlv(TAG_1, sequence) + []);
    AfterTlv(data, 0, TAG_1, sequence, []);
    EnterTlv(data, 0, TAG_1, sequence);
    TlvParts(data, 0, TAG_1, sequence);
    var seqAt := BodyStart(0, sequence);
    assert data[seqAt..] == sequence;
    assert sequence == Tlv(TAG_SEQUENCE, fields) + [];
    AfterTlv(data, seqAt, TAG_SEQUENCE, fields, []);
    EnterTlv(data, seqAt, TAG_SEQUENCE, fields);
    TlvParts(data, seqAt, TAG_SEQUENCE, fields);
    var at := BodyStart(seqAt, fields);
    assert data[at..] == fields;
    RespFieldsRead(data, at, s, mech, token, mic);
  }
}
