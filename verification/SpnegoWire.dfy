/**
 The tokens as bytes: tags and codes of section 4.2 of RFC 4178, and lengths in the definite form
 of section 8.1.3 of X.690.
 */
module SpnegoWire {
  import opened Core
  import opened Der
  import opened Spnego

  /** The number that bytes stand for, the most significant first. */
  function BigEndian(bytes: Bytes): nat {
    if bytes == [] then 0 else BigEndian(bytes[..|bytes| - 1]) * 256 + bytes[|bytes| - 1]
  }

  /** The shortest definite form: one byte below 128, else a count and that many bytes without a leading zero. */
  predicate ShortestForm(bytes: Bytes, n: nat) {
    if n < 0x80 then bytes == [n]
    else
      && 2 <= |bytes| <= 0x80 && bytes[0] as int == 0x80 + (|bytes| - 1)
      && bytes[1] != 0 && BigEndian(bytes[1..]) == n
  }

  lemma BigEndianThree(a: byte, b: byte, c: byte)
    ensures BigEndian([a]) == a
    ensures BigEndian([a, b]) == a * 256 + b
    ensures BigEndian([a, b, c]) == a * 65536 + b * 256 + c
  {
    assert [a][..0] == [];
    assert [a, b][..1] == [a];
    assert [a, b, c][..2] == [a, b];
  }

  /** The encoder writes the shortest form exactly for lengths below 2^24. */
  lemma LengthIsShortest(n: nat)
    ensures ShortestForm(EncodeLength(n), n) <==> n < LENGTH_LIMIT
  {
    var e := EncodeLength(n);
    if 0x80 <= n < 0x100 {
      assert e[1..] == [n];
      BigEndianThree(n, 0, 0);
    } else if 0x100 <= n < 0x10000 {
      assert e[1..] == [n / 256, n % 256];
      BigEndianThree(n / 256, n % 256, 0);
    } else if 0x10000 <= n {
      var a, b, c := (n / 65536) % 256, (n / 256) % 256, n % 256;
      assert e[1..] == [a, b, c];
      BigEndianThree(a, b, c);
      ThreeBytes(n);
      if n < LENGTH_LIMIT {
        assert a == n / 65536 != 0;
      }
    }
  }

  // ---------- the builders ----------

  /** An optional field: a context tag around one triple. */
  function Optional(tag: byte, innerTag: byte, value: Option<Bytes>): Bytes {
    if value.None? then [] else Tlv(tag, Tlv(innerTag, value.value))
  }

  /** The code of a negotiation state. */
  function StateCode(s: NegState): byte {
    if s == AcceptCompleted then 0 else if s == AcceptIncomplete then 1 else if s == Reject then 2 else 3
  }

  /**
   A response is [1] around a sequence of the state as an enumeration in [0], the mechanism as an
   object identifier in [1], and the token and the MIC as octet strings in [2] and [3].
   */
  lemma RespWire(s: Option<NegState>, mech: Option<Bytes>, token: Option<Bytes>, mic: Option<Bytes>)
    ensures RespToken(s, mech, token, mic) ==
            Tlv(0xa1, Tlv(0x30,
              (if s.None? then [] else [0xa0, 0x03, 0x0a, 0x01, StateCode(s.value)]) +
              Optional(0xa1, 0x06, mech) + Optional(0xa2, 0x04, token) + Optional(0xa3, 0x04, mic)))
  {
    hide Tlv;
    ConcatFour(StateField(s), Optional(0xa1, 0x06, mech), Optional(0xa2, 0x04, token), Optional(0xa3, 0x04, mic));
    if s.Some? {
      StateWire(s.value);
    }
  }

  lemma StateWire(s: NegState)
    ensures Tlv(TAG_0, [TAG_ENUM, 1, NegStateByte(s)]) == [0xa0, 0x03, 0x0a, 0x01, StateCode(s)]
  {
  }

  /**
   An initial token is the GSS-API application tag around the SPNEGO mechanism and [0] around a
   sequence of the mechanism list in [0] and the token as an octet string in [2].
   */
  lemma InitWire(types: seq<Bytes>, token: Option<Bytes>)
    ensures InitToken(types, token) ==
            Tlv(0x60,
              [0x06, 0x06, 0x2b, 0x06, 0x01, 0x05, 0x05, 0x02] +
              Tlv(0xa0, Tlv(0x30, Tlv(0xa0, Tlv(0x30, OidList(types))) + Optional(0xa2, 0x04, token))))
  {
    assert Tlv(TAG_OID, SPNEGO_OID) == [0x06, 0x06, 0x2b, 0x06, 0x01, 0x05, 0x05, 0x02];
  }

  /** The list holds one object identifier after the other. */
  lemma OidListWire(types: seq<Bytes>, oid: Bytes)
    ensures OidList([]) == [] && OidList(types + [oid]) == OidList(types) + Tlv(0x06, oid)
  {
    OidListSnoc(types, oid);
  }

  // ---------- the state byte as the parser reads it ----------

  /** A response that holds a state alone, with this byte as its code. */
  function StateResponse(code: byte): Bytes {
    [0xa1, 0x07, 0x30, 0x05, 0xa0, 0x03, 0x0a, 0x01, code]
  }

  /** The parser reads the four codes as their states and any other code as none. */
  lemma StateCodeRead(code: byte)
    ensures ParseResp(StateResponse(code)) ==
            Value(NegTokenResp(if code == 0 then Some(AcceptCompleted)
                               else if code == 1 then Some(AcceptIncomplete)
                               else if code == 2 then Some(Reject)
                               else if code == 3 then Some(RequestMic) else None, None, None))
  {
    var data := StateResponse(code);
    assert data[1..][0] == 0x07 && data[3..][0] == 0x05 && data[5..][0] == 0x03;
    assert Enter(data, 0, TAG_1) == Value(2) && Enter(data, 2, TAG_SEQUENCE) == Value(4);
    assert RespLoop(data, 9, EMPTY_RESP.(negState := NegStateOf(code))) ==
           Value(EMPTY_RESP.(negState := NegStateOf(code)));
    assert RespField(data, data[4], 6, EMPTY_RESP) == Value(EMPTY_RESP.(negState := NegStateOf(code)));
  }

  /** Tokens without fields have no mechanisms, no state and no token. */
  lemma EmptyTokensRead()
    ensures ParseInit([0xa0, 0x02, 0x30, 0x00]) == Value(NegTokenInit([], None))
    ensures ParseResp([0xa1, 0x02, 0x30, 0x00]) == Value(NegTokenResp(None, None, None))
  {
    var a, b := [0xa0, 0x02, 0x30, 0x00], [0xa1, 0x02, 0x30, 0x00];
    assert a[1..][0] == 0x02 && a[3..][0] == 0x00 && b[1..][0] == 0x02 && b[3..][0] == 0x00;
    assert Enter(a, 0, TAG_0) == Value(2) && Enter(a, 2, TAG_SEQUENCE) == Value(4);
    assert Enter(b, 0, TAG_1) == Value(2) && Enter(b, 2, TAG_SEQUENCE) == Value(4);
  }
}
