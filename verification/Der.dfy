/** DER lengths and tag-length-value triples as the SPNEGO module reads and writes them. */
module Der {
  import opened Core

  type Bytes = seq<byte>

  /**
   Result of a parser: a value, the source's `None`, a slice out of range (a panic), or the sum of
   an offset and a length that leaves 64 bits (a panic with overflow checks, a wrap without).
   */
  datatype Outcome<+T> = Value(value: T) | NoValue | Panic | Overflow {
    predicate IsFailure() { !Value? }

    function PropagateFailure<U>(): Outcome<U>
      requires IsFailure()
    {
      match this
      case NoValue => NoValue
      case Panic => Panic
      case Overflow => Overflow
    }

    function Extract(): T
      requires !IsFailure()
    {
      value
    }
  }

  /** Lengths from here on do not fit the three length bytes of the encoder. */
  const LENGTH_LIMIT: nat := 0x1000000

  /** `data.get(i)?` */
  function At(data: Bytes, i: nat): Outcome<byte> {
    if i < |data| then Value(data[i]) else NoValue
  }

  /** `data[from..to]` */
  function Slice(data: Bytes, from: nat, to: nat): Outcome<Bytes> {
    if from <= to <= |data| then Value(data[from..to]) else Panic
  }

  /** `from + len` on machine words. */
  function End(from: nat, len: nat): Outcome<nat> {
    if from + len <= U64_MAX then Value(from + len) else Overflow
  }

  // ---------- lengths ----------

  /** Big-endian value of the bytes after `len`, `NoValue` on 64-bit overflow. */
  function Accumulate(bytes: Bytes, len: nat): Outcome<nat> {
    if bytes == [] then Value(len)
    else if len * 256 > U64_MAX then NoValue
    else if len * 256 + bytes[0] > U64_MAX then NoValue
    else Accumulate(bytes[1..], len * 256 + bytes[0])
  }

  /** Bytes read and length found. */
  function DerLength(data: Bytes): Outcome<(nat, nat)> {
    if data == [] then NoValue
    else if data[0] < 0x80 then Value((1, data[0]))
    else
      var count := data[0] - 0x80;
      if count == 0 || |data| < 1 + count then NoValue
      else
        var len :- Accumulate(data[1..1 + count], 0);
        Value((1 + count, len))
  }

  method ParseDerLength(data: Bytes) returns (r: Outcome<(nat, nat)>)
    ensures r == DerLength(data)
  {
    if data == [] {
      return NoValue;
    }
    var first := data[0];
    if first < 0x80 {
      return Value((1, first));
    }
    var count := first % 0x80;
    if count == 0 || |data| < 1 + count {
      return NoValue;
    }
    var body := data[1..1 + count];
    var len: nat := 0;
    for i := 0 to count
      invariant Accumulate(body, 0) == Accumulate(body[i..], len)
    {
      assert body[i..][1..] == body[i + 1..];
      var b: nat := body[i];
      if len * 256 > U64_MAX {
        return NoValue;
      }
      len := len * 256;
      if len + b > U64_MAX {
        return NoValue;
      }
      len := len + b;
    }
    assert body[count..] == [];
    r := Value((1 + count, len));
  }

  function LengthSize(len: nat): nat {
    if len < 0x80 then 1
    else if len < 0x100 then 2
    else if len < 0x10000 then 3
    else 4
  }

  function EncodeLength(len: nat): Bytes {
    if len < 0x80 then [len]
    else if len < 0x100 then [0x81, len]
    else if len < 0x10000 then [0x82, len / 256, len % 256]
    else [0x83, (len / 65536) % 256, (len / 256) % 256, len % 256]
  }

  lemma {:induction false} AccumulateThree(a: byte, b: byte, c: byte)
    ensures Accumulate([c], 0) == Value(c)
    ensures Accumulate([b, c], 0) == Value(b * 256 + c)
    ensures Accumulate([a, b, c], 0) == Value(a * 65536 + b * 256 + c)
  {
    forall n: nat | n < 65536
      ensures Accumulate([c], n) == Value(n * 256 + c)
    {
      assert [c][1..] == [];
    }
    forall n: nat | n < 256
      ensures Accumulate([b, c], n) == Value(n * 65536 + b * 256 + c)
    {
      assert [b, c][1..] == [c];
    }
    assert [a, b, c][1..] == [b, c];
  }

  /** What the decoder finds at the front of an encoded length, for every length. */
  lemma DecodedLength(n: nat, rest: Bytes)
    ensures DerLength(EncodeLength(n) + rest) ==
            Value((LengthSize(n), if n < 0x10000 then n else n % LENGTH_LIMIT))
  {
    var data := EncodeLength(n) + rest;
    if n < 0x80 {
    } else if n < 0x100 {
      AccumulateThree(0, 0, n);
      assert data[1..2] == [n];
    } else if n < 0x10000 {
      AccumulateThree(0, n / 256, n % 256);
      assert data[1..3] == [n / 256, n % 256];
    } else {
      var a, b, c := (n / 65536) % 256, (n / 256) % 256, n % 256;
      AccumulateThree(a, b, c);
      assert data[1..4] == [a, b, c];
      ThreeBytes(n);
    }
  }

  lemma ThreeBytes(n: nat)
    ensures (n / 65536) % 256 * 65536 + (n / 256) % 256 * 256 + n % 256 == n % 0x1000000
  {
    var c, n1 := n % 256, n / 256;
    var b, n2 := n1 % 256, n1 / 256;
    var a, k := n2 % 256, n2 / 256;
    TwoDigits(n, n2, b, c);
    FourDigits(n, k, a * 65536 + b * 256 + c);
  }

  lemma TwoDigits(n: nat, q: nat, b: nat, c: nat)
    requires n == q * 65536 + b * 256 + c && b < 256 && c < 256
    ensures n / 65536 == q
  {
  }

  lemma FourDigits(n: nat, q: nat, r: nat)
    requires n == q * 0x1000000 + r && r < 0x1000000
    ensures n % 0x1000000 == r
  {
  }

  /** A length survives encoding and decoding exactly when it is below 2^24. */
  lemma LengthRoundTrip(n: nat, rest: Bytes)
    ensures DerLength(EncodeLength(n) + rest) == Value((LengthSize(n), n)) <==> n < LENGTH_LIMIT
    ensures |EncodeLength(n)| == LengthSize(n)
  {
    DecodedLength(n, rest);
  }

  // ---------- tag, length, value ----------

  function Tlv(tag: byte, body: Bytes): Bytes {
    [tag] + EncodeLength(|body|) + body
  }

  lemma TlvLength(tag: byte, body: Bytes)
    ensures |Tlv(tag, body)| == 1 + LengthSize(|body|) + |body|
  {
  }

  /** A triple stands at `offset`. */
  predicate TlvAt(data: Bytes, offset: nat, tag: byte, body: Bytes) {
    offset <= |data| && Tlv(tag, body) <= data[offset..]
  }

  /** Where its body starts, and where the byte after it is. */
  function BodyStart(offset: nat, body: Bytes): nat {
    offset + 1 + LengthSize(|body|)
  }

  function BodyEnd(offset: nat, body: Bytes): nat {
    BodyStart(offset, body) + |body|
  }

  /** What stands at a triple, for a body of any length. */
  lemma TlvParts(data: Bytes, offset: nat, tag: byte, body: Bytes)
    requires TlvAt(data, offset, tag, body)
    ensures offset < |data| && data[offset] == tag
    ensures DerLength(data[offset + 1..]) ==
            Value((LengthSize(|body|), if |body| < 0x10000 then |body| else |body| % LENGTH_LIMIT))
    ensures BodyEnd(offset, body) <= |data|
    ensures data[BodyStart(offset, body)..BodyEnd(offset, body)] == body
  {
    var tail := data[offset..];
    var t := Tlv(tag, body);
    TlvLength(tag, body);
    assert tail[..|t|] == t;
    assert data[offset] == tail[0] == t[0];
    var rest := body + tail[|t|..];
    assert tail == t + tail[|t|..];
    assert data[offset + 1..] == tail[1..] == EncodeLength(|body|) + rest;
    DecodedLength(|body|, rest);
    var l := 1 + LengthSize(|body|);
    assert data[BodyStart(offset, body)..BodyEnd(offset, body)] == tail[l..l + |body|] == t[l..] == body;
  }

  /** A parser standing at a triple with a short enough body finds its tag, length and body. */
  lemma ReadTlv(data: Bytes, offset: nat, tag: byte, body: Bytes)
    requires TlvAt(data, offset, tag, body) && |body| < LENGTH_LIMIT
    ensures offset < |data| && data[offset] == tag
    ensures DerLength(data[offset + 1..]) == Value((LengthSize(|body|), |body|))
    ensures BodyEnd(offset, body) <= |data|
    ensures data[BodyStart(offset, body)..BodyEnd(offset, body)] == body
  {
    hide DerLength, EncodeLength;
    TlvParts(data, offset, tag, body);
  }

  /** A length whose decoded value takes as many length bytes as the length itself. */
  predicate SizeKept(n: nat) {
    n < LENGTH_LIMIT || n % LENGTH_LIMIT >= 0x10000
  }

  lemma SizeKeptExactly(n: nat)
    ensures LengthSize(if n < 0x10000 then n else n % LENGTH_LIMIT) == LengthSize(n) <==> SizeKept(n)
  {
  }

  /** A triple that stands alone or at the front of a body, seen from the enclosing data. */
  lemma TlvInBody(data: Bytes, offset: nat, tag: byte, body: Bytes, innerTag: byte, inner: Bytes, rest: Bytes)
    requires TlvAt(data, offset, tag, body) && |body| < LENGTH_LIMIT
    requires body == Tlv(innerTag, inner) + rest
    ensures TlvAt(data, BodyStart(offset, body), innerTag, inner)
    ensures BodyEnd(BodyStart(offset, body), inner) + |rest| == BodyEnd(offset, body)
  {
  }
}
