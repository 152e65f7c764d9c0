/** The wire format of broker/mqtt/mqtt_packet.go as functions on byte sequences: the remaining
    length of section 2.2.3 of MQTT Version 3.1.1, 16-bit integers, strings and the fixed header. */
module Codec {
  import opened Base

  const MAX_REMAINING: nat := 268435455

  function Pow128(k: nat): (r: nat)
    ensures r >= 1
  {
    if k == 0 then 1 else 128 * Pow128(k - 1)
  }

  // ---------------------------------------------------------------- remaining length

  /** The bytes the encoding loop produces when it is not cut off; none at all for 0. */
  function LengthBytes(n: nat): seq<byte> {
    if n == 0 then []
    else if n < 128 then [n as byte]
    else [(n % 128 + 128) as byte] + LengthBytes(n / 128)
  }

  lemma LengthBytesStep(n: nat)
    requires n > 0
    ensures LengthBytes(n) == [(if n / 128 > 0 then n % 128 + 128 else n % 128) as byte] + LengthBytes(n / 128)
  {
  }

  /** Five bytes or more are refused (mqtt_packet.go:157-159). */
  function EncodeLength(n: nat): Result<seq<byte>> {
    if |LengthBytes(n)| >= 5 then Err else Ok(LengthBytes(n))
  }

  datatype Decoded = Decoded(value: nat, consumed: nat)

  /** The decoding loop with `budget` length bytes still allowed; running out of input and reading one
      byte too many are the same error. */
  function DecodeLength(input: seq<byte>, budget: nat): Result<Decoded>
    decreases budget
  {
    if input == [] || budget == 0 then Err
    else if input[0] < 128 then Ok(Decoded(input[0] as nat, 1))
    else
      var rest := DecodeLength(input[1..], budget - 1);
      if rest.Err? then Err
      else Ok(Decoded(input[0] as nat - 128 + 128 * rest.value.value, 1 + rest.value.consumed))
  }

  lemma {:induction false} LengthBytesSize(n: nat, k: nat)
    ensures |LengthBytes(n)| <= k <==> n < Pow128(k)
  {
    if k > 0 && n >= 128 {
      LengthBytesSize(n / 128, k - 1);
    }
  }

  /** The encoder refuses exactly the lengths the protocol cannot express. */
  lemma EncodeRefuses(n: nat)
    ensures EncodeLength(n).Ok? <==> n <= MAX_REMAINING
  {
    LengthBytesSize(n, 4);
    assert Pow128(4) == 128 * (128 * (128 * 128));
  }

  lemma {:induction false} DecodeLengthBytes(n: nat, rest: seq<byte>, budget: nat)
    requires 1 <= n && |LengthBytes(n)| <= budget
    ensures DecodeLength(LengthBytes(n) + rest, budget) == Ok(Decoded(n, |LengthBytes(n)|))
  {
    var input := LengthBytes(n) + rest;
    if n >= 128 {
      DecodeLengthBytes(n / 128, rest, budget - 1);
      assert input[1..] == LengthBytes(n / 128) + rest;
    }
  }

  /** Round trip of the remaining length: it holds exactly when the length is not 0, which is written
      with no byte at all. */
  lemma LengthRoundTrip(n: nat, rest: seq<byte>)
    requires n <= MAX_REMAINING
    ensures EncodeLength(n).Ok?
    ensures DecodeLength(EncodeLength(n).value + rest, 4) == Ok(Decoded(n, |EncodeLength(n).value|)) <==> n != 0
  {
    EncodeRefuses(n);
    if n == 0 {
      DecodeBounds(rest, 4);
      assert [] + rest == rest;
    } else {
      DecodeLengthBytes(n, rest, 4);
    }
  }

  /** What the decoder accepts takes between one and four bytes and never exceeds the maximum. */
  lemma {:induction false} DecodeBounds(input: seq<byte>, budget: nat)
    ensures var r := DecodeLength(input, budget);
            r.Ok? ==> 1 <= r.value.consumed <= budget && r.value.consumed <= |input| && r.value.value < Pow128(r.value.consumed)
    decreases budget
  {
    if input != [] && budget > 0 && input[0] >= 128 {
      DecodeBounds(input[1..], budget - 1);
    }
  }

  /** No other byte string that decodes to the same length is shorter. */
  lemma EncodingMinimal(n: nat, input: seq<byte>, budget: nat)
    requires var r := DecodeLength(input, budget); r.Ok? && r.value.value == n
    ensures |LengthBytes(n)| <= DecodeLength(input, budget).value.consumed
  {
    DecodeBounds(input, budget);
    LengthBytesSize(n, DecodeLength(input, budget).value.consumed);
  }

  /** No encoding is a prefix of another. */
  lemma EncodingPrefixFree(m: nat, n: nat, a: seq<byte>, b: seq<byte>)
    requires m != 0 && n != 0
    requires LengthBytes(m) + a == LengthBytes(n) + b
    ensures m == n
  {
    var budget := |LengthBytes(m)| + |LengthBytes(n)|;
    DecodeLengthBytes(m, a, budget);
    DecodeLengthBytes(n, b, budget);
  }

  // ---------------------------------------------------------------- 16-bit integers and strings

  /** writeUint16 keeps four bits of each byte (mqtt_packet.go:333-334). */
  function WrittenUint16(v: nat): seq<byte> {
    [(v / 256 % 16) as byte, (v % 16) as byte]
  }

  /** sendCommandWithPacketID writes both bytes in full (mqtt_session.go:777-778). */
  function FullUint16(v: nat): seq<byte> {
    [(v / 256 % 256) as byte, (v % 256) as byte]
  }

  /** The body of a packet as its readers find it. The header promises `promised` bytes; indexing stops at
      `visible`, the length of the slice, and slicing goes on to its capacity, the length of `store`. */
  datatype Memory = Memory(promised: nat, visible: nat, store: seq<byte>)

  type Slice = m: Memory | m.visible <= |m.store| witness Memory(0, 0, [])

  /** A body that is all there. */
  function Whole(body: seq<byte>): Slice { Memory(|body|, |body|, body) }

  /** What a reader returns: a value, an error, or a run-time error. */
  datatype Got<+T> = Got(value: T) | Bad | Crash

  function Missed<T, U>(g: Got<T>): Got<U>
    requires !g.Got?
  {
    if g.Crash? then Crash else Bad
  }

  /** How a handler returns. Panic is a run-time error of the source, Hang a loop that never ends. */
  datatype Outcome = Fine | Error | Panic | Hang

  function OutcomeOf<T>(g: Got<T>): Outcome {
    match g
    case Got(_) => Fine
    case Bad => Error
    case Crash => Panic
  }

  function GetByte(s: Slice, pos: nat): Got<byte> {
    if pos + 1 > s.promised then Bad else if pos >= s.visible then Crash else Got(s.store[pos])
  }

  function GetBytes(s: Slice, pos: nat, count: nat): Got<seq<byte>> {
    if pos + count > s.promised then Bad
    else if pos + count > |s.store| then Crash
    else Got(s.store[pos..pos + count])
  }

  function GetUint16(s: Slice, pos: nat): Got<nat> {
    if pos + 2 > s.promised then Bad
    else if pos + 2 > s.visible then Crash
    else Got(s.store[pos] as nat * 256 + s.store[pos + 1] as nat)
  }

  function GetString(s: Slice, pos: nat): Got<Text> {
    var n := GetUint16(s, pos);
    if n.Got? then GetBytes(s, pos + 2, n.value) else Missed(n)
  }

  /** Where readString leaves the position: behind the length if only the length can be read. */
  function StringEnd(s: Slice, pos: nat): nat {
    if !GetUint16(s, pos).Got? then pos
    else if GetString(s, pos).Got? then pos + 2 + |GetString(s, pos).value|
    else pos + 2
  }

  /** writeString: the length is taken modulo 65536 before it is masked. */
  function WrittenString(s: Text): seq<byte> { WrittenUint16(|s| % 65536) + s }

  /** Both bytes of the value fit in four bits. */
  predicate Clean(v: nat) { v < 65536 && v / 256 < 16 && v % 256 < 16 }

  /** The masked integer comes back exactly when both of its bytes are below 16. */
  lemma Uint16RoundTrip(v: nat, before: seq<byte>, after: seq<byte>)
    requires v < 65536
    ensures GetUint16(Whole(before + WrittenUint16(v) + after), |before|).Got?
    ensures GetUint16(Whole(before + WrittenUint16(v) + after), |before|).value == v <==> Clean(v)
  {
    var body := before + WrittenUint16(v) + after;
    assert body[|before|] == WrittenUint16(v)[0] && body[|before| + 1] == WrittenUint16(v)[1];
    MaskedBytes(v);
  }

  lemma MaskedBytes(v: nat)
    requires v < 65536
    ensures v / 256 % 16 * 256 + v % 16 == v <==> Clean(v)
  {
    LowNibble(v / 256, v % 256);
    MaskedEqual(v / 256, v % 256);
  }

  lemma LowNibble(hi: nat, lo: nat)
    ensures (256 * hi + lo) % 16 == lo % 16
  {
    NibbleIs(256 * hi + lo, 16 * hi + lo / 16, lo % 16);
  }

  lemma NibbleIs(x: nat, q: nat, r: nat)
    requires r < 16 && x == 16 * q + r
    ensures x % 16 == r
  {
    var p, s := x / 16, x % 16;
    assert x == 16 * p + s && s < 16;
    assert p == q;
  }

  lemma MaskedEqual(hi: nat, lo: nat)
    requires hi < 256 && lo < 256
    ensures hi % 16 * 256 + lo % 16 == hi * 256 + lo <==> hi < 16 && lo < 16
  {
  }

  /** A 16-bit integer and a string as a client writes them, both bytes of the length in full. */
  lemma FullUint16At(v: nat, body: seq<byte>, pos: nat, after: seq<byte>)
    requires v < 65536 && pos <= |body| && body[pos..] == FullUint16(v) + after
    ensures GetUint16(Whole(body), pos) == Got(v) && pos + 2 <= |body| && body[pos + 2..] == after
  {
    assert body[pos] == body[pos..][0] && body[pos + 1] == body[pos..][1];
    assert body[pos + 2..] == body[pos..][2..];
  }

  function FullString(s: Text): seq<byte> { FullUint16(|s|) + s }

  lemma FullStringAt(s: Text, body: seq<byte>, pos: nat, after: seq<byte>)
    requires |s| < 65536 && pos <= |body| && body[pos..] == FullString(s) + after
    ensures GetString(Whole(body), pos) == Got(s)
    ensures pos + 2 + |s| <= |body| && body[pos + 2 + |s|..] == after
  {
    assert FullString(s) + after == FullUint16(|s|) + (s + after);
    FullUint16At(|s|, body, pos, s + after);
    assert body[pos + 2..pos + 2 + |s|] == body[pos + 2..][..|s|] == s;
    assert body[pos + 2 + |s|..] == body[pos + 2..][|s|..] == after;
  }

  /** What is read is what is there. */
  lemma Uint16Back(body: seq<byte>, pos: nat, v: nat)
    requires GetUint16(Whole(body), pos) == Got(v)
    ensures v < 65536 && pos + 2 <= |body| && body[pos..pos + 2] == FullUint16(v)
  {
    TwoBytesBack(body[pos] as nat, body[pos + 1] as nat);
  }

  lemma TwoBytesBack(hi: nat, lo: nat)
    requires hi < 256 && lo < 256
    ensures (hi * 256 + lo) / 256 % 256 == hi && (hi * 256 + lo) % 256 == lo
  {
  }

  lemma StringBack(body: seq<byte>, pos: nat, s: Text)
    requires GetString(Whole(body), pos) == Got(s)
    ensures |s| < 65536 && pos + 2 + |s| <= |body| && body[pos..pos + 2 + |s|] == FullString(s)
  {
    Uint16Back(body, pos, |s|);
    assert body[pos..pos + 2 + |s|] == body[pos..pos + 2] + body[pos + 2..pos + 2 + |s|];
  }

  /** A written string is read back exactly when its length is clean. */
  lemma StringRoundTrip(s: Text, before: seq<byte>, after: seq<byte>)
    ensures GetString(Whole(before + WrittenString(s) + after), |before|) == Got(s) <==> Clean(|s|)
  {
    var n := |s| % 65536;
    var body := before + WrittenString(s) + after;
    LengthThenString(before, WrittenUint16(n), s, after);
    Uint16RoundTrip(n, before, s + after);
    StringFrom(body, |before|, s, GetUint16(Whole(body), |before|).value);
  }

  lemma LengthThenString(before: seq<byte>, length: seq<byte>, s: Text, after: seq<byte>)
    requires |length| == 2
    ensures var body := before + (length + s) + after;
            body == before + length + (s + after) && body[|before| + 2..|before| + 2 + |s|] == s
  {
  }

  /** A string comes back exactly when its length does. */
  lemma StringFrom(body: seq<byte>, pos: nat, s: Text, n: nat)
    requires GetUint16(Whole(body), pos) == Got(n)
    requires pos + 2 + |s| <= |body| && body[pos + 2..pos + 2 + |s|] == s
    ensures GetString(Whole(body), pos) == Got(s) <==> n == |s|
  {
  }

  // ---------------------------------------------------------------- fixed header

  /** Bitwise or of two bytes. */
  function BitOr(a: nat, b: nat): nat
    decreases a + b
  {
    if a == 0 then b else if b == 0 then a
    else (if a % 2 + b % 2 > 0 then 1 else 0) + 2 * BitOr(a / 2, b / 2)
  }

  function Pow2(k: nat): nat { if k == 0 then 1 else 2 * Pow2(k - 1) }

  lemma {:induction false} BitOrBound(a: nat, b: nat, k: nat)
    requires a < Pow2(k) && b < Pow2(k)
    ensures BitOr(a, b) < Pow2(k)
    decreases k
  {
    if a != 0 && b != 0 {
      BitOrBound(a / 2, b / 2, k - 1);
    }
  }

  lemma BitOrByte(a: nat, b: nat)
    requires a < 256 && b < 256
    ensures BitOr(a, b) < 256
  {
    assert Pow2(8) == 256;
    BitOrBound(a, b, 8);
  }

  /** The first byte initializePacket assembles (mqtt_packet.go:164-173). */
  function HeaderByte(command: byte, dup: bool, qos: nat, retain: bool): byte {
    var b0 := command as nat;
    var b1 := if dup then (BitOrByte(b0, 8); BitOr(b0, 8)) else b0;
    var b2 := if qos > 0 then (BitOrByte(b1, qos * 2 % 256); BitOr(b1, qos * 2 % 256)) else b1;
    var b3 := if retain then (BitOrByte(b2, 1); BitOr(b2, 1)) else b2;
    b3 as byte
  }

  /** The bytes of a whole packet with the given body; an oversized one is never assembled. */
  function Frame(header: byte, body: seq<byte>): seq<byte> {
    var n := EncodeLength(|body|);
    if n.Err? then [] else [header] + n.value + body
  }
}
