/** The packet object of broker/mqtt/mqtt_packet.go: one buffer, a position, and readers and writers
    that move it. */
module PacketObject {
  import opened Base
  import opened Codec
  import opened Transport

  /** The connection seen by the reader goroutine. */
  class ByteReader {
    var segs: Segments

    constructor (segs: Segments)
      ensures this.segs == segs
    {
      this.segs := segs;
    }
  }

  class Packet {
    var command: byte
    var dup: bool
    var qos: nat
    var retain: bool
    var pos: nat
    var toprocess: nat
    var length: nat
    var remainingCount: int
    var remainingMult: nat
    var remainingLength: nat
    var payload: array<byte>  // the array behind the payload slice
    var visible: nat          // the length of that slice; its capacity is the length of the array
    var buf: array<byte>
    var bufLen: nat

    constructor ()
      ensures command == 0 && !dup && qos == 0 && !retain && pos == 0 && toprocess == 0 && length == 0
      ensures remainingCount == 0 && remainingMult == 1 && remainingLength == 0
      ensures payload.Length == 0 && visible == 0 && fresh(payload) && fresh(buf)
    {
      command, dup, qos, retain, pos, toprocess, length := 0, false, 0, false, 0, 0, 0;
      remainingCount, remainingMult, remainingLength := 0, 1, 0;
      payload, buf := new byte[0], new byte[0];
      visible, bufLen := 0, 0;
    }

    // -------------------------------------------------------------- writing

    ghost predicate Writable()
      reads this`length, this`payload, this`pos
    {
      length == payload.Length && pos <= length
    }

    ghost function Written(): seq<byte>
      requires Writable()
      reads this`length, this`payload, this`pos, payload
    {
      payload[..pos]
    }

    /** Allocates the buffer and writes the fixed header; refuses a length of five bytes or more. */
    method InitializePacket() returns (ok: bool)
      modifies this`remainingCount, this`length, this`payload, this`visible, this`pos
      ensures ok <==> EncodeLength(remainingLength).Ok?
      ensures !ok ==> length == old(length) && payload == old(payload) && pos == old(pos)
      ensures ok ==> fresh(payload) && Writable() && length == 1 + |LengthBytes(remainingLength)| + remainingLength
      ensures ok ==> Written() == [HeaderByte(command, dup, qos, retain)] + LengthBytes(remainingLength)
      ensures ok ==> forall i :: pos <= i < length ==> payload[i] == 0
    {
      var bytes, count := EncodeRemaining();
      if count == 5 {
        return false;
      }
      Assemble(bytes, count);
      return true;
    }

    /** The remaining-length loop, cut off after five bytes. */
    method EncodeRemaining() returns (bytes: array<byte>, count: nat)
      modifies this`remainingCount
      ensures fresh(bytes) && bytes.Length == 5 && remainingCount == count <= 5
      ensures count == 5 <==> EncodeLength(remainingLength).Err?
      ensures count < 5 ==> bytes[..count] == LengthBytes(remainingLength)
    {
      bytes := new byte[5];
      var n := remainingLength;
      remainingCount := 0;
      count := 0;
      ghost var out: seq<byte> := [];
      while n > 0 && count < 5
        invariant 0 <= count <= 5 && remainingCount == count == |out|
        invariant bytes[..count] == out
        invariant LengthBytes(remainingLength) == out + LengthBytes(n)
        modifies bytes, this`remainingCount
        decreases n
      {
        LengthBytesStep(n);
        var b := n % 128;
        n := n / 128;
        if n > 0 {
          b := b + 128;
        }
        assert out + ([b as byte] + LengthBytes(n)) == (out + [b as byte]) + LengthBytes(n);
        bytes[count] := b as byte;
        out := out + [b as byte];
        count := count + 1;
        remainingCount := remainingCount + 1;
      }
    }

    method Assemble(bytes: array<byte>, count: nat)
      requires count < 5 == bytes.Length
      modifies this`length, this`payload, this`visible, this`pos
      ensures fresh(payload) && Writable() && length == 1 + count + remainingLength
      ensures Written() == [HeaderByte(command, dup, qos, retain)] + bytes[..count]
      ensures forall i :: pos <= i < length ==> payload[i] == 0
    {
      length := remainingLength + 1 + count;
      var data := new byte[length](_ => 0);
      payload, visible := data, length;
      var header := HeaderByte(command, dup, qos, retain);
      data[0] := header;
      CopyLength(data, bytes, count);
      pos := 1 + count;
      assert data[..pos] == [header] + bytes[..count];
    }

    method CopyLength(data: array<byte>, bytes: array<byte>, count: nat)
      requires data != bytes && count <= bytes.Length && count < data.Length
      modifies data
      ensures data[0] == old(data[0]) && data[1..1 + count] == bytes[..count]
      ensures forall j :: 1 + count <= j < data.Length ==> data[j] == old(data[j])
    {
      var i := 0;
      while i < count
        invariant 0 <= i <= count
        invariant data[0] == old(data[0]) && data[1..1 + i] == bytes[..i]
        invariant forall j :: 1 + i <= j < data.Length ==> data[j] == old(data[j])
      {
        data[i + 1] := bytes[i];
        i := i + 1;
      }
    }

    method WriteByte(b: byte) returns (ok: bool)
      requires Writable()
      modifies this`pos, payload
      ensures Writable()
      ensures ok <==> old(pos) < length
      ensures Written() == if ok then old(Written()) + [b] else old(Written())
    {
      if pos + 1 > length {
        return false;
      }
      payload[pos] := b;
      pos := pos + 1;
      return true;
    }

    method WriteBytes(data: seq<byte>) returns (ok: bool)
      requires Writable()
      modifies this`pos, payload
      ensures Writable()
      ensures ok <==> old(pos) + |data| <= length
      ensures Written() == if ok then old(Written()) + data else old(Written())
    {
      if pos + |data| > length {
        return false;
      }
      var i := 0;
      while i < |data|
        invariant 0 <= i <= |data| && Writable() && pos == old(pos) + i
        invariant payload[..pos] == old(Written()) + data[..i]
      {
        payload[pos] := data[i];
        pos := pos + 1;
        i := i + 1;
      }
      assert data[..i] == data;
      return true;
    }

    /** With a single slot left, the first byte is written all the same. */
    method WriteUint16(v: nat) returns (ok: bool)
      requires Writable() && v < 65536
      modifies this`pos, payload
      ensures Writable()
      ensures ok <==> old(pos) + 2 <= length
      ensures Written() == old(Written()) + WrittenUint16(v)[..Min(2, length - old(pos))]
    {
      var msb := (v / 256 % 16) as byte;
      var lsb := (v % 16) as byte;
      ok := WriteByte(msb);
      if ok {
        ok := WriteByte(lsb);
      }
    }

    /** The length is written even when the string does not fit behind it. */
    method WriteString(s: Text) returns (ok: bool)
      requires Writable()
      modifies this`pos, payload
      ensures Writable()
      ensures ok <==> old(pos) + 2 + |s| <= length
      ensures Written() == old(Written()) +
              if ok then WrittenString(s) else WrittenUint16(|s| % 65536)[..Min(2, length - old(pos))]
    {
      ghost var before, prefix := Written(), WrittenUint16(|s| % 65536);
      ok := WriteUint16(|s| % 65536);
      if ok {
        assert prefix[..2] == prefix;
        ok := WriteBytes(s);
        assert before + prefix + s == before + (prefix + s);
      }
    }

    // -------------------------------------------------------------- reading

    ghost predicate Backed()
      reads this`visible, this`payload
    {
      visible <= payload.Length
    }

    /** The body as the readers find it; DecodeFromReader does not see to it that it is whole. */
    ghost function Body(): Slice
      requires Backed()
      reads this`remainingLength, this`visible, this`payload, payload
    {
      Memory(remainingLength, visible, payload[..])
    }

    method ReadByte() returns (r: Got<byte>)
      requires Backed()
      modifies this`pos
      ensures r == GetByte(Body(), old(pos)) && pos == if r.Got? then old(pos) + 1 else old(pos)
    {
      if pos + 1 > remainingLength {
        return Bad;
      }
      if pos >= visible {
        return Crash;
      }
      r := Got(payload[pos]);
      pos := pos + 1;
    }

    method ReadBytes(count: nat) returns (r: Got<seq<byte>>)
      requires Backed()
      modifies this`pos
      ensures r == GetBytes(Body(), old(pos), count) && pos == if r.Got? then old(pos) + count else old(pos)
    {
      if pos + count > remainingLength {
        return Bad;
      }
      if pos + count > payload.Length {
        return Crash;
      }
      r := Got(payload[pos..pos + count]);
      pos := pos + count;
    }

    method ReadUint16() returns (r: Got<nat>)
      requires Backed()
      modifies this`pos
      ensures r == GetUint16(Body(), old(pos)) && (r.Got? ==> r.value < 65536)
      ensures !r.Crash? ==> pos == if r.Got? then old(pos) + 2 else old(pos)
    {
      if pos + 2 > remainingLength {
        return Bad;
      }
      if pos >= visible {
        return Crash;
      }
      var msb := payload[pos] as nat;
      pos := pos + 1;
      if pos >= visible {
        return Crash;
      }
      var lsb := payload[pos] as nat;
      pos := pos + 1;
      r := Got(msb * 256 + lsb);
    }

    /** A string that does not fit leaves the position behind its length. */
    method ReadString() returns (r: Got<Text>)
      requires Backed()
      modifies this`pos
      ensures r == GetString(Body(), old(pos)) && (!r.Crash? ==> pos == StringEnd(Body(), old(pos)))
    {
      var n := ReadUint16();
      if !n.Got? {
        return Missed(n);
      }
      if pos + n.value > remainingLength {
        return Bad;
      }
      if pos + n.value > payload.Length {
        return Crash;
      }
      r := Got(payload[pos..pos + n.value]);
      pos := pos + n.value;
    }

    // -------------------------------------------------------------- decoding

    /** io.CopyN into this packet: one buffer for all chunks, and every chunk replaces the slice. */
    method CopyFrom(r: ByteReader, n: nat) returns (count: nat)
      requires NonEmpty(r.segs)
      modifies r, this`buf, this`bufLen
      ensures NonEmpty(r.segs)
      ensures count == CopyN(old(r.segs), n).count && r.segs == CopyN(old(r.segs), n).rest
      ensures count > 0 ==>
                && fresh(buf) && bufLen <= buf.Length
                && buf[..bufLen] == CopyN(old(r.segs), n).last
                && buf[..] == Stored(old(r.segs), n, Zeros(Min(n, COPY_BUFFER)))
      ensures count == 0 ==> buf == old(buf) && bufLen == old(bufLen)
    {
      var store := new byte[Min(n, COPY_BUFFER)](_ => 0);
      assert store[..] == Zeros(Min(n, COPY_BUFFER));
      count := CopyInto(r, n, store);
    }

    method CopyInto(r: ByteReader, n: nat, store: array<byte>) returns (count: nat)
      requires NonEmpty(r.segs) && Min(n, COPY_BUFFER) <= store.Length
      modifies r, this`buf, this`bufLen, store
      ensures NonEmpty(r.segs)
      ensures count == CopyN(old(r.segs), n).count && r.segs == CopyN(old(r.segs), n).rest
      ensures count > 0 ==> buf == store && bufLen <= store.Length && store[..bufLen] == CopyN(old(r.segs), n).last
      ensures count == 0 ==> buf == old(buf) && bufLen == old(bufLen)
      ensures store[..] == Stored(old(r.segs), n, old(store[..]))
      decreases n
    {
      if n == 0 || r.segs == [] {
        return 0;
      }
      var chunk := Chunk(r.segs, Min(n, COPY_BUFFER));
      SkipNonEmpty(r.segs, |chunk|);
      Overwrite(store, chunk);
      buf, bufLen := store, |chunk|;
      r.segs := Skip(r.segs, |chunk|);
      var more := CopyInto(r, n - |chunk|, store);
      count := |chunk| + more;
    }

    method Overwrite(store: array<byte>, chunk: seq<byte>)
      requires |chunk| <= store.Length
      modifies store
      ensures store[..] == Overlay(old(store[..]), chunk)
      ensures store[..|chunk|] == chunk
    {
      var i := 0;
      while i < |chunk|
        invariant 0 <= i <= |chunk|
        invariant store[..i] == chunk[..i]
        invariant store[i..] == old(store[i..])
      {
        store[i] := chunk[i];
        i := i + 1;
      }
      assert chunk[..i] == chunk;
    }

    /** Reads one packet from the connection into a new packet object. */
    method DecodeFromReader(r: ByteReader) returns (ok: bool)
      requires NonEmpty(r.segs)
      requires command == 0 && remainingCount == 0 && remainingMult == 1 && remainingLength == 0
      requires toprocess == 0 && payload.Length == 0 && visible == 0
      modifies r, this
      ensures NonEmpty(r.segs)
      ensures ok <==> DecodePacket(old(r.segs)).Ok?
      ensures ok ==>
                var a := DecodePacket(old(r.segs)).value;
                command == a.command && r.segs == a.rest && Backed() && Body() == a.body && pos == 0
    {
      ghost var start := r.segs;
      CopyNTakes(start, 1);
      var got := CopyFrom(r, 1);
      if got != 1 {
        return false;
      }
      command := buf[0];
      ok := DecodeRemaining(r);
      if !ok {
        return;
      }
      ok := DecodeBody(r);
      if ok {
        pos := 0;
      }
    }

    /** The payload, whose buffer is whatever chunk was written last. */
    method DecodeBody(r: ByteReader) returns (ok: bool)
      requires NonEmpty(r.segs) && toprocess == 0 && payload.Length == 0 && visible == 0
      modifies r, this
      ensures NonEmpty(r.segs)
      ensures ok <==> CopyN(old(r.segs), old(remainingLength)).count == old(remainingLength)
      ensures ok ==>
                && command == old(command) && remainingLength == old(remainingLength)
                && r.segs == CopyN(old(r.segs), remainingLength).rest
                && Backed() && Body() == Kept(old(r.segs), remainingLength)
    {
      if remainingLength > 0 {
        toprocess := remainingLength;
        payload, visible := new byte[0], 0;
      }
      if toprocess > 0 {
        CopyNTakes(r.segs, toprocess);
        var got := CopyFrom(r, toprocess);
        if got != toprocess {
          Clear();
          return false;
        }
        payload, visible := buf, bufLen;
      }
      return true;
    }

    /** The remaining-length loop. */
    method DecodeRemaining(r: ByteReader) returns (ok: bool)
      requires NonEmpty(r.segs)
      requires remainingCount == 0 && remainingMult == 1 && remainingLength == 0
      modifies r, this`buf, this`bufLen, this`remainingCount, this`remainingMult, this`remainingLength
      ensures NonEmpty(r.segs)
      ensures ok <==> ReadLength(old(r.segs), 4).Ok?
      ensures ok ==> ReadLength(old(r.segs), 4) == Ok(LengthRead(remainingLength, r.segs))
    {
      ghost var whole := ReadLength(r.segs, 4);
      var more := true;
      ok := true;
      while more
        invariant NonEmpty(r.segs)
        invariant more ==> -4 <= remainingCount <= 0 && ok
        invariant more ==> Continues(whole, r.segs, (4 + remainingCount) as nat, remainingLength, remainingMult)
        invariant !more ==> (ok <==> whole.Ok?) && (ok ==> whole == Ok(LengthRead(remainingLength, r.segs)))
        decreases more, 5 + remainingCount
      {
        ok, more := ReadLengthByte(r, whole);
      }
      remainingCount := -remainingCount;
    }

    /** One round of the loop: read a byte, refuse a fifth one, add its seven bits. */
    method ReadLengthByte(r: ByteReader, ghost whole: Result<LengthRead>) returns (ok: bool, more: bool)
      requires NonEmpty(r.segs) && -4 <= remainingCount <= 0
      requires Continues(whole, r.segs, (4 + remainingCount) as nat, remainingLength, remainingMult)
      modifies r, this`buf, this`bufLen, this`remainingCount, this`remainingMult, this`remainingLength
      ensures NonEmpty(r.segs)
      ensures more ==> ok && remainingCount == old(remainingCount) - 1 && -4 <= remainingCount
      ensures more ==> Continues(whole, r.segs, (4 + remainingCount) as nat, remainingLength, remainingMult)
      ensures !more ==> (ok <==> whole.Ok?) && (ok ==> whole == Ok(LengthRead(remainingLength, r.segs)))
    {
      ContinuesStep(whole, r.segs, (4 + remainingCount) as nat, remainingLength, remainingMult);
      var got := CopyFrom(r, 1);
      if got != 1 {
        return false, false;
      }
      remainingCount := remainingCount - 1;
      if remainingCount < -4 {
        return false, false;
      }
      var b := buf[0] as nat;
      var digit := if b < 128 then b else b - 128;
      remainingLength := Plus(remainingLength, digit, remainingMult);
      remainingMult := remainingMult * 128;
      return true, b >= 128;
    }

    method Clear()
      modifies this
    {
      command, dup, qos, retain, pos, toprocess, length := 0, false, 0, false, 0, 0, 0;
      remainingCount, remainingMult, remainingLength := 0, 1, 0;
      payload, buf := new byte[0], new byte[0];
      visible, bufLen := 0, 0;
    }
  }

  /** The loop state: the whole length is what has been summed up plus what is still to be read. */
  ghost predicate Continues(whole: Result<LengthRead>, segs: Segments, budget: nat, value: nat, mult: nat)
    requires NonEmpty(segs)
  {
    var part := ReadLength(segs, budget);
    && (whole.Ok? <==> part.Ok?)
    && (whole.Ok? ==> whole.value == LengthRead(value + mult * part.value.value, part.value.rest))
  }

  lemma ContinuesStep(whole: Result<LengthRead>, segs: Segments, budget: nat, value: nat, mult: nat)
    requires NonEmpty(segs) && Continues(whole, segs, budget, value, mult)
    ensures var c := CopyN(segs, 1);
            && NonEmpty(c.rest)
            && (c.count == 1 <==> segs != []) && (c.count == 1 ==> |c.last| == 1)
            && (c.count != 1 || budget == 0 ==> whole.Err?)
            && (c.count == 1 && budget > 0 ==>
                  var b := c.last[0] as nat;
                  && (b < 128 ==> whole == Ok(LengthRead(Plus(value, b, mult), c.rest)))
                  && (b >= 128 ==> Continues(whole, c.rest, budget - 1, Plus(value, b - 128, mult), mult * 128)))
  {
    CopyNTakes(segs, 1);
    SkipNonEmpty(segs, 1);
    var c := CopyN(segs, 1);
    if c.count == 1 && budget > 0 && c.last[0] >= 128 {
      var r := ReadLength(c.rest, budget - 1);
      if r.Ok? {
        Accumulate(value, mult, c.last[0] as nat - 128, r.value.value);
      }
    }
  }

  function Plus(value: nat, digit: nat, mult: nat): nat { value + digit * mult }

  lemma Accumulate(value: nat, mult: nat, digit: nat, rest: nat)
    ensures value + mult * (digit + 128 * rest) == value + digit * mult + mult * 128 * rest
  {
  }
}
