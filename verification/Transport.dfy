/** How a packet arrives. The connection hands over bytes in segments; io.CopyN passes every chunk it
    reads to the packet's Write, which keeps only the latest one (broker/mqtt/mqtt_packet.go:187-190). */
module Transport {
  import opened Base
  import opened Codec

  type Segments = seq<seq<byte>>

  const COPY_BUFFER: nat := 32768  // io.Copy reads at most this much at a time

  predicate NonEmpty(segs: Segments) { forall i :: 0 <= i < |segs| ==> segs[i] != [] }

  function Flatten(segs: Segments): seq<byte> { if segs == [] then [] else segs[0] + Flatten(segs[1..]) }

  /** What is left after `k` bytes have been read. */
  function Skip(segs: Segments, k: nat): Segments {
    if k == 0 || segs == [] then segs
    else if k >= |segs[0]| then Skip(segs[1..], k - |segs[0]|)
    else [segs[0][k..]] + segs[1..]
  }

  /** One Read: at most `max` bytes, never across a segment. */
  function Chunk(segs: Segments, max: nat): seq<byte>
    requires segs != []
  {
    segs[0][..Min(max, |segs[0]|)]
  }

  datatype Copied = Copied(count: nat, last: seq<byte>, rest: Segments)

  function CopyN(segs: Segments, n: nat): Copied
    requires NonEmpty(segs)
    decreases n
  {
    if n == 0 || segs == [] then Copied(0, [], segs)
    else
      var chunk := Chunk(segs, Min(n, COPY_BUFFER));
      SkipNonEmpty(segs, |chunk|);
      var r := CopyN(Skip(segs, |chunk|), n - |chunk|);
      Copied(|chunk| + r.count, if r.count == 0 then chunk else r.last, r.rest)
  }

  function Zeros(n: nat): seq<byte> { seq(n, i => 0) }

  /** The buffer of io.Copy after another chunk has been read into it. */
  function Overlay(store: seq<byte>, chunk: seq<byte>): seq<byte> {
    if |chunk| <= |store| then chunk + store[|chunk|..] else chunk
  }

  /** The buffer of io.Copy at the end: later chunks lie over earlier ones. */
  function Stored(segs: Segments, n: nat, store: seq<byte>): seq<byte>
    requires NonEmpty(segs)
    decreases n
  {
    if n == 0 || segs == [] then store
    else
      var chunk := Chunk(segs, Min(n, COPY_BUFFER));
      SkipNonEmpty(segs, |chunk|);
      Stored(Skip(segs, |chunk|), n - |chunk|, Overlay(store, chunk))
  }

  /** The last chunk lies at the front of the buffer. */
  lemma {:induction false} StoredLast(segs: Segments, n: nat, store: seq<byte>)
    requires NonEmpty(segs) && Min(n, COPY_BUFFER) <= |store|
    ensures |Stored(segs, n, store)| == |store| && |CopyN(segs, n).last| <= |store|
    ensures CopyN(segs, n).last <= Stored(segs, n, store)
    decreases n
  {
    if n > 0 && segs != [] {
      var chunk := Chunk(segs, Min(n, COPY_BUFFER));
      SkipNonEmpty(segs, |chunk|);
      StoredLast(Skip(segs, |chunk|), n - |chunk|, Overlay(store, chunk));
      if CopyN(Skip(segs, |chunk|), n - |chunk|).count == 0 {
        NothingStored(Skip(segs, |chunk|), n - |chunk|, Overlay(store, chunk));
      }
    }
  }

  lemma NothingStored(segs: Segments, n: nat, store: seq<byte>)
    requires NonEmpty(segs) && CopyN(segs, n).count == 0
    ensures Stored(segs, n, store) == store
  {
  }

  /** The slice that CopyN leaves in the packet: the buffer, as long as the last chunk. */
  function Kept(segs: Segments, n: nat): Slice
    requires NonEmpty(segs)
  {
    var store := Zeros(Min(n, COPY_BUFFER));
    StoredLast(segs, n, store);
    Memory(n, |CopyN(segs, n).last|, Stored(segs, n, store))
  }

  /** A body that comes in two chunks: behind the second chunk the reader finds what it left of the
      first, and zeros at the end. */
  lemma TwoChunks(a: seq<byte>, b: seq<byte>, rest: Segments)
    requires a != [] && b != [] && NonEmpty(rest) && |a| + |b| <= COPY_BUFFER
    ensures NonEmpty([a] + [b] + rest)
    ensures CopyN([a] + [b] + rest, |a| + |b|).last == b
    ensures Stored([a] + [b] + rest, |a| + |b|, Zeros(|a| + |b|)) ==
            b + (if |b| < |a| then a[|b|..] + Zeros(|b|) else Zeros(|a|))
  {
    var segs, n := [a] + [b] + rest, |a| + |b|;
    var one := Overlay(Zeros(n), a);
    assert segs[1..] == [b] + rest;
    assert Chunk(segs, n) == a && Skip(segs, |a|) == [b] + rest;
    LastChunk(b, rest, one);
    assert one == a + Zeros(|b|);
    assert Overlay(one, b) == b + (if |b| < |a| then a[|b|..] + Zeros(|b|) else Zeros(|a|));
  }

  lemma LastChunk(b: seq<byte>, rest: Segments, store: seq<byte>)
    requires b != [] && NonEmpty(rest) && |b| <= COPY_BUFFER
    ensures NonEmpty([b] + rest)
    ensures CopyN([b] + rest, |b|).count == |b| && CopyN([b] + rest, |b|).last == b
    ensures Stored([b] + rest, |b|, store) == Overlay(store, b)
  {
    assert ([b] + rest)[1..] == rest;
    assert Chunk([b] + rest, |b|) == b && Skip([b] + rest, |b|) == rest;
    assert CopyN(rest, 0).count == 0 && Stored(rest, 0, Overlay(store, b)) == Overlay(store, b);
  }

  lemma TwoChunksKept(a: seq<byte>, b: seq<byte>, rest: Segments)
    requires a != [] && b != [] && NonEmpty(rest) && |a| + |b| <= COPY_BUFFER
    ensures NonEmpty([a] + [b] + rest)
    ensures Kept([a] + [b] + rest, |a| + |b|).promised == |a| + |b| && Kept([a] + [b] + rest, |a| + |b|).visible == |b|
  {
    TwoChunks(a, b, rest);
  }

  lemma {:induction false} SkipNonEmpty(segs: Segments, k: nat)
    requires NonEmpty(segs)
    ensures NonEmpty(Skip(segs, k))
    decreases |segs|
  {
    if k > 0 && segs != [] && k >= |segs[0]| {
      SkipNonEmpty(segs[1..], k - |segs[0]|);
    }
  }

  lemma {:induction false} SkipFlat(segs: Segments, k: nat)
    ensures Flatten(Skip(segs, k)) == Flatten(segs)[Min(k, |Flatten(segs)|)..]
    decreases |segs|
  {
    if k > 0 && segs != [] {
      if k >= |segs[0]| {
        SkipFlat(segs[1..], k - |segs[0]|);
      } else {
        assert ([segs[0][k..]] + segs[1..])[1..] == segs[1..];
      }
    }
  }

  lemma {:induction false} SkipSkip(segs: Segments, j: nat, k: nat)
    requires NonEmpty(segs)
    ensures Skip(Skip(segs, j), k) == Skip(segs, j + k)
    decreases |segs|
  {
    if j > 0 && segs != [] {
      if j >= |segs[0]| {
        SkipSkip(segs[1..], j - |segs[0]|, k);
      } else {
        var s := [segs[0][j..]] + segs[1..];
        assert s[1..] == segs[1..];
        if 0 < k < |s[0]| { assert s[0][k..] == segs[0][j + k..]; }
      }
    }
  }

  /** What CopyN has done with the first `n` bytes of the stream, or with all there are. */
  ghost predicate Took(segs: Segments, n: nat, r: Copied) {
    && r.count == Min(n, |Flatten(segs)|)
    && r.rest == Skip(segs, r.count)
    && |r.last| <= r.count && (r.count > 0 ==> r.last != [])
  }

  lemma TookMore(segs: Segments, n: nat, chunk: seq<byte>, r: Copied)
    requires NonEmpty(segs) && segs != [] && n > 0 && chunk == Chunk(segs, Min(n, COPY_BUFFER))
    requires Took(Skip(segs, |chunk|), n - |chunk|, r)
    ensures Took(segs, n, Copied(|chunk| + r.count, if r.count == 0 then chunk else r.last, r.rest))
  {
    assert |Flatten(Skip(segs, |chunk|))| == |Flatten(segs)| - |chunk| by {
      SkipFlat(segs, |chunk|);
    }
    SkipSkip(segs, |chunk|, r.count);
  }

  /** CopyN takes the first `n` bytes of the stream, if there are as many. */
  lemma {:induction false} CopyNTakes(segs: Segments, n: nat)
    requires NonEmpty(segs)
    ensures Took(segs, n, CopyN(segs, n))
    decreases n
  {
    if n > 0 && segs != [] {
      var chunk := Chunk(segs, Min(n, COPY_BUFFER));
      SkipNonEmpty(segs, |chunk|);
      CopyNTakes(Skip(segs, |chunk|), n - |chunk|);
      TookMore(segs, n, chunk, CopyN(Skip(segs, |chunk|), n - |chunk|));
    }
  }

  /** A single byte is always kept. */
  lemma CopyOne(segs: Segments)
    requires NonEmpty(segs) && Flatten(segs) != []
    ensures CopyN(segs, 1).count == 1 && CopyN(segs, 1).last == [Flatten(segs)[0]] && CopyN(segs, 1).rest == Skip(segs, 1)
  {
    CopyNTakes(segs, 1);
    assert Chunk(segs, 1) == [Flatten(segs)[0]];
  }

  /** The kept chunk is the whole only if it came in one read. */
  lemma CopyNWholeIff(segs: Segments, n: nat)
    requires NonEmpty(segs) && 0 < n <= |Flatten(segs)|
    ensures CopyN(segs, n).last == Flatten(segs)[..n] <==> n <= COPY_BUFFER && n <= |segs[0]|
    ensures !(n <= COPY_BUFFER && n <= |segs[0]|) ==> |CopyN(segs, n).last| < n
  {
    CopyNTakes(segs, n);
    var chunk := Chunk(segs, Min(n, COPY_BUFFER));
    assert chunk == Flatten(segs)[..|chunk|];
    SkipNonEmpty(segs, |chunk|);
    SkipFlat(segs, |chunk|);
    CopyNTakes(Skip(segs, |chunk|), n - |chunk|);
  }

  // ---------------------------------------------------------------- a whole packet

  datatype Arrived = Arrived(command: byte, body: Slice, rest: Segments)

  datatype LengthRead = LengthRead(value: nat, rest: Segments)

  /** The length loop, one CopyN of a single byte at a time. */
  function ReadLength(segs: Segments, budget: nat): Result<LengthRead>
    requires NonEmpty(segs)
    decreases budget
  {
    var c := CopyN(segs, 1);
    if c.count != 1 || budget == 0 then Err
    else
      CopyNTakes(segs, 1);
      SkipNonEmpty(segs, 1);
      if c.last[0] < 128 then Ok(LengthRead(c.last[0] as nat, c.rest))
      else
        var r := ReadLength(c.rest, budget - 1);
        if r.Err? then Err else Ok(LengthRead(c.last[0] as nat - 128 + 128 * r.value.value, r.value.rest))
  }

  lemma {:induction false} ReadLengthDecodes(segs: Segments, budget: nat)
    requires NonEmpty(segs)
    ensures var r, d := ReadLength(segs, budget), DecodeLength(Flatten(segs), budget);
            && (r.Ok? <==> d.Ok?)
            && (r.Ok? ==> r.value.value == d.value.value && r.value.rest == Skip(segs, d.value.consumed) && NonEmpty(r.value.rest))
    decreases budget
  {
    CopyNTakes(segs, 1);
    SkipNonEmpty(segs, 1);
    if CopyN(segs, 1).count == 1 && budget > 0 {
      CopyOne(segs);
      SkipFlat(segs, 1);
      if Flatten(segs)[0] >= 128 {
        ReadLengthDecodes(Skip(segs, 1), budget - 1);
        var d := DecodeLength(Flatten(segs)[1..], budget - 1);
        if d.Ok? { SkipSkip(segs, 1, d.value.consumed); }
      }
    }
  }

  /** DecodeFromReader on a new packet. */
  function DecodePacket(segs: Segments): Result<Arrived>
    requires NonEmpty(segs)
  {
    var c := CopyN(segs, 1);
    if c.count != 1 then Err
    else
      CopyNTakes(segs, 1);
      SkipNonEmpty(segs, 1);
      var l := ReadLength(c.rest, 4);
      if l.Err? then Err
      else
        ReadLengthDecodes(c.rest, 4);
        var b := CopyN(l.value.rest, l.value.value);
        if b.count != l.value.value then Err
        else Ok(Arrived(c.last[0], Kept(l.value.rest, l.value.value), b.rest))
  }

  /** How long the fixed header is in front of a body of `n` bytes. */
  function Prefix(n: nat): nat { 1 + |LengthBytes(n)| }

  /** The next `n` bytes are within one segment and one copy buffer. */
  predicate OneChunk(segs: Segments, n: nat) {
    n <= COPY_BUFFER && segs != [] && n <= |segs[0]|
  }

  /** A framed packet is always recognised, with its command and length, and exactly its bytes are
      consumed; its body is whole if and only if it came in one chunk, and too short otherwise. */
  lemma FrameArrives(segs: Segments, header: byte, body: seq<byte>, more: seq<byte>, k: nat)
    returns (got: Slice, after: Segments)
    requires NonEmpty(segs) && 0 < |body| <= MAX_REMAINING && k == Prefix(|body|)
    requires Flatten(segs) == Frame(header, body) + more
    ensures DecodePacket(segs) == Ok(Arrived(header, got, after)) && after == Skip(segs, k + |body|)
    ensures got.promised == |body| && (got == Whole(body) <==> OneChunk(Skip(segs, k), |body|))
    ensures got != Whole(body) ==> got.visible < |body|
  {
    FrameOpens(segs, header, body, more);
    got, after := DecodedFrom(segs, header, Skip(segs, k), k, body, more);
  }

  /** A frame whose body comes in one chunk is received whole, and what follows it is still to be read. */
  lemma FrameDelivered(segs: Segments, header: byte, body: seq<byte>, more: seq<byte>, k: nat)
    requires NonEmpty(segs) && 0 < |body| <= MAX_REMAINING && k == Prefix(|body|)
    requires Flatten(segs) == Frame(header, body) + more && OneChunk(Skip(segs, k), |body|)
    ensures var r := DecodePacket(segs);
            r.Ok? && r.value.command == header && r.value.body == Whole(body) && Flatten(r.value.rest) == more
  {
    var got, after := FrameArrives(segs, header, body, more, k);
    FrameRest(segs, header, body, more, k);
  }

  lemma FrameLength(header: byte, body: seq<byte>)
    requires |body| <= MAX_REMAINING
    ensures |Frame(header, body)| == Prefix(|body|) + |body|
  {
    EncodeRefuses(|body|);
  }

  /** Exactly the bytes of the packet have been taken from the stream. */
  lemma FrameRest(segs: Segments, header: byte, body: seq<byte>, more: seq<byte>, k: nat)
    requires |body| <= MAX_REMAINING && k == Prefix(|body|) && Flatten(segs) == Frame(header, body) + more
    ensures Flatten(Skip(segs, k + |body|)) == more
  {
    FrameLength(header, body);
    SkipFlat(segs, |Frame(header, body)|);
  }

  /** The stream starts with this command and this remaining length, and `rest` is what follows them. */
  ghost predicate Opens(segs: Segments, header: byte, n: nat, rest: Segments)
    requires NonEmpty(segs)
  {
    var c := CopyN(segs, 1);
    c.count == 1 && c.last == [header] && NonEmpty(c.rest) && ReadLength(c.rest, 4) == Ok(LengthRead(n, rest))
  }

  lemma FrameOpens(segs: Segments, header: byte, body: seq<byte>, more: seq<byte>)
    requires NonEmpty(segs) && 0 < |body| <= MAX_REMAINING
    requires Flatten(segs) == Frame(header, body) + more
    ensures var rest := Skip(segs, Prefix(|body|));
            Opens(segs, header, |body|, rest) && NonEmpty(rest) && Flatten(rest) == body + more
  {
    FrameSplit(header, body, more);
    HeaderArrives(segs, header, |body|, body + more);
  }

  /** Once the header has been read, the body decides. */
  lemma DecodedFrom(segs: Segments, header: byte, rest: Segments, k: nat, body: seq<byte>, more: seq<byte>)
    returns (got: Slice, after: Segments)
    requires NonEmpty(segs) && rest == Skip(segs, k) && NonEmpty(rest) && body != [] && Flatten(rest) == body + more
    requires Opens(segs, header, |body|, rest)
    ensures DecodePacket(segs) == Ok(Arrived(header, got, after)) && after == Skip(segs, k + |body|)
    ensures got.promised == |body| && (got == Whole(body) <==> OneChunk(rest, |body|))
    ensures got != Whole(body) ==> got.visible < |body|
  {
    var last;
    got, last, after := BodyTaken(segs, k, rest, body, more);
    DecodePacketUnfolds(segs, header, |body|, rest, got, last, after);
  }

  lemma FrameSplit(header: byte, body: seq<byte>, more: seq<byte>)
    requires |body| <= MAX_REMAINING
    ensures Frame(header, body) + more == [header] + LengthBytes(|body|) + (body + more)
  {
    EncodeRefuses(|body|);
  }

  lemma BodyTaken(segs: Segments, k: nat, rest: Segments, body: seq<byte>, more: seq<byte>)
    returns (got: Slice, last: seq<byte>, after: Segments)
    requires NonEmpty(segs) && rest == Skip(segs, k) && NonEmpty(rest) && body != [] && Flatten(rest) == body + more
    ensures CopyN(rest, |body|) == Copied(|body|, last, after) && after == Skip(segs, k + |body|)
    ensures got == Kept(rest, |body|) && got.promised == |body| && got.visible == |last|
    ensures (got == Whole(body) <==> OneChunk(rest, |body|)) && (got != Whole(body) ==> got.visible < |body|)
  {
    BodyArrives(rest, body, more);
    SkipSkip(segs, k, |body|);
    got, last, after := Kept(rest, |body|), CopyN(rest, |body|).last, Skip(segs, k + |body|);
    if OneChunk(rest, |body|) { OneChunkKept(rest, body, more); }
  }

  lemma BodyArrives(rest: Segments, body: seq<byte>, more: seq<byte>)
    requires NonEmpty(rest) && body != [] && Flatten(rest) == body + more
    ensures var b := CopyN(rest, |body|);
            && b.count == |body| && b.rest == Skip(rest, |body|)
            && (b.last == body <==> OneChunk(rest, |body|))
            && (b.last != body ==> |b.last| < |body|)
  {
    CopyNTakes(rest, |body|);
    CopyNWholeIff(rest, |body|);
    assert (body + more)[..|body|] == body;
  }

  lemma OneChunkKept(rest: Segments, body: seq<byte>, more: seq<byte>)
    requires NonEmpty(rest) && body != [] && Flatten(rest) == body + more && OneChunk(rest, |body|)
    ensures Kept(rest, |body|) == Whole(body)
  {
    BodyArrives(rest, body, more);
    StoredLast(rest, |body|, Zeros(|body|));
  }

  lemma DecodePacketUnfolds(segs: Segments, header: byte, n: nat, rest: Segments, got: Slice, last: seq<byte>, after: Segments)
    requires NonEmpty(segs) && NonEmpty(rest)
    requires Opens(segs, header, n, rest) && CopyN(rest, n) == Copied(n, last, after) && got == Kept(rest, n)
    ensures DecodePacket(segs) == Ok(Arrived(header, got, after))
  {
  }

  lemma HeaderArrives(segs: Segments, header: byte, n: nat, tail: seq<byte>)
    requires NonEmpty(segs) && 0 < n <= MAX_REMAINING
    requires Flatten(segs) == [header] + LengthBytes(n) + tail
    ensures var rest := Skip(segs, Prefix(n));
            Opens(segs, header, n, rest) && NonEmpty(rest) && Flatten(rest) == tail
  {
    var l := LengthBytes(n);
    CopyOne(segs);
    SkipNonEmpty(segs, 1);
    assert Flatten(Skip(segs, 1)) == l + tail by {
      SkipFlat(segs, 1);
    }
    LengthArrives(Skip(segs, 1), n, tail);
    SkipSkip(segs, 1, |l|);
  }

  lemma LengthArrives(segs: Segments, n: nat, tail: seq<byte>)
    requires NonEmpty(segs) && 0 < n <= MAX_REMAINING && Flatten(segs) == LengthBytes(n) + tail
    ensures var rest := Skip(segs, |LengthBytes(n)|);
            ReadLength(segs, 4) == Ok(LengthRead(n, rest)) && NonEmpty(rest) && Flatten(rest) == tail
  {
    EncodeRefuses(n);
    DecodeLengthBytes(n, tail, 4);
    ReadLengthDecodes(segs, 4);
    SkipFlat(segs, |LengthBytes(n)|);
    SkipNonEmpty(segs, |LengthBytes(n)|);
  }
}
