/** The packets the session builds and parses, as functions: PUBLISH (section 3.3 of MQTT Version
    3.1.1), PUBACK (3.4), SUBSCRIBE (3.8), SUBACK (3.9) and UNSUBSCRIBE (3.10). */
module Packets {
  import opened Base
  import opened Codec
  import opened Transport

  const PUBLISH: byte := 0x30
  const PUBACK: byte := 0x40
  const SUBACK: byte := 0x90

  // ---------------------------------------------------------------- PUBLISH

  datatype Publish = Publish(topic: Text, dup: bool, qos: nat, retain: bool, pid: nat, payload: seq<byte>)

  function PublishBody(msg: Message, pid: nat): seq<byte> {
    WrittenString(msg.topic) + (if msg.qos > 0 then WrittenUint16(pid) else []) + msg.payload
  }

  /** What sendPublish writes; the retain flag of the message is not passed on. */
  function PublishFrame(msg: Message, pid: nat): seq<byte> {
    Frame(HeaderByte(PUBLISH, msg.dup, msg.qos, false), PublishBody(msg, pid))
  }

  /** The rest of the body, unless it is longer than `limit`. */
  function GetRest(body: Slice, pos: nat, limit: nat): Got<seq<byte>> {
    if pos >= body.promised then Got([])
    else if body.promised - pos > limit then Bad
    else GetBytes(body, pos, body.promised - pos)
  }

  /** The identifier that is read behind the topic. */
  function ReadId(qos: nat, topic: Text, body: Slice): Got<nat> {
    if qos > 0 then GetUint16(body, 2 + |topic|) else Got(0)
  }

  function PayloadStart(qos: nat, topic: Text): nat { if qos > 0 then 4 + |topic| else 2 + |topic| }

  /** What handlePublish reads from a packet; `limit` is the configured payload size. */
  function ParsePublish(command: byte, body: Slice, limit: nat): Got<Publish> {
    var c := command as nat;
    var qos := c / 2 % 4;
    var topic := GetString(body, 0);
    if qos > 2 then Bad
    else if !topic.Got? then Missed(topic)
    else
      var pid := ReadId(qos, topic.value, body);
      if !pid.Got? then Missed(pid)
      else
        var payload := GetRest(body, PayloadStart(qos, topic.value), limit);
        if !payload.Got? then Missed(payload)
        else Got(Publish(topic.value, c / 8 % 2 == 1, qos, c % 2 == 1, pid.value, payload.value))
  }

  lemma PublishHeader(dup: bool, qos: nat)
    requires qos <= 2
    ensures HeaderByte(PUBLISH, dup, qos, false) as nat == 48 + (if dup then 8 else 0) + 2 * qos
  {
    BitOrWithFlags();
    assert qos == 0 || qos == 1 || qos == 2;
    if qos > 0 { assert qos * 2 % 256 == 2 * qos; }
  }

  lemma BitOrWithFlags()
    ensures BitOr(48, 8) == 56 && BitOr(56, 2) == 58 && BitOr(56, 4) == 60
    ensures BitOr(48, 2) == 50 && BitOr(48, 4) == 52
  {
    assert BitOr(6, 1) == 7;
    assert BitOr(12, 2) == 14;
    assert BitOr(24, 4) == 28;
    assert BitOr(14, 1) == 15;
    assert BitOr(28, 2) == 30;
    assert BitOr(28, 1) == 29;
    assert BitOr(12, 1) == 13;
    assert BitOr(24, 2) == 26;
    assert BitOr(24, 1) == 25;
  }

  lemma PublishHeaderFields(dup: bool, qos: nat)
    requires qos <= 2
    ensures var c := HeaderByte(PUBLISH, dup, qos, false) as nat;
            c / 2 % 4 == qos && (c / 8 % 2 == 1 <==> dup) && c % 2 == 0
  {
    PublishHeader(dup, qos);
    FlagFields(HeaderByte(PUBLISH, dup, qos, false) as nat, dup, qos);
  }

  lemma FlagFields(c: nat, dup: bool, qos: nat)
    requires qos <= 2 && c == 48 + (if dup then 8 else 0) + 2 * qos
    ensures c / 2 % 4 == qos && (c / 8 % 2 == 1 <==> dup) && c % 2 == 0
  {
  }

  /** The frame in bytes: type and flags, the length, the topic behind its masked length, the masked identifier
      above QoS 0, and the payload. */
  lemma PublishBytes(msg: Message, pid: nat)
    requires msg.qos <= 2 && |PublishBody(msg, pid)| <= MAX_REMAINING
    ensures var n := |msg.topic| % 65536;
            && PublishFrame(msg, pid) ==
                 [(0x30 + (if msg.dup then 8 else 0) + 2 * msg.qos) as byte] + LengthBytes(|PublishBody(msg, pid)|) +
                 PublishBody(msg, pid)
            && PublishBody(msg, pid) ==
                 [(n / 256 % 16) as byte, (n % 16) as byte] + msg.topic +
                 (if msg.qos > 0 then [(pid / 256 % 16) as byte, (pid % 16) as byte] else []) + msg.payload
  {
    PublishHeader(msg.dup, msg.qos);
    EncodeRefuses(|PublishBody(msg, pid)|);
  }

  /** The fields a receiver should see. */
  function Expected(msg: Message, pid: nat): Publish {
    Publish(msg.topic, msg.dup, msg.qos, false, if msg.qos > 0 then pid else 0, msg.payload)
  }

  /** The writer's masks leave this packet intact. */
  predicate Survives(msg: Message, pid: nat) { Clean(|msg.topic|) && (msg.qos > 0 ==> Clean(pid)) }

  /** PUBLISH round trip: every field is recovered if and only if the topic length and, for QoS above 0,
      the packet identifier have no bits that writeUint16 drops. */
  lemma PublishRoundTrip(msg: Message, pid: nat, limit: nat)
    requires msg.qos <= 2 && pid < 65536 && |msg.payload| <= limit
    ensures var command, body := HeaderByte(PUBLISH, msg.dup, msg.qos, false), Whole(PublishBody(msg, pid));
            ParsePublish(command, body, limit) == Got(Expected(msg, pid)) <==> Survives(msg, pid)
  {
    PublishHeaderFields(msg.dup, msg.qos);
    PublishTopic(msg, pid);
    if Clean(|msg.topic|) {
      PublishTail(msg, pid, limit);
      ParsedFrom(HeaderByte(PUBLISH, msg.dup, msg.qos, false), msg, Whole(PublishBody(msg, pid)), limit);
    }
  }

  lemma ParsedFrom(command: byte, msg: Message, body: Slice, limit: nat)
    requires var c := command as nat; c / 2 % 4 == msg.qos <= 2 && (c / 8 % 2 == 1 <==> msg.dup) && c % 2 == 0
    requires GetString(body, 0) == Got(msg.topic) && ReadId(msg.qos, msg.topic, body).Got?
    requires GetRest(body, PayloadStart(msg.qos, msg.topic), limit) == Got(msg.payload)
    ensures ParsePublish(command, body, limit) ==
            Got(Publish(msg.topic, msg.dup, msg.qos, false, ReadId(msg.qos, msg.topic, body).value, msg.payload))
  {
  }

  lemma PublishTopic(msg: Message, pid: nat)
    ensures GetString(Whole(PublishBody(msg, pid)), 0) == Got(msg.topic) <==> Clean(|msg.topic|)
  {
    var tail := (if msg.qos > 0 then WrittenUint16(pid) else []) + msg.payload;
    StringRoundTrip(msg.topic, [], tail);
    assert PublishBody(msg, pid) == [] + WrittenString(msg.topic) + tail;
  }

  lemma PublishTail(msg: Message, pid: nat, limit: nat)
    requires pid < 65536 && |msg.payload| <= limit
    ensures var id := ReadId(msg.qos, msg.topic, Whole(PublishBody(msg, pid)));
            id.Got? && (msg.qos > 0 ==> (id.value == pid <==> Clean(pid)))
    ensures GetRest(Whole(PublishBody(msg, pid)), PayloadStart(msg.qos, msg.topic), limit) == Got(msg.payload)
  {
    var written := WrittenString(msg.topic);
    if msg.qos > 0 {
      Uint16RoundTrip(pid, written, msg.payload);
    }
    RestAt(PublishBody(msg, pid), PayloadStart(msg.qos, msg.topic), msg.payload, limit);
  }

  lemma RestAt(body: seq<byte>, pos: nat, after: seq<byte>, limit: nat)
    requires pos <= |body| && body[pos..] == after && |after| <= limit
    ensures GetRest(Whole(body), pos, limit) == Got(after)
  {
    assert body[pos..pos + |after|] == after;
  }

  /** From the sender's buffer over the connection to the parsed packet: a PUBLISH that survives the
      masks and arrives in one chunk is received field by field, whatever follows it. */
  lemma PublishDelivered(msg: Message, pid: nat, limit: nat, segs: Segments, more: seq<byte>, k: nat)
    requires msg.qos <= 2 && pid < 65536 && |msg.payload| <= limit && Survives(msg, pid)
    requires |PublishBody(msg, pid)| <= MAX_REMAINING && k == Prefix(|PublishBody(msg, pid)|)
    requires NonEmpty(segs) && Flatten(segs) == PublishFrame(msg, pid) + more
    requires OneChunk(Skip(segs, k), |PublishBody(msg, pid)|)
    ensures var r := DecodePacket(segs);
            && r.Ok? && Flatten(r.value.rest) == more
            && ParsePublish(r.value.command, r.value.body, limit) == Got(Expected(msg, pid))
  {
    FrameDelivered(segs, HeaderByte(PUBLISH, msg.dup, msg.qos, false), PublishBody(msg, pid), more, k);
    PublishRoundTrip(msg, pid, limit);
  }

  /** A PUBLISH body as section 3.3 lays it out, with length and identifier in full. */
  function PublishPacket(topic: Text, qos: nat, pid: nat, payload: seq<byte>): seq<byte> {
    FullString(topic) + ((if qos > 0 then FullUint16(pid) else []) + payload)
  }

  lemma PublishFlags(command: nat, dup: bool, qos: nat, retain: bool)
    requires qos <= 2 && command == 0x30 + (if dup then 8 else 0) + 2 * qos + if retain then 1 else 0
    ensures command / 16 == 3 && command / 2 % 4 == qos
    ensures (command / 8 % 2 == 1 <==> dup) && (command % 2 == 1 <==> retain)
  {
  }

  lemma PublishTailReads(topic: Text, qos: nat, pid: nat, payload: seq<byte>, limit: nat)
    requires |topic| < 65536 && pid < 65536
    ensures var body := Whole(PublishPacket(topic, qos, pid, payload));
            && GetString(body, 0) == Got(topic) && ReadId(qos, topic, body) == Got(if qos > 0 then pid else 0)
            && GetRest(body, PayloadStart(qos, topic), limit) == if |payload| > limit then Bad else Got(payload)
  {
    var body := PublishPacket(topic, qos, pid, payload);
    var tail := (if qos > 0 then FullUint16(pid) else []) + payload;
    assert body[0..] == body;
    FullStringAt(topic, body, 0, tail);
    if qos > 0 { FullUint16At(pid, body, 2 + |topic|, payload); }
    assert body[PayloadStart(qos, topic)..] == payload;
    if |payload| <= limit { RestAt(body, PayloadStart(qos, topic), payload, limit); }
  }

  /** Such a body is read back field by field, unless the payload is too long. */
  lemma PublishReads(command: byte, dup: bool, topic: Text, qos: nat, retain: bool, pid: nat, payload: seq<byte>, limit: nat)
    requires |topic| < 65536 && pid < 65536 && qos <= 2
    requires command as nat == 0x30 + (if dup then 8 else 0) + 2 * qos + if retain then 1 else 0
    ensures ParsePublish(command, Whole(PublishPacket(topic, qos, pid, payload)), limit) ==
            if |payload| > limit then Bad else Got(Publish(topic, dup, qos, retain, if qos > 0 then pid else 0, payload))
  {
    PublishFlags(command as nat, dup, qos, retain);
    PublishTailReads(topic, qos, pid, payload, limit);
  }

  /** No other body is ever accepted. */
  lemma PublishSound(command: byte, body: seq<byte>, limit: nat, p: Publish)
    requires ParsePublish(command, Whole(body), limit) == Got(p)
    ensures body == PublishPacket(p.topic, p.qos, p.pid, p.payload)
    ensures p.qos <= 2 && |p.topic| < 65536 && p.pid < 65536 && |p.payload| <= limit
    ensures p.qos == command as nat / 2 % 4 && (p.dup <==> command as nat / 8 % 2 == 1) && (p.retain <==> command % 2 == 1)
  {
    var at := PayloadStart(p.qos, p.topic);
    StringBack(body, 0, p.topic);
    if p.qos > 0 { Uint16Back(body, 2 + |p.topic|, p.pid); }
    assert at <= |body| && body[at..] == p.payload by { RestBack(body, at, limit, p.payload); }
    assert body == body[..2 + |p.topic|] + (body[2 + |p.topic|..at] + body[at..]);
  }

  lemma RestBack(body: seq<byte>, pos: nat, limit: nat, after: seq<byte>)
    requires pos <= |body| && GetRest(Whole(body), pos, limit) == Got(after)
    ensures body[pos..] == after && |after| <= limit
  {
    assert body[pos..] == body[pos..|body|];
  }

  // ---------------------------------------------------------------- PUBACK

  /** What sendCommandWithPacketID writes. */
  function AckFrame(command: byte, pid: nat): seq<byte> { Frame(command, FullUint16(pid)) }

  function AckFrames(pids: seq<nat>): seq<byte> {
    if pids == [] then [] else AckFrame(PUBACK, pids[0]) + AckFrames(pids[1..])
  }

  lemma AckFrameBytes(command: byte, pid: nat)
    ensures AckFrame(command, pid) == [command, 2, (pid / 256 % 256) as byte, (pid % 256) as byte]
  {
    assert LengthBytes(2) == [2];
  }

  lemma AckFramesCons(pid: nat, more: seq<nat>)
    ensures AckFrames([pid] + more) == AckFrame(PUBACK, pid) + AckFrames(more)
  {
    assert ([pid] + more)[1..] == more;
  }

  predicate StartsWithAck(wire: seq<byte>) { |wire| >= 4 && wire[0] == PUBACK && wire[1] == 2 }

  function Identifier(hi: byte, lo: byte): nat { hi as nat * 256 + lo as nat }

  function Before(pid: nat, more: Result<seq<nat>>): Result<seq<nat>> {
    if more.Err? then Err else Ok([pid] + more.value)
  }

  /** The client's view of a stream of PUBACKs: four bytes each, identifier in the last two. */
  function ReadAcks(wire: seq<byte>): Result<seq<nat>> {
    if wire == [] then Ok([])
    else if !StartsWithAck(wire) then Err
    else Before(Identifier(wire[2], wire[3]), ReadAcks(wire[4..]))
  }

  /** Acknowledgements carry their identifiers in full: the stream reads back as the list sent. */
  lemma {:induction false} AcksRoundTrip(pids: seq<nat>)
    requires forall i :: 0 <= i < |pids| ==> pids[i] < 65536
    ensures ReadAcks(AckFrames(pids)) == Ok(pids)
  {
    if pids != [] {
      AcksRoundTrip(pids[1..]);
      AckFrameBytes(PUBACK, pids[0]);
      ReadAcksStep(pids[0], AckFrames(pids[1..]));
      assert pids == [pids[0]] + pids[1..];
    }
  }

  lemma ReadAcksStep(pid: nat, more: seq<byte>)
    requires pid < 65536
    ensures ReadAcks([PUBACK, 2, (pid / 256 % 256) as byte, (pid % 256) as byte] + more) == Before(pid, ReadAcks(more))
  {
    ReadAcksHead((pid / 256 % 256) as byte, (pid % 256) as byte, more);
    TwoBytes(pid);
  }

  lemma TwoBytes(pid: nat)
    requires pid < 65536
    ensures Identifier((pid / 256 % 256) as byte, (pid % 256) as byte) == pid
  {
  }

  lemma ReadAcksHead(hi: byte, lo: byte, more: seq<byte>)
    ensures ReadAcks([PUBACK, 2, hi, lo] + more) == Before(Identifier(hi, lo), ReadAcks(more))
  {
    assert ([PUBACK, 2, hi, lo] + more)[4..] == more;
  }

  // ---------------------------------------------------------------- SUBSCRIBE

  datatype Filter = Filter(topic: Text, qos: nat)

  /** The filters that are read, in order, and how the list ends: after the last one, at a malformed one or
      in a run-time error. */
  datatype Filters = Filters(list: seq<Filter>, end: Outcome)

  /** One topic filter and its requested qos, which must not exceed 2. */
  function ReadFilter(body: Slice, pos: nat): Got<Filter> {
    var topic := GetString(body, pos);
    if !topic.Got? then Missed(topic)
    else
      var qos := GetByte(body, pos + 2 + |topic.value|);
      if !qos.Got? then Missed(qos) else if qos.value > 2 then Bad else Got(Filter(topic.value, qos.value as nat))
  }

  function After(f: Filter, pos: nat): nat { pos + |f.topic| + 3 }

  function ParseFilters(body: Slice, pos: nat): Filters
    decreases body.promised - pos
  {
    if pos >= body.promised then Filters([], Fine)
    else
      var f := ReadFilter(body, pos);
      if !f.Got? then Filters([], OutcomeOf(f))
      else
        var rest := ParseFilters(body, After(f.value, pos));
        Filters([f.value] + rest.list, rest.end)
  }

  /** A well-formed SUBSCRIBE payload, as section 3.8.3 lays it out. */
  function FilterBytes(filters: seq<Filter>): seq<byte> {
    if filters == [] then []
    else FullString(filters[0].topic) + [(filters[0].qos % 256) as byte] + FilterBytes(filters[1..])
  }

  predicate WellFormed(filters: seq<Filter>) {
    forall i :: 0 <= i < |filters| ==> |filters[i].topic| < 65536 && filters[i].qos <= 2
  }

  /** No filter can be read here: the bytes end too early or ask for a qos above 2. */
  predicate NoFilter(bytes: seq<byte>) {
    |bytes| < 2 ||
    var n := bytes[0] as nat * 256 + bytes[1] as nat;
    |bytes| < n + 3 || bytes[n + 2] > 2
  }

  lemma NoFilterHere(body: seq<byte>, pos: nat)
    requires pos <= |body|
    ensures ReadFilter(Whole(body), pos) == Bad <==> NoFilter(body[pos..])
    ensures !ReadFilter(Whole(body), pos).Crash?
  {
  }

  /** The filters are read in order; what cannot be read behind them ends the list with an error. */
  lemma {:induction false} FiltersFrom(filters: seq<Filter>, junk: seq<byte>, body: seq<byte>, pos: nat)
    requires WellFormed(filters) && pos <= |body| && body[pos..] == FilterBytes(filters) + junk
    requires junk == [] || NoFilter(junk)
    ensures ParseFilters(Whole(body), pos) == Filters(filters, if junk == [] then Fine else Error)
    decreases |filters|
  {
    if filters == [] {
      assert body[pos..] == junk;
      NoFilterHere(body, pos);
    } else {
      var f, rest := filters[0], filters[1..];
      FirstFilter(f, rest, filters, junk, body, pos);
      FiltersFrom(rest, junk, body, After(f, pos));
      ParseFiltersCons(body, pos, f, rest, if junk == [] then Fine else Error);
      assert filters == [f] + rest;
    }
  }

  lemma FirstFilter(f: Filter, rest: seq<Filter>, all: seq<Filter>, junk: seq<byte>, body: seq<byte>, pos: nat)
    requires |f.topic| < 65536 && f.qos <= 2 && all == [f] + rest
    requires pos <= |body| && body[pos..] == FilterBytes(all) + junk
    ensures ReadFilter(Whole(body), pos) == Got(f) && After(f, pos) <= |body|
    ensures body[After(f, pos)..] == FilterBytes(rest) + junk
  {
    FilterBytesCons(f, rest);
    Regroup(FullString(f.topic) + [f.qos as byte], FilterBytes(rest), junk);
    FilterAt(f, body, pos, FilterBytes(rest) + junk);
  }

  lemma ParseFiltersCons(body: seq<byte>, pos: nat, f: Filter, rest: seq<Filter>, end: Outcome)
    requires pos < |body| && ReadFilter(Whole(body), pos) == Got(f)
    requires ParseFilters(Whole(body), After(f, pos)) == Filters(rest, end)
    ensures ParseFilters(Whole(body), pos) == Filters([f] + rest, end)
  {
  }

  /** The body from `pos` on is this list, and what follows it if anything does is not a filter. */
  predicate FiltersAre(body: seq<byte>, pos: nat, f: Filters) {
    var end := pos + |FilterBytes(f.list)|;
    && WellFormed(f.list) && end <= |body| && body[pos..end] == FilterBytes(f.list)
    && f.end == (if end == |body| then Fine else Error) && (end < |body| ==> NoFilter(body[end..]))
  }

  /** So it is for every body: what is read is what is there. */
  lemma {:induction false} FiltersSound(body: seq<byte>, pos: nat)
    requires pos <= |body|
    ensures FiltersAre(body, pos, ParseFilters(Whole(body), pos))
    decreases |body| - pos
  {
    NoFilterHere(body, pos);
    var f := ReadFilter(Whole(body), pos);
    if pos < |body| && f.Got? {
      FilterBack(body, pos, f.value);
      FiltersSound(body, After(f.value, pos));
      FiltersAreCons(body, pos, f.value, After(f.value, pos), ParseFilters(Whole(body), After(f.value, pos)));
    }
  }

  lemma FiltersAreCons(body: seq<byte>, pos: nat, f: Filter, at: nat, rest: Filters)
    requires pos <= at <= |body| && |f.topic| < 65536 && f.qos <= 2 && FiltersAre(body, at, rest)
    requires body[pos..at] == FullString(f.topic) + [f.qos as byte]
    ensures FiltersAre(body, pos, Filters([f] + rest.list, rest.end))
  {
    FilterBytesCons(f, rest.list);
    Slices(body, pos, at, at + |FilterBytes(rest.list)|);
  }

  lemma Slices(body: seq<byte>, a: nat, b: nat, c: nat)
    requires a <= b <= c <= |body|
    ensures body[a..c] == body[a..b] + body[b..c]
  {
  }

  lemma FilterBack(body: seq<byte>, pos: nat, f: Filter)
    requires ReadFilter(Whole(body), pos) == Got(f)
    ensures |f.topic| < 65536 && f.qos <= 2 && After(f, pos) <= |body|
    ensures body[pos..After(f, pos)] == FullString(f.topic) + [f.qos as byte]
  {
    StringBack(body, pos, f.topic);
    var at := pos + 2 + |f.topic|;
    assert body[pos..at + 1] == body[pos..at] + [body[at]];
  }

  lemma FilterBytesCons(f: Filter, list: seq<Filter>)
    requires f.qos <= 2
    ensures FilterBytes([f] + list) == FullString(f.topic) + [f.qos as byte] + FilterBytes(list)
  {
    assert ([f] + list)[1..] == list;
  }

  /** Every well-formed list of filters is read back in order. */
  lemma FiltersRoundTrip(filters: seq<Filter>, before: seq<byte>)
    requires WellFormed(filters)
    ensures ParseFilters(Whole(before + FilterBytes(filters)), |before|) == Filters(filters, Fine)
  {
    assert FilterBytes(filters) + [] == FilterBytes(filters);
    FiltersFrom(filters, [], before + FilterBytes(filters), |before|);
  }

  lemma FilterAt(f: Filter, body: seq<byte>, pos: nat, after: seq<byte>)
    requires |f.topic| < 65536 && f.qos <= 2 && pos <= |body|
    requires body[pos..] == FullString(f.topic) + [f.qos as byte] + after
    ensures ReadFilter(Whole(body), pos) == Got(f) && After(f, pos) <= |body| && body[After(f, pos)..] == after
  {
    var tail := [f.qos as byte] + after;
    assert FullString(f.topic) + [f.qos as byte] + after == FullString(f.topic) + tail;
    FullStringAt(f.topic, body, pos, tail);
    var at := pos + 2 + |f.topic|;
    assert body[at] == body[at..][0] && body[at + 1..] == body[at..][1..];
  }

  function QosBytes(filters: seq<Filter>): seq<byte> {
    seq(|filters|, i requires 0 <= i < |filters| => (filters[i].qos % 256) as byte)
  }

  function SubAckFrame(pid: nat, codes: seq<byte>): seq<byte> { Frame(SUBACK, WrittenUint16(pid) + codes) }

  /** The client finds its SUBSCRIBE identifier in the SUBACK exactly when writeUint16 leaves it intact. */
  lemma SubAckIdentifier(pid: nat, codes: seq<byte>)
    requires pid < 65536
    ensures GetUint16(Whole(WrittenUint16(pid) + codes), 0) == Got(pid) <==> Clean(pid)
  {
    Uint16RoundTrip(pid, [], codes);
    assert [] + WrittenUint16(pid) + codes == WrittenUint16(pid) + codes;
  }

  // ---------------------------------------------------------------- UNSUBSCRIBE

  /** The topics that are read, in order, and how the list ends. */
  datatype Topics = Topics(list: seq<Text>, end: Outcome)

  function Behind(topic: Text, pos: nat): nat { pos + 2 + |topic| }

  function ParseTopics(body: Slice, pos: nat): Topics
    decreases body.promised - pos
  {
    if pos >= body.promised then Topics([], Fine)
    else
      var topic := GetString(body, pos);
      if !topic.Got? then Topics([], OutcomeOf(topic))
      else
        var rest := ParseTopics(body, Behind(topic.value, pos));
        Topics([topic.value] + rest.list, rest.end)
  }

  function TopicBytes(topics: seq<Text>): seq<byte> {
    if topics == [] then [] else FullString(topics[0]) + TopicBytes(topics[1..])
  }

  lemma TopicAt(topic: Text, body: seq<byte>, pos: nat, after: seq<byte>)
    requires |topic| < 65536 && pos <= |body| && body[pos..] == FullString(topic) + after
    ensures GetString(Whole(body), pos) == Got(topic)
    ensures pos < Behind(topic, pos) <= |body| && body[Behind(topic, pos)..] == after
  {
    FullStringAt(topic, body, pos, after);
  }

  /** No topic can be read here: the bytes end too early. */
  predicate NoTopic(bytes: seq<byte>) {
    |bytes| < 2 || |bytes| < 2 + bytes[0] as nat * 256 + bytes[1] as nat
  }

  lemma NoTopicHere(body: seq<byte>, pos: nat)
    requires pos <= |body|
    ensures GetString(Whole(body), pos) == Bad <==> NoTopic(body[pos..])
    ensures !GetString(Whole(body), pos).Crash?
  {
  }

  predicate TopicsFit(topics: seq<Text>) { forall i :: 0 <= i < |topics| ==> |topics[i]| < 65536 }

  lemma {:induction false} TopicsFrom(topics: seq<Text>, junk: seq<byte>, body: seq<byte>, pos: nat)
    requires TopicsFit(topics) && pos <= |body| && body[pos..] == TopicBytes(topics) + junk
    requires junk == [] || NoTopic(junk)
    ensures ParseTopics(Whole(body), pos) == Topics(topics, if junk == [] then Fine else Error)
    decreases |topics|
  {
    if topics == [] {
      assert body[pos..] == junk;
      NoTopicHere(body, pos);
    } else {
      Regroup(FullString(topics[0]), TopicBytes(topics[1..]), junk);
      TopicAt(topics[0], body, pos, TopicBytes(topics[1..]) + junk);
      TopicsFrom(topics[1..], junk, body, Behind(topics[0], pos));
    }
  }

  predicate TopicsAre(body: seq<byte>, pos: nat, t: Topics) {
    var end := pos + |TopicBytes(t.list)|;
    && TopicsFit(t.list) && end <= |body| && body[pos..end] == TopicBytes(t.list)
    && t.end == (if end == |body| then Fine else Error) && (end < |body| ==> NoTopic(body[end..]))
  }

  /** What is read from any body is what is there. */
  lemma {:induction false} TopicsSound(body: seq<byte>, pos: nat)
    requires pos <= |body|
    ensures TopicsAre(body, pos, ParseTopics(Whole(body), pos))
    decreases |body| - pos
  {
    NoTopicHere(body, pos);
    var topic := GetString(Whole(body), pos);
    if pos < |body| && topic.Got? {
      StringBack(body, pos, topic.value);
      TopicsSound(body, Behind(topic.value, pos));
      TopicsAreCons(body, pos, topic.value, Behind(topic.value, pos), ParseTopics(Whole(body), Behind(topic.value, pos)));
    }
  }

  lemma TopicsAreCons(body: seq<byte>, pos: nat, topic: Text, at: nat, rest: Topics)
    requires pos <= at <= |body| && |topic| < 65536 && TopicsAre(body, at, rest) && body[pos..at] == FullString(topic)
    ensures TopicsAre(body, pos, Topics([topic] + rest.list, rest.end))
  {
    assert ([topic] + rest.list)[1..] == rest.list;
    Slices(body, pos, at, at + |TopicBytes(rest.list)|);
  }

  /** Every well-formed list of topics is read back in order. */
  lemma TopicsRoundTrip(topics: seq<Text>, before: seq<byte>)
    requires TopicsFit(topics)
    ensures ParseTopics(Whole(before + TopicBytes(topics)), |before|) == Topics(topics, Fine)
  {
    assert TopicBytes(topics) + [] == TopicBytes(topics);
    TopicsFrom(topics, [], before + TopicBytes(topics), |before|);
  }
}
