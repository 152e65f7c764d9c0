/** What the session does with each packet that a client may send, in literal bytes and events. The bodies are
    written as MQTT Version 3.1.1 lays them out; the connection does not fail. */
module SessionPackets {
  import opened Base
  import opened Codec
  import opened Packets
  import opened Connects
  import opened Options
  import opened Texts
  import opened Connection
  import opened TransientLists
  import opened Outbound
  import opened Deliveries
  import opened SessionModel
  import opened SessionRuns
  import opened SessionWire

  /** The round went well: these events have been said and these bytes written. */
  predicate Did(s: Session, t: Stepped, notices: seq<Notice>, bytes: seq<byte>) {
    && t.r == Exhausted && t.s.events == s.events + notices && NetOf(t.s).wire == NetOf(s).wire + bytes
    && t.s.terms == s.terms && t.s.out.queued == s.out.queued && t.s.out.list == s.out.list
  }

  /** The round ended the session with an error: these events were said before the end, and nothing was written. */
  predicate FailedAfter(s: Session, t: Stepped, notices: seq<Notice>) {
    && t.r == Aborted && NetOf(t.s).wire == NetOf(s).wire
    && t.s.events == s.events + notices +
         ((if s.terms.will.None? then [] else [Testament(s.terms.will.value)]) + [SessionDestroyed])
  }

  predicate Failed(s: Session, t: Stepped) { FailedAfter(s, t, []) }

  /** The event that publishes a will. */
  function Testament(will: Message): Notice {
    Published(topic := will.topic, qos := will.qos, retain := will.retain, payload := will.payload, will := true)
  }

  lemma ReplyDone(c: Settings, s: Session, command: byte, body: Slice, env: Env, notices: seq<Notice>, bytes: seq<byte>)
    requires Alive(s) && Reliable(NetOf(s)) && Answerable(Received(command, body, env))
    requires ReplyTo(s.terms.protocol, c.limit, command, body, env.acl) == Reply(Fine, notices, bytes)
    ensures Did(s, Step(c, s, Received(command, body, env)), notices, bytes)
  {
    AnswerStep(c, s, Received(command, body, env));
  }

  lemma ReplyFailed(c: Settings, s: Session, command: byte, body: Slice, env: Env, notices: seq<Notice>)
    requires Alive(s) && Reliable(NetOf(s)) && Answerable(Received(command, body, env))
    requires ReplyTo(s.terms.protocol, c.limit, command, body, env.acl) == Reply(Error, notices, [])
    ensures FailedAfter(s, Step(c, s, Received(command, body, env)), notices)
  {
    AnswerStep(c, s, Received(command, body, env));
  }

  lemma ReplyRefused(c: Settings, s: Session, command: byte, body: Slice, env: Env)
    requires Alive(s) && Reliable(NetOf(s)) && Answerable(Received(command, body, env))
    requires ReplyTo(s.terms.protocol, c.limit, command, body, env.acl) == REFUSAL
    ensures Failed(s, Step(c, s, Received(command, body, env)))
  {
    ReplyFailed(c, s, command, body, env, []);
  }

  /** A frame of a known small size. */
  lemma FrameBytes(header: byte, body: seq<byte>)
    requires |body| <= MAX_REMAINING
    ensures Frame(header, body) == [header] + LengthBytes(|body|) + body
  {
    EncodeRefuses(|body|);
  }

  // ---------------------------------------------------------------- SUBSCRIBE and UNSUBSCRIBE

  function SubscribeBody(pid: nat, filters: seq<Filter>, junk: seq<byte>): seq<byte> {
    FullUint16(pid) + (FilterBytes(filters) + junk)
  }

  lemma SubscribeReads(pid: nat, filters: seq<Filter>, junk: seq<byte>)
    requires pid < 65536 && Packets.WellFormed(filters) && (junk == [] || NoFilter(junk))
    ensures var body := Whole(SubscribeBody(pid, filters, junk));
            && GetUint16(body, 0) == Got(pid)
            && ParseFilters(body, 2) == Filters(filters, if junk == [] then Fine else Error)
  {
    var body := SubscribeBody(pid, filters, junk);
    assert body[0..] == body;
    FullUint16At(pid, body, 0, FilterBytes(filters) + junk);
    FiltersFrom(filters, junk, body, 2);
  }

  lemma {:induction false} FilterBytesSize(filters: seq<Filter>)
    ensures |FilterBytes(filters)| >= 3 * |filters|
  {
    if filters != [] { FilterBytesSize(filters[1..]); }
  }

  lemma SubAckBytes(pid: nat, codes: seq<byte>)
    requires 2 + |codes| <= MAX_REMAINING
    ensures SubAckFrame(pid, codes) ==
            [0x90] + LengthBytes(2 + |codes|) + [(pid / 256 % 16) as byte, (pid % 16) as byte] + codes
  {
    FrameInTwo(SUBACK, WrittenUint16(pid), codes);
  }

  lemma FrameInTwo(header: byte, a: seq<byte>, b: seq<byte>)
    requires |a| + |b| <= MAX_REMAINING
    ensures Frame(header, a + b) == [header] + LengthBytes(|a| + |b|) + a + b
  {
    FrameBytes(header, a + b);
    Regroup([header] + LengthBytes(|a| + |b|), a, b);
  }

  lemma SubscribeReplyIs(protocol: nat, limit: nat, pid: nat, filters: seq<Filter>, junk: seq<byte>, acl: bool,
                         notices: seq<Notice>, codes: seq<byte>)
    requires pid < 65536 && Packets.WellFormed(filters) && (junk == [] || NoFilter(junk))
    requires |notices| == |codes| == |filters|
    requires forall i :: 0 <= i < |filters| ==> notices[i] == Subscribed(filters[i].topic, filters[i].qos)
    requires forall i :: 0 <= i < |filters| ==> codes[i] as nat == filters[i].qos
    ensures ReplyTo(protocol, limit, 0x82, Whole(SubscribeBody(pid, filters, junk)), acl) ==
            if junk != [] || (protocol == 2 && filters == []) then Reply(Error, notices, [])
            else Reply(Fine, notices, SubAckFrame(pid, codes))
  {
    SubscribeReads(pid, filters, junk);
    ListsAre(filters, notices, codes);
    SubscribeReplyFrom(protocol, limit, Whole(SubscribeBody(pid, filters, junk)), acl, pid, filters,
                       if junk == [] then Fine else Error);
  }

  lemma ListsAre(filters: seq<Filter>, notices: seq<Notice>, codes: seq<byte>)
    requires Packets.WellFormed(filters) && |notices| == |codes| == |filters|
    requires forall i :: 0 <= i < |filters| ==> notices[i] == Subscribed(filters[i].topic, filters[i].qos)
    requires forall i :: 0 <= i < |filters| ==> codes[i] as nat == filters[i].qos
    ensures QosBytes(filters) == codes && SubscribeNotices(filters) == notices
  {
  }

  lemma SubscribeReplyFrom(protocol: nat, limit: nat, body: Slice, acl: bool, pid: nat, filters: seq<Filter>, end: Outcome)
    requires GetUint16(body, 0) == Got(pid) && ParseFilters(body, 2) == Filters(filters, end) && (end == Fine || end == Error)
    ensures ReplyTo(protocol, limit, 0x82, body, acl) ==
            if end == Error || (protocol == 2 && filters == []) then Reply(Error, SubscribeNotices(filters), [])
            else Reply(Fine, SubscribeNotices(filters), SubAckFrame(pid, QosBytes(filters)))
  {
    assert protocol == 2 && filters == [] ==> SubscribeNotices(filters) == [];
  }

  /** One event per filter in order, up to what cannot be read as one. If that is all there is, a SUBACK follows,
      with the identifier, of whose bytes four bits each are left, and the requested qos values in order. A 3.1.1
      session refuses an empty list. */
  lemma SubscribeStep(c: Settings, s: Session, pid: nat, filters: seq<Filter>, junk: seq<byte>, env: Env,
                      notices: seq<Notice>, codes: seq<byte>)
    requires Alive(s) && Reliable(NetOf(s)) && pid < 65536 && Packets.WellFormed(filters) && (junk == [] || NoFilter(junk))
    requires |SubscribeBody(pid, filters, junk)| <= MAX_REMAINING && |notices| == |codes| == |filters|
    requires forall i :: 0 <= i < |filters| ==> notices[i] == Subscribed(filters[i].topic, filters[i].qos)
    requires forall i :: 0 <= i < |filters| ==> codes[i] as nat == filters[i].qos
    ensures var t := Step(c, s, Received(0x82, Whole(SubscribeBody(pid, filters, junk)), env));
            if junk != [] || (s.terms.protocol == 2 && filters == []) then FailedAfter(s, t, notices)
            else Did(s, t, notices,
                     [0x90] + LengthBytes(2 + |filters|) + [(pid / 256 % 16) as byte, (pid % 16) as byte] + codes)
  {
    var body := Whole(SubscribeBody(pid, filters, junk));
    SubscribeReplyIs(s.terms.protocol, c.limit, pid, filters, junk, env.acl, notices, codes);
    if junk != [] || (s.terms.protocol == 2 && filters == []) {
      ReplyFailed(c, s, 0x82, body, env, notices);
    } else {
      FilterBytesSize(filters);
      SubAckBytes(pid, codes);
      ReplyDone(c, s, 0x82, body, env, notices, SubAckFrame(pid, codes));
    }
  }

  /** Every body of two bytes or more is one of these. */
  lemma SubscribeBodies(body: seq<byte>) returns (pid: nat, filters: seq<Filter>, junk: seq<byte>)
    requires |body| >= 2
    ensures pid < 65536 && Packets.WellFormed(filters) && (junk == [] || NoFilter(junk))
    ensures body == SubscribeBody(pid, filters, junk)
  {
    pid := GetUint16(Whole(body), 0).value;
    Uint16Back(body, 0, pid);
    FiltersSound(body, 2);
    filters := ParseFilters(Whole(body), 2).list;
    var end := 2 + |FilterBytes(filters)|;
    junk := body[end..];
    assert body == body[0..2] + (body[2..end] + body[end..]);
  }

  function UnsubscribeBody(pid: nat, topics: seq<Text>, junk: seq<byte>): seq<byte> {
    FullUint16(pid) + (TopicBytes(topics) + junk)
  }

  lemma UnsubscribeReads(pid: nat, topics: seq<Text>, junk: seq<byte>)
    requires pid < 65536 && TopicsFit(topics) && (junk == [] || NoTopic(junk))
    ensures var body := Whole(UnsubscribeBody(pid, topics, junk));
            && GetUint16(body, 0) == Got(pid)
            && ParseTopics(body, 2) == Topics(topics, if junk == [] then Fine else Error)
  {
    var body := UnsubscribeBody(pid, topics, junk);
    assert body[0..] == body;
    FullUint16At(pid, body, 0, TopicBytes(topics) + junk);
    TopicsFrom(topics, junk, body, 2);
  }

  lemma UnsubscribeReplyIs(protocol: nat, limit: nat, pid: nat, topics: seq<Text>, junk: seq<byte>, acl: bool,
                           notices: seq<Notice>)
    requires pid < 65536 && TopicsFit(topics) && (junk == [] || NoTopic(junk))
    requires |notices| == |topics| && forall i :: 0 <= i < |topics| ==> notices[i] == Unsubscribed(topics[i])
    ensures ReplyTo(protocol, limit, 0xA2, Whole(UnsubscribeBody(pid, topics, junk)), acl) ==
            if junk != [] then Reply(Error, notices, []) else Reply(Fine, notices, AckFrame(UNSUBACK, pid))
  {
    UnsubscribeReads(pid, topics, junk);
    assert UnsubscribeNotices(topics) == notices;
  }

  /** One event per topic in order, up to what cannot be read as one; if that is all there is, an UNSUBACK with the
      identifier in full. */
  lemma UnsubscribeStep(c: Settings, s: Session, pid: nat, topics: seq<Text>, junk: seq<byte>, env: Env, notices: seq<Notice>)
    requires Alive(s) && Reliable(NetOf(s)) && pid < 65536 && TopicsFit(topics) && (junk == [] || NoTopic(junk))
    requires |notices| == |topics| && forall i :: 0 <= i < |topics| ==> notices[i] == Unsubscribed(topics[i])
    ensures var t := Step(c, s, Received(0xA2, Whole(UnsubscribeBody(pid, topics, junk)), env));
            if junk != [] then FailedAfter(s, t, notices)
            else Did(s, t, notices, [0xB0, 2, (pid / 256) as byte, (pid % 256) as byte])
  {
    var body := Whole(UnsubscribeBody(pid, topics, junk));
    UnsubscribeReplyIs(s.terms.protocol, c.limit, pid, topics, junk, env.acl, notices);
    if junk != [] {
      ReplyFailed(c, s, 0xA2, body, env, notices);
    } else {
      AckBytes(UNSUBACK, pid);
      ReplyDone(c, s, 0xA2, body, env, notices, AckFrame(UNSUBACK, pid));
    }
  }

  lemma UnsubscribeBodies(body: seq<byte>) returns (pid: nat, topics: seq<Text>, junk: seq<byte>)
    requires |body| >= 2
    ensures pid < 65536 && TopicsFit(topics) && (junk == [] || NoTopic(junk)) && body == UnsubscribeBody(pid, topics, junk)
  {
    pid := GetUint16(Whole(body), 0).value;
    Uint16Back(body, 0, pid);
    TopicsSound(body, 2);
    topics := ParseTopics(Whole(body), 2).list;
    var end := 2 + |TopicBytes(topics)|;
    junk := body[end..];
    assert body == body[0..2] + (body[2..end] + body[end..]);
  }

  /** PUBREL, SUBSCRIBE and UNSUBSCRIBE need an identifier. */
  lemma ShortPacketFails(c: Settings, s: Session, command: byte, body: seq<byte>, env: Env)
    requires Alive(s) && Reliable(NetOf(s)) && command in {0x62, 0x82, 0xA2} && |body| < 2
    ensures Failed(s, Step(c, s, Received(command, Whole(body), env)))
  {
    ReplyRefused(c, s, command, Whole(body), env);
  }

  // ---------------------------------------------------------------- PUBLISH, PUBREL, PINGREQ, PUBACK

  lemma PublishReplyIs(protocol: nat, limit: nat, command: byte, dup: bool, topic: Text, qos: nat, retain: bool, pid: nat,
                       payload: seq<byte>, acl: bool)
    requires |topic| < 65536 && pid < 65536 && qos <= 2
    requires command as nat == 0x30 + (if dup then 8 else 0) + 2 * qos + if retain then 1 else 0
    ensures command / 16 == 3
    ensures ReplyTo(protocol, limit, command, Whole(PublishPacket(topic, qos, pid, payload)), acl) ==
            if acl && qos <= 1 && |payload| <= limit then
              Reply(Fine, [Published(topic, qos, retain, payload, false)], if qos == 1 then AckFrame(PUBACK, pid) else [])
            else REFUSAL
  {
    PublishFlags(command as nat, dup, qos, retain);
    PublishReads(command, dup, topic, qos, retain, pid, payload, limit);
  }

  /** A PUBLISH that is permitted, of QoS 0 or 1 and not too long is announced once, field by field, and at QoS 1
      acknowledged under its identifier; any other ends the session and is not announced. */
  lemma PublishStep(c: Settings, s: Session, command: byte, dup: bool, topic: Text, qos: nat, retain: bool, pid: nat,
                    payload: seq<byte>, env: Env)
    requires Alive(s) && Reliable(NetOf(s)) && |topic| < 65536 && pid < 65536 && qos <= 2
    requires command as nat == 0x30 + (if dup then 8 else 0) + 2 * qos + if retain then 1 else 0
    ensures var t := Step(c, s, Received(command, Whole(PublishPacket(topic, qos, pid, payload)), env));
            if env.acl && qos <= 1 && |payload| <= c.limit then
              Did(s, t, [Published(topic, qos, retain, payload, false)],
                  if qos == 1 then [0x40, 2, (pid / 256) as byte, (pid % 256) as byte] else [])
            else Failed(s, t)
  {
    var body := Whole(PublishPacket(topic, qos, pid, payload));
    PublishReplyIs(s.terms.protocol, c.limit, command, dup, topic, qos, retain, pid, payload, env.acl);
    if env.acl && qos <= 1 && |payload| <= c.limit {
      Acknowledged(c, s, command, body, env, [Published(topic, qos, retain, payload, false)], qos, pid);
    } else {
      ReplyRefused(c, s, command, body, env);
    }
  }

  lemma Acknowledged(c: Settings, s: Session, command: byte, body: Slice, env: Env, notices: seq<Notice>, qos: nat, pid: nat)
    requires Alive(s) && Reliable(NetOf(s)) && command / 16 == 3 && pid < 65536
    requires ReplyTo(s.terms.protocol, c.limit, command, body, env.acl) ==
             Reply(Fine, notices, if qos == 1 then AckFrame(PUBACK, pid) else [])
    ensures Did(s, Step(c, s, Received(command, body, env)), notices,
                if qos == 1 then [0x40, 2, (pid / 256) as byte, (pid % 256) as byte] else [])
  {
    AckBytes(PUBACK, pid);
    ReplyDone(c, s, command, body, env, notices, if qos == 1 then AckFrame(PUBACK, pid) else []);
  }

  lemma AckBytes(command: byte, pid: nat)
    requires pid < 65536
    ensures AckFrame(command, pid) == [command, 2, (pid / 256) as byte, (pid % 256) as byte]
  {
    AckFrameBytes(command, pid);
    assert pid / 256 % 256 == pid / 256;
  }

  /** A PUBLISH with any other body ends the session unannounced. */
  lemma PublishOnly(c: Settings, s: Session, command: byte, body: seq<byte>, env: Env)
    returns (topic: Text, pid: nat, payload: seq<byte>)
    requires Alive(s) && Reliable(NetOf(s)) && command / 16 == 0x3
    requires !Failed(s, Step(c, s, Received(command, Whole(body), env)))
    ensures body == PublishPacket(topic, command as nat / 2 % 4, pid, payload) && |topic| < 65536 && pid < 65536
  {
    var p := ParsePublish(command, Whole(body), c.limit);
    WholePublish(command, body, c.limit);
    if p.Bad? { ReplyRefused(c, s, command, Whole(body), env); }
    topic, pid, payload := p.value.topic, p.value.pid, p.value.payload;
    PublishSound(command, body, c.limit, p.value);
  }

  lemma WholePublish(command: byte, body: seq<byte>, limit: nat)
    ensures !ParsePublish(command, Whole(body), limit).Crash?
  {
  }

  /** PUBREL is answered under its identifier, whatever follows it in the packet. */
  lemma PubRelStep(c: Settings, s: Session, pid: nat, more: seq<byte>, env: Env)
    requires Alive(s) && Reliable(NetOf(s)) && pid < 65536
    ensures Did(s, Step(c, s, Received(0x62, Whole(FullUint16(pid) + more), env)), [],
                [0x70, 2, (pid / 256) as byte, (pid % 256) as byte])
  {
    var body := FullUint16(pid) + more;
    assert body[0..] == body;
    FullUint16At(pid, body, 0, more);
    AckBytes(PUBCOMP, pid);
    ReplyDone(c, s, 0x62, Whole(body), env, [], AckFrame(PUBCOMP, pid));
  }

  /** PINGREQ is answered whatever its flags and its body; the answer has a remaining length of 1. */
  lemma PingStep(c: Settings, s: Session, flags: byte, body: Slice, env: Env)
    requires Alive(s) && Reliable(NetOf(s)) && flags < 16
    ensures Did(s, Step(c, s, Received(0xC0 + flags, body, env)), [], [0xD0, 1, 0])
  {
    assert (0xC0 + flags) / 16 == 0xC;
    ReplyDone(c, s, 0xC0 + flags, body, env, [], [0xD0, 1, 0]);
  }

  /** A 3.1.1 session refuses PUBREL, SUBSCRIBE and UNSUBSCRIBE unless their flags are 2. */
  lemma WrongFlagsFail(c: Settings, s: Session, kind: byte, flags: byte, body: Slice, env: Env)
    requires Alive(s) && Reliable(NetOf(s)) && s.terms.protocol == 2
    requires (kind == 0x6 || kind == 0x8 || kind == 0xA) && flags < 16 && flags != 2
    ensures Failed(s, Step(c, s, Received(16 * kind + flags, body, env)))
  {
    assert (16 * kind + flags) / 16 == kind && (16 * kind + flags) % 16 == flags;
    ReplyRefused(c, s, 16 * kind + flags, body, env);
  }

  /** A packet of a type that only a server sends, or of none, ends the session. */
  lemma StrangePacketFails(c: Settings, s: Session, kind: byte, flags: byte, body: Slice, env: Env)
    requires Alive(s) && Reliable(NetOf(s)) && flags < 16
    requires kind in {0x0, 0x2, 0x5, 0x7, 0x9, 0xB, 0xD, 0xF}
    ensures Failed(s, Step(c, s, Received(16 * kind + flags, body, env)))
  {
    assert (16 * kind + flags) / 16 == kind;
    ReplyRefused(c, s, 16 * kind + flags, body, env);
  }

  /** PUBACK takes the first message with its identifier out of the retained list, and does nothing else. */
  lemma PubAckStep(c: Settings, s: Session, flags: byte, pid: nat, env: Env, i: nat)
    requires Alive(s) && s.connected && pid < 65536 && flags < 16 && i <= |s.out.list.contents|
    requires forall j :: 0 <= j < i ==> s.out.list.contents[j].packetId != pid
    requires i < |s.out.list.contents| ==> s.out.list.contents[i].packetId == pid
    ensures var t, kept := Step(c, s, Received(0x40 + flags, Whole(FullUint16(pid)), env)), s.out.list.contents;
            && t.r == Exhausted && t.s == s.(out := s.out.(list := t.s.out.list))
            && t.s.out.list.contents == if i < |kept| then kept[..i] + kept[i + 1..] else kept
  {
    var body := FullUint16(pid);
    assert body[0..] == body == FullUint16(pid) + [];
    FullUint16At(pid, body, 0, []);
    assert (0x40 + flags) / 16 == 0x4;
    assert FirstWith(s.out.list.contents, pid) == i;
  }

  /** Any other length is an error, and before CONNECT there is no list to take it from. */
  lemma OtherPubAckFails(c: Settings, s: Session, flags: byte, body: Slice, env: Env)
    requires Alive(s) && flags < 16 && (body.promised != 2 || !s.connected)
    ensures var t := Step(c, s, Received(0x40 + flags, body, env));
            if body.promised != 2 then Failed(s, t) else t == Stepped(s, Crashed)
  {
    assert (0x40 + flags) / 16 == 0x4;
  }

  /** A read error ends the session, and so does a second CONNECT, whatever it contains. */
  lemma SecondConnectFails(c: Settings, s: Session, flags: byte, body: Slice, env: Env)
    requires Alive(s) && s.state != STATE_NEW && flags < 16
    ensures Failed(s, Step(c, s, Received(0x10 + flags, body, env))) && Failed(s, Step(c, s, ReadFailed))
  {
    assert (0x10 + flags) / 16 == 0x1;
  }

  /** A message joins the end of the queue once there is one. */
  lemma ArrivalStep(c: Settings, s: Session, msg: Message)
    requires Alive(s)
    ensures Step(c, s, Arrived(msg)) ==
            Stepped(if s.connected then s.(out := s.out.(queued := s.out.queued + [msg])) else s, Exhausted)
  {
  }

  // ---------------------------------------------------------------- DISCONNECT

  /** An empty DISCONNECT, with flags 0 if the session is 3.1.1, ends the session and its will; any other is an
      error. */
  lemma DisconnectStep(c: Settings, s: Session, flags: byte, body: Slice, env: Env)
    requires Alive(s) && flags < 16
    ensures var t := Step(c, s, Received(0xE0 + flags, body, env));
            if body.promised == 0 && (s.terms.protocol == 2 ==> flags == 0) then
              && t.r == Finished && t.s.events == s.events + [SessionDestroyed] && NetOf(t.s).wire == NetOf(s).wire
              && t.s.terms == s.terms.(will := None) && t.s.states == s.states + [3, 8]
            else Failed(s, t)
  {
    assert (0xE0 + flags) / 16 == 0xE && (0xE0 + flags) % 16 == flags;
    assert s.states + [3] + [8] == s.states + [3, 8];
    assert s.events + [] == s.events;
  }

  // ---------------------------------------------------------------- CONNECT

  lemma KeepaliveReads(command: byte, body: Slice, was: nat)
    ensures var r := ParseConnect(command, body); r.Read? ==> r.value.keepalive == KeepaliveAfter(command, body, was)
  {
    var pre := ReadPreamble(command, body);
    if pre.Read? { RestKeepalive(body, pre.pos, pre.value, was); }
  }

  lemma RestKeepalive(body: Slice, pos: nat, pre: Preamble, was: nat)
    ensures var r := ReadRest(body, pos, pre); r.Read? ==> r.value.keepalive == KeepaliveRead(body, pos, pre.flags, was)
  {
    var head := ReadHead(body, pos, pre.flags);
    if head.Read? { TailKeepalive(body, head.pos, Begun(pre, head.value), pre.flags); }
  }

  lemma TailKeepalive(body: Slice, pos: nat, so: Request, flags: nat)
    ensures var r := ReadTail(body, pos, so, flags); r.Read? ==> r.value.keepalive == so.keepalive
  {
  }

  lemma {:induction false} PairsKeepClient(ctx: Context, pairs: seq<Text>)
    ensures var r := TakePairs(ctx, pairs); r.Some? ==> r.value.clientId == ctx.clientId
    decreases |pairs|
  {
    if pairs != [] {
      var next := TakePair(ctx, pairs[0]);
      if next.Some? { PairsKeepClient(next.value, pairs[1..]); }
    }
  }

  /** The client identifier is what stands in front of the bar. */
  lemma ClientIs(request: Request, id: Text, options: Text)
    requires request.username.Some? && request.rawId == id + [BAR] + options && BAR !in id
    requires ParseOptions(request.rawId, request.username.value).Some?
    ensures ClientOf(request) == Some(id)
  {
    SplitOfFirst(id, BAR, options);
    var names, parts := SplitOn(request.username.value, AMPERSAND), SplitOn(request.rawId, BAR);
    PairsKeepClient(Context(names[0], names[1], parts[0], 0, [], []), SplitOn(parts[1], COMMA));
  }

  /** A well-formed request with user name and password, and an identifier whose options can be read. */
  predicate Complete(request: Request, id: Text, options: Text) {
    && Connects.WellFormed(request) && request.username.Some? && request.password.Some?
    && request.rawId == id + [BAR] + options && BAR !in id
    && ParseOptions(request.rawId, request.username.value).Some?
  }

  lemma CompleteReads(request: Request, id: Text, options: Text)
    requires Complete(request, id, options)
    ensures var body := Whole(ConnectBody(request));
            && ParseConnect(0x10, body) == Read(request, |ConnectBody(request)|) && ClientOf(request) == Some(id)
            && forall was :: ProtocolAfter(0x10, body, was) == request.protocol && KeepaliveAfter(0x10, body, was) == request.keepalive
  {
    var body := Whole(ConnectBody(request));
    ConnectRoundTrip(request);
    ClientIs(request, id, options);
    forall was
      ensures ProtocolAfter(0x10, body, was) == request.protocol && KeepaliveAfter(0x10, body, was) == request.keepalive
    {
      ProtocolRead(0x10, body, was);
      KeepaliveReads(0x10, body, was);
    }
  }

  function Resumption(request: Request, env: Env): seq<Notice> {
    if request.cleanSession == 0 && env.known == Some(true) then [SessionResumed] else []
  }

  /** An accepted CONNECT, over any connection: the session is connected on the terms that the client asked for
      and has been announced. */
  lemma ConnectAccepted(c: Settings, s: Session, request: Request, id: Text, options: Text, env: Env)
    requires Alive(s) && s.state == STATE_NEW && Complete(request, id, options)
    requires (c.authNeed ==> env.auth.Pass?) && env.queue.Some?
    ensures var t := Step(c, s, Received(0x10, Whole(ConnectBody(request)), env));
            && t.s.connected && t.s.states == s.states + [2] && t.s.state == 2
            && t.s.terms == Terms(protocol := request.protocol, will := request.will, clientId := id,
                                  cleanSession := request.cleanSession, keepalive := request.keepalive)
            && t.s.events == s.events + Resumption(request, env) + [SessionCreated(request.cleanSession == 0)]
  {
    CompleteReads(request, id, options);
    ConnectIs(c, s, 0x10, Whole(ConnectBody(request)), env, request, |ConnectBody(request)|);
    RequestAccepted(c, Heard(s, 0x10, Whole(ConnectBody(request))), request, id, env);
  }

  /** What a readable CONNECT comes to. */
  lemma ConnectIs(c: Settings, s: Session, command: byte, body: Slice, env: Env, request: Request, pos: nat)
    requires s.state == STATE_NEW && command / 16 == 0x1 && ParseConnect(command, body) == Read(request, pos)
    ensures Step(c, s, Received(command, body, env)) == Settled(Judged(c, Heard(s, command, body), request, env))
  {
  }

  lemma RequestAccepted(c: Settings, s: Session, request: Request, id: Text, env: Env)
    requires Alive(s) && s.state == STATE_NEW && ClientOf(request) == Some(id)
    requires (c.authNeed ==> env.auth.Pass?) && env.queue.Some?
    ensures var t := Settled(Judged(c, s, request, env));
            && t.s.connected && t.s.states == s.states + [2] && t.s.state == 2
            && t.s.terms == s.terms.(will := request.will, clientId := id, cleanSession := request.cleanSession)
            && t.s.events == s.events + Resumption(request, env) + [SessionCreated(request.cleanSession == 0)]
  {
    AdmittedKeeps(s, request, id, env);
  }

  /** The bytes: CONNACK with the session-present flag first and return code 0, then the frames of the messages
      that were waiting. */
  lemma ConnectWrites(c: Settings, s: Session, request: Request, id: Text, options: Text, env: Env)
    requires Alive(s) && s.state == STATE_NEW && Up(s.out.line) && Complete(request, id, options)
    requires (c.authNeed ==> env.auth.Pass?) && env.queue.Some?
    ensures var t := Step(c, s, Received(0x10, Whole(ConnectBody(request)), env));
            var sp: byte := if request.cleanSession == 0 && env.known.Some? && request.protocol == 2 then 1 else 0;
            NetOf(t.s).wire == NetOf(s).wire + ([0x20, 2, sp, 0] + FirstFrames(s.out.line.next, env.queue.value))
  {
    CompleteReads(request, id, options);
    StepAdds(c, s, Received(0x10, Whole(ConnectBody(request)), env));
  }

  /** With an empty queue that is all, and the session goes on. */
  lemma ConnectStep(c: Settings, s: Session, request: Request, id: Text, options: Text, env: Env)
    requires Alive(s) && s.state == STATE_NEW && Up(s.out.line) && Complete(request, id, options)
    requires (c.authNeed ==> env.auth.Pass?) && env.queue == Some(Waiting([], FRESH))
    ensures var t := Step(c, s, Received(0x10, Whole(ConnectBody(request)), env));
            var sp: byte := if request.cleanSession == 0 && env.known.Some? && request.protocol == 2 then 1 else 0;
            && t.r == Exhausted && NetOf(t.s).wire == NetOf(s).wire + [0x20, 2, sp, 0]
            && t.s.terms == Terms(request.protocol, request.will, id, request.cleanSession, request.keepalive)
            && t.s.events == s.events + Resumption(request, env) + [SessionCreated(request.cleanSession == 0)]
  {
    ConnectWrites(c, s, request, id, options, env);
    ConnectAccepted(c, s, request, id, options, env);
    NothingWaiting(s.out.line.next, env.queue.value);
    AcceptedEnds(c, s, request, id, options, env);
  }

  lemma NothingWaiting(next: nat, w: Waiting)
    requires w == Waiting([], FRESH)
    ensures FirstFrames(next, w) == []
  {
    assert ToSend(w.buffer, w.shelf, true, true) == [];
  }

  lemma AcceptedEnds(c: Settings, s: Session, request: Request, id: Text, options: Text, env: Env)
    requires Alive(s) && s.state == STATE_NEW && Reliable(NetOf(s)) && Complete(request, id, options)
    requires (c.authNeed ==> env.auth.Pass?) && env.queue == Some(Waiting([], FRESH))
    ensures Step(c, s, Received(0x10, Whole(ConnectBody(request)), env)).r == Exhausted
  {
    var body := Whole(ConnectBody(request));
    CompleteReads(request, id, options);
    ConnectIs(c, s, 0x10, body, env, request, |ConnectBody(request)|);
    JudgedEnds(c, Heard(s, 0x10, body), request, env);
    RequestAccepted(c, Heard(s, 0x10, body), request, id, env);
  }

  /** The round ended a session that had no will, with an error and these bytes as the answer. */
  predicate TurnedDown(s: Session, t: Stepped, bytes: seq<byte>) {
    t.r == Aborted && t.s.events == s.events + [SessionDestroyed] && NetOf(t.s).wire == NetOf(s).wire + bytes
  }

  lemma UnreadConnectFails(c: Settings, s: Session, command: byte, body: Slice, env: Env)
    requires Alive(s) && s.state == STATE_NEW && Up(s.out.line) && command / 16 == 0x1
    requires ParseConnect(command, body).Refused? || ParseConnect(command, body).Malformed?
    ensures var r := ParseConnect(command, body);
            TurnedDown(s, Step(c, s, Received(command, body, env)), if r.Refused? then [0x20, 2, 0, r.code] else [])
  {
    StepAdds(c, s, Received(command, body, env));
  }

  /** Return code 2 for an empty identifier, else 4 for a missing user name or password. */
  lemma IncompleteConnectFails(c: Settings, s: Session, request: Request, env: Env)
    requires Alive(s) && s.state == STATE_NEW && Up(s.out.line) && Connects.WellFormed(request)
    requires request.rawId == [] || request.username.None? || request.password.None?
    ensures TurnedDown(s, Step(c, s, Received(0x10, Whole(ConnectBody(request)), env)),
                       [0x20, 2, 0, if request.rawId == [] then 2 else 4])
  {
    ConnectRoundTrip(request);
    UnreadConnectFails(c, s, 0x10, Whole(ConnectBody(request)), env);
  }

  /** Return code 1 for a known protocol name with another version; a high bit in the version is ignored. */
  lemma OtherVersionFails(c: Settings, s: Session, flags: byte, name: Text, version: byte, more: seq<byte>, env: Env)
    requires Alive(s) && s.state == STATE_NEW && Up(s.out.line) && flags < 16 && more != []
    requires (name == [77, 81, 73, 115, 100, 112] && version % 128 != 3) || (name == [77, 81, 84, 84] && version % 128 != 4)
    ensures TurnedDown(s, Step(c, s, Received(0x10 + flags, Whole(FullString(name) + ([version] + more)), env)), [0x20, 2, 0, 1])
  {
    var body := FullString(name) + ([version] + more);
    assert [version] + more == [version, more[0]] + more[1..];
    NameReads(name, version, more[0], more[1..], body);
    assert (0x10 + flags) / 16 == 1;
    UnreadConnectFails(c, s, 0x10 + flags, Whole(body), env);
  }

  /** A client that is not authorised gets return code 5; one whose authentication fails otherwise or whose options
      cannot be read gets no answer. */
  lemma RejectedConnectFails(c: Settings, s: Session, request: Request, env: Env)
    requires Alive(s) && s.state == STATE_NEW && Up(s.out.line) && Connects.WellFormed(request) && request.rawId != []
    requires request.username.Some? && request.password.Some?
    requires ParseOptions(request.rawId, request.username.value).None? || (c.authNeed && !env.auth.Pass?)
    ensures var readable := ParseOptions(request.rawId, request.username.value).Some?;
            TurnedDown(s, Step(c, s, Received(0x10, Whole(ConnectBody(request)), env)),
                       if readable && env.auth.Unauthorized? then [0x20, 2, 0, 5] else [])
  {
    ConnectRoundTrip(request);
    RejectedFrom(c, s, 0x10, Whole(ConnectBody(request)), env, request, |ConnectBody(request)|);
  }

  /** Without a queue there is no answer either, but by then the will has been taken over: it is published. */
  lemma NoQueueFails(c: Settings, s: Session, request: Request, id: Text, options: Text, env: Env)
    requires Alive(s) && s.state == STATE_NEW && Up(s.out.line) && Complete(request, id, options)
    requires (c.authNeed ==> env.auth.Pass?) && env.queue.None?
    ensures var t := Step(c, s, Received(0x10, Whole(ConnectBody(request)), env));
            && t.r == Aborted && NetOf(t.s).wire == NetOf(s).wire
            && t.s.events == s.events + Resumption(request, env) +
                 (if request.will.None? then [] else [Testament(request.will.value)]) + [SessionDestroyed]
  {
    var body := Whole(ConnectBody(request));
    CompleteReads(request, id, options);
    ConnectIs(c, s, 0x10, body, env, request, |ConnectBody(request)|);
    HeardKeeps(s, ProtocolAfter(0x10, body, s.terms.protocol), KeepaliveAfter(0x10, body, s.terms.keepalive));
    RequestUnqueued(c, Heard(s, 0x10, body), request, id, env);
  }

  lemma RequestUnqueued(c: Settings, s: Session, request: Request, id: Text, env: Env)
    requires Alive(s) && s.state == STATE_NEW && ClientOf(request) == Some(id)
    requires (c.authNeed ==> env.auth.Pass?) && env.queue.None?
    ensures var t := Settled(Judged(c, s, request, env));
            && t.r == Aborted && NetOf(t.s).wire == NetOf(s).wire
            && t.s.events == s.events + Resumption(request, env) +
                 (if request.will.None? then [] else [Testament(request.will.value)]) + [SessionDestroyed]
  {
  }

  lemma RejectedFrom(c: Settings, s: Session, command: byte, body: Slice, env: Env, request: Request, pos: nat)
    requires Alive(s) && s.state == STATE_NEW && Up(s.out.line) && command / 16 == 0x1
    requires ParseConnect(command, body) == Read(request, pos)
    requires ClientOf(request).None? || (c.authNeed && !env.auth.Pass?)
    ensures TurnedDown(s, Step(c, s, Received(command, body, env)),
                       if ClientOf(request).Some? && env.auth.Unauthorized? then [0x20, 2, 0, 5] else [])
  {
    ConnectIs(c, s, command, body, env, request, pos);
    HeardKeeps(s, ProtocolAfter(command, body, s.terms.protocol), KeepaliveAfter(command, body, s.terms.keepalive));
    RequestRejected(c, Heard(s, command, body), request, env);
  }

  lemma RequestRejected(c: Settings, s: Session, request: Request, env: Env)
    requires Alive(s) && s.state == STATE_NEW && Up(s.out.line)
    requires ClientOf(request).None? || (c.authNeed && !env.auth.Pass?)
    ensures TurnedDown(s, Settled(Judged(c, s, request, env)),
                       if ClientOf(request).Some? && env.auth.Unauthorized? then [0x20, 2, 0, 5] else [])
  {
    JudgedAdds(c, s, request, 0, env);
  }

  // ---------------------------------------------------------------- the will

  /** The will stays as it is for as long as the session is connected. */
  lemma StepWill(c: Settings, s: Session, input: Input)
    requires Alive(s) && s.state == STATE_CONNECTED
    ensures var t := Step(c, s, input);
            && (t.r == Exhausted || t.r == Aborted ==> t.s.terms.will == s.terms.will)
            && (t.r == Exhausted ==> t.s.state == STATE_CONNECTED)
  {
    StepEndsIff(c, s, input);
    if input.Available? { NotifiedKeeps(s, input.fromList, input.fromQueue); }
  }

  lemma {:induction false} RunWill(c: Settings, s: Session, inputs: seq<Input>)
    requires Alive(s) && s.state == STATE_CONNECTED && Run(c, s, inputs).r == Aborted
    ensures Run(c, s, inputs).s.terms.will == s.terms.will
    decreases |inputs|
  {
    var t := Step(c, s, inputs[0]);
    StepWill(c, s, inputs[0]);
    StepKeeps(c, s, inputs[0]);
    if t.r == Exhausted { RunWill(c, t.s, inputs[1..]); }
  }

  /** The last two events publish this will and end the session. */
  predicate LeftWill(events: seq<Notice>, w: Message) {
    var n := |events|;
    && n >= 2 && events[n - 1] == SessionDestroyed
    && events[n - 2].Published? && events[n - 2].will
    && events[n - 2].topic == w.topic && events[n - 2].qos == w.qos
    && events[n - 2].retain == w.retain && events[n - 2].payload == w.payload
  }

  lemma AbortLeavesWill(c: Settings, s: Session, inputs: seq<Input>)
    requires Alive(s) && s.state == STATE_CONNECTED && s.terms.will.Some? && Run(c, s, inputs).r == Aborted
    ensures LeftWill(Run(c, s, inputs).s.events, s.terms.will.value)
  {
    RunRests(c, s, inputs);
    RunWill(c, s, inputs);
    EndedLeaves(Run(c, s, inputs).s);
  }

  lemma EndedLeaves(s: Session)
    requires Ended(s, true) && s.terms.will.Some?
    ensures LeftWill(s.events, s.terms.will.value)
  {
    var tail := Farewell(true, s.terms.will);
    var n := |s.events| - |tail|;
    assert s.events[n..][0] == s.events[n] && s.events[n..][1] == s.events[n + 1];
  }

  /** Over any connection: when a session that was accepted with a will ends in an error, topic, qos, retain flag
      and payload of that will are published, just before the end. */
  lemma WillOfConnect(c: Settings, s: Session, request: Request, id: Text, options: Text, env: Env, inputs: seq<Input>)
    requires Alive(s) && s.state == STATE_NEW && Complete(request, id, options) && request.will.Some?
    requires (c.authNeed ==> env.auth.Pass?) && env.queue.Some?
    requires Run(c, s, [Received(0x10, Whole(ConnectBody(request)), env)] + inputs).r == Aborted
    ensures LeftWill(Run(c, s, [Received(0x10, Whole(ConnectBody(request)), env)] + inputs).s.events, request.will.value)
  {
    var first := Received(0x10, Whole(ConnectBody(request)), env);
    var t := Step(c, s, first);
    ConnectAccepted(c, s, request, id, options, env);
    NoErrorOnAccept(c, s, request, id, options, env);
    StepKeeps(c, s, first);
    assert ([first] + inputs)[1..] == inputs;
    RunCons(c, s, first, inputs);
    AbortLeavesWill(c, t.s, inputs);
  }

  lemma NoErrorOnAccept(c: Settings, s: Session, request: Request, id: Text, options: Text, env: Env)
    requires Alive(s) && s.state == STATE_NEW && Complete(request, id, options)
    requires (c.authNeed ==> env.auth.Pass?) && env.queue.Some?
    ensures Step(c, s, Received(0x10, Whole(ConnectBody(request)), env)).r != Aborted
  {
    CompleteReads(request, id, options);
    StepEndsIff(c, s, Received(0x10, Whole(ConnectBody(request)), env));
  }
}
