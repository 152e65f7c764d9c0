/** The session object of broker/mqtt/mqtt_session.go: its packet handlers and its main loop, each proved
    against the model of the session as a value. */
module Sessions {
  import opened Base
  import opened Codec
  import opened Packets
  import opened PacketObject
  import opened Connects
  import opened Options
  import opened Connection
  import opened TransientLists
  import opened Queues
  import opened Outbound
  import opened SessionModel

  class MqttSession {
    const conn: Conn
    const settings: Settings
    var protocol: nat
    var sessionState: nat
    var willMsg: Option<Message>
    var clientId: Text
    var cleanSession: nat
    var keepalive: nat
    var queue: MessageQueue?
    var nextPacketId: nat
    var events: seq<Notice>
    var channelCloses: nat
    ghost var states: seq<nat>
    ghost var log: seq<Sent>

    ghost predicate Valid()
      reads this`nextPacketId, this`queue, queue, if queue == null then {} else {queue.list}
    {
      nextPacketId < 65536 && (queue != null ==> queue.list.Valid() && !queue.closed)
    }

    ghost function LineView(): Line
      reads this`nextPacketId, this`log, conn
    {
      Line(nextPacketId, log, conn.View())
    }

    ghost function OutView(): OutState
      requires Valid()
      reads this`nextPacketId, this`log, this`queue, conn, queue, if queue == null then {} else {queue.list}
    {
      if queue == null then OutState([], FRESH, LineView()) else OutState(queue.buffer, queue.list.View(), LineView())
    }

    ghost function TermsView(): Terms
      reads this`protocol, this`willMsg, this`clientId, this`cleanSession, this`keepalive
    {
      Terms(protocol, willMsg, clientId, cleanSession, keepalive)
    }

    ghost function View(): Session
      requires Valid()
      reads this, conn, queue, if queue == null then {} else {queue.list}
    {
      Session(sessionState, states, channelCloses, TermsView(), queue != null, OutView(), events)
    }

    constructor (conn: Conn, settings: Settings)
      ensures this.conn == conn && this.settings == settings
      ensures Valid() && View() == NewSession(conn.View())
    {
      this.conn, this.settings := conn, settings;
      protocol, sessionState, willMsg, clientId, cleanSession, keepalive := 0, STATE_NEW, None, [], 0, 0;
      queue, nextPacketId, events, channelCloses, states, log := null, 0, [], 0, [STATE_NEW], [];
    }

    // -------------------------------------------------------------- sending

    method MakePacketId() returns (pid: nat)
      requires nextPacketId < 65536
      modifies this`nextPacketId
      ensures pid == IdAt(old(nextPacketId)) && nextPacketId == NextAfter(old(nextPacketId)) && nextPacketId < 65536
    {
      if nextPacketId < 65535 {
        pid := nextPacketId;
        nextPacketId := nextPacketId + 1;
        return;
      }
      nextPacketId := 0;
      pid := nextPacketId;
    }

    /** An oversized message is dropped without a trace while the call reports success. */
    method SendPublish(msg: Message) returns (ok: bool)
      requires nextPacketId < 65536
      modifies conn, this`nextPacketId, this`log
      ensures nextPacketId < 65536
      ensures LineView() == SendOne(old(LineView()), msg) && ok == Leaves(old(LineView()), msg)
    {
      var pid := 0;
      if msg.qos > 0 {
        pid := MakePacketId();
      }
      var packet := BuildPublish(msg, pid);
      ok := conn.WritePacket(packet);
      log := log + [Sent(msg, pid, ok)];
    }

    method BuildPublish(msg: Message, pid: nat) returns (packet: Packet)
      requires pid < 65536
      ensures fresh(packet) && fresh(packet.payload) && packet.length == packet.payload.Length
      ensures packet.payload[..] == PublishFrame(msg, pid)
    {
      packet := new Packet();
      packet.command := PUBLISH;
      packet.qos := msg.qos;
      packet.dup := msg.dup;
      packet.remainingLength := 2 + |msg.topic| + |msg.payload|;
      if msg.qos > 0 {
        packet.remainingLength := packet.remainingLength + 2;
      }
      assert |PublishBody(msg, pid)| == packet.remainingLength;
      var ok := packet.InitializePacket();
      FillPublish(packet, msg, pid);
      assert ok ==> packet.Written() == PublishFrame(msg, pid);
      assert packet.payload[..packet.pos] == packet.payload[..];
    }

    /** The writers fill the rest of the buffer exactly, or do nothing when it was never allocated. */
    method FillPublish(packet: Packet, msg: Message, pid: nat)
      requires pid < 65536 && packet.Writable()
      requires packet.length == 0 || packet.length == packet.pos + |PublishBody(msg, pid)|
      modifies packet`pos, packet.payload
      ensures packet.Writable() && packet.pos == packet.length
      ensures packet.Written() == if packet.length == 0 then [] else old(packet.Written()) + PublishBody(msg, pid)
    {
      ghost var start, there := packet.Written(), packet.length > 0;
      ghost var topic, id := WrittenString(msg.topic), if msg.qos > 0 then WrittenUint16(pid) else [];
      var _ := packet.WriteString(msg.topic);
      assert there ==> packet.Written() == start + topic;
      if msg.qos > 0 {
        var _ := packet.WriteUint16(pid);
        assert WrittenUint16(pid)[..2] == WrittenUint16(pid);
      }
      assert there ==> packet.Written() == start + topic + id;
      var _ := packet.WriteBytes(msg.payload);
      assert start + topic + id + msg.payload == start + (topic + id + msg.payload);
    }

    /** PUBACK, PUBCOMP and UNSUBACK: two identifier bytes in full. */
    method SendCommandWithPacketId(command: byte, pid: nat) returns (ok: bool)
      requires pid < 65536
      modifies conn
      ensures conn.View() == Carried(old(conn.View()), AckFrame(command, pid))
      ensures ok == Goes(old(conn.View()), AckFrame(command, pid))
    {
      var packet := new Packet();
      packet.command := command;
      packet.remainingLength := 2;
      EncodeRefuses(2);
      var _ := packet.InitializePacket();
      packet.payload[packet.pos + 0] := (pid / 256 % 256) as byte;
      packet.payload[packet.pos + 1] := (pid % 256) as byte;
      assert packet.payload[..] == packet.payload[..packet.pos] + FullUint16(pid);
      ok := conn.WritePacket(packet);
    }

    method SendConnAck(ack: byte, result: byte)
      modifies conn
      ensures conn.View() == Carried(old(conn.View()), Frame(CONNACK, [ack, result]))
    {
      var packet := new Packet();
      packet.command := CONNACK;
      packet.remainingLength := 2;
      EncodeRefuses(2);
      var _ := packet.InitializePacket();
      packet.payload[packet.pos + 0] := ack;
      packet.payload[packet.pos + 1] := result;
      assert packet.payload[..] == packet.payload[..packet.pos] + [ack, result];
      var _ := conn.WritePacket(packet);
    }

    method SendSubAck(pid: nat, codes: seq<byte>) returns (ok: bool)
      requires pid < 65536
      modifies conn
      ensures conn.View() == Carried(old(conn.View()), SubAckFrame(pid, codes))
      ensures ok == Goes(old(conn.View()), SubAckFrame(pid, codes))
    {
      var packet := BuildSubAck(pid, codes);
      ok := conn.WritePacket(packet);
    }

    method BuildSubAck(pid: nat, codes: seq<byte>) returns (packet: Packet)
      requires pid < 65536
      ensures fresh(packet) && fresh(packet.payload) && packet.length == packet.payload.Length
      ensures packet.payload[..] == SubAckFrame(pid, codes)
    {
      packet := new Packet();
      packet.command := SUBACK;
      packet.remainingLength := 2 + |codes|;
      var ok := packet.InitializePacket();
      FillSubAck(packet, pid, codes);
      assert ok ==> packet.Written() == SubAckFrame(pid, codes);
      assert packet.payload[..packet.pos] == packet.payload[..];
    }

    method FillSubAck(packet: Packet, pid: nat, codes: seq<byte>)
      requires pid < 65536 && packet.Writable()
      requires packet.length == 0 || packet.length == packet.pos + 2 + |codes|
      modifies packet`pos, packet.payload
      ensures packet.Writable() && packet.pos == packet.length
      ensures packet.Written() == if packet.length == 0 then [] else old(packet.Written()) + (WrittenUint16(pid) + codes)
    {
      var _ := packet.WriteUint16(pid);
      assert WrittenUint16(pid)[..2] == WrittenUint16(pid);
      if |codes| > 0 {
        var _ := packet.WriteBytes(codes);
      }
    }

    method SendPingResp() returns (ok: bool)
      modifies conn
      ensures conn.View() == Carried(old(conn.View()), PING_REPLY.bytes) && ok == Goes(old(conn.View()), PING_REPLY.bytes)
    {
      var packet := new Packet();
      packet.command := PINGRESP;
      packet.remainingLength := 1;
      EncodeRefuses(1);
      assert LengthBytes(1) == [1];
      var _ := packet.InitializePacket();
      assert packet.Written() == [PINGRESP, 1] && packet.payload[2] == 0;
      assert packet.payload[..] == [PINGRESP, 1, 0];
      ok := conn.WritePacket(packet);
    }

    // -------------------------------------------------------------- delivery and acknowledgement

    /** Failing writes are ignored here. */
    method ResendList()
      requires Valid() && queue != null
      modifies conn, this`nextPacketId, this`log
      ensures Valid() && OutView() == Resent(old(OutView()), true)
    {
      ghost var contents := queue.list.Contents();
      var i := 0;
      while i < queue.list.Length()
        invariant Valid() && 0 <= i <= |contents| && contents == queue.list.Contents()
        invariant ResendAll(LineView(), contents[i..]) == ResendAll(old(LineView()), contents)
        decreases queue.list.Length() - i
      {
        assert contents[i..][1..] == contents[i + 1..];
        var msg := queue.list.Get(i);
        if msg.Some? {
          var _ := SendPublish(msg.value);
        }
        i := i + 1;
      }
    }

    method FlushQueue() returns (r: Outcome)
      requires Valid() && queue != null
      modifies conn, this`nextPacketId, this`log, queue`buffer, queue.list
      ensures Valid() && Progress(OutView(), r) == Flush(old(OutView()))
    {
      while queue.buffer != []
        invariant Valid() && Flush(OutView()) == Flush(old(OutView()))
        decreases Effort(OutView())
      {
        FlushUnfolds(OutView());
        r := FlushFront();
        if r != Fine {
          return;
        }
      }
      return Fine;
    }

    /** One round. The source repeats it for as long as the head of the queue cannot be written; where that
        is for ever, the model stops with Hang. */
    method FlushFront() returns (r: Outcome)
      requires Valid() && queue != null && queue.buffer != []
      modifies conn, this`nextPacketId, this`log, queue`buffer, queue.list
      ensures Valid() && Progress(OutView(), r) == FlushOne(old(OutView()))
    {
      var msg := queue.buffer[0];
      var lost := conn.script == [] && conn.dead;
      var ok := SendPublish(msg);
      if !ok {
        return if lost then Hang else Fine;
      }
      var _, _ := queue.TryPop();
      if msg.qos == 1 {
        var room := queue.list.Pushback(msg.(dup := true));
        return if room then Fine else Panic;
      }
      return Fine;
    }

    /** Resends the retained messages and drains the queue, exactly as the delivery model says. */
    method HandleDataAvailable(fromList: bool, fromQueue: bool) returns (r: Outcome)
      requires Valid() && queue != null
      modifies conn, this`nextPacketId, this`log, queue`buffer, queue.list
      ensures Valid() && Progress(OutView(), r) == OutStep(old(OutView()), Notify(fromList, fromQueue))
    {
      if fromList {
        ResendList();
      }
      if fromQueue {
        r := FlushQueue();
        return;
      }
      return Fine;
    }

    method HandlePubAck(packet: Packet) returns (r: Outcome)
      requires Valid() && packet.Backed() && packet.pos == 0
      modifies packet`pos, if queue == null then {} else {queue.list}
      ensures Valid() && Done(View(), r) == OnPubAck(old(View()), packet.Body())
    {
      if packet.remainingLength != 2 {
        return Error;
      }
      var pid := packet.ReadUint16();
      if !pid.Got? || queue == null {
        return Panic;
      }
      queue.list.Remove(pid.value);
      return Fine;
    }

    // -------------------------------------------------------------- packets from the client

    /** The events have been said and the answer has been written, as far as the connection let it. */
    twostate predicate Answered(reply: Reply, r: Outcome)
      reads this`events, conn
    {
      && events == old(events) + reply.notices
      && conn.View() == Carried(old(conn.View()), if reply.verdict == Fine then reply.bytes else [])
      && r == if reply.verdict == Fine && !Goes(old(conn.View()), reply.bytes) then Error else reply.verdict
    }

    method HandlePublish(packet: Packet, acl: bool) returns (r: Outcome)
      requires packet.Backed() && packet.pos == 0
      modifies packet`pos, conn, this`events
      ensures Answered(PublishReply(packet.command, packet.Body(), acl, settings.limit), r)
    {
      var p := TakePublish(packet);
      if !p.Got? {
        return OutcomeOf(p);
      }
      if !acl || p.value.qos == 2 {
        return Error;
      }
      events := events + [Published(p.value.topic, p.value.qos, p.value.retain, p.value.payload, false)];
      if p.value.qos == 1 {
        var ok := SendCommandWithPacketId(PUBACK, p.value.pid);
        return if ok then Fine else Error;
      }
      return Fine;
    }

    /** The parsing part of handlePublish. */
    method TakePublish(packet: Packet) returns (r: Got<Publish>)
      requires packet.Backed() && packet.pos == 0
      modifies packet`pos
      ensures r == ParsePublish(packet.command, packet.Body(), settings.limit)
      ensures r.Got? ==> r.value.qos <= 2 && r.value.pid < 65536
    {
      var c := packet.command as nat;
      var qos := c / 2 % 4;
      if qos > 2 {
        return Bad;
      }
      var topic := packet.ReadString();
      if !topic.Got? {
        return Missed(topic);
      }
      var pid := 0;
      if qos > 0 {
        var id := packet.ReadUint16();
        if !id.Got? {
          return Missed(id);
        }
        pid := id.value;
      }
      var payload := TakePayload(packet);
      if !payload.Got? {
        return Missed(payload);
      }
      r := Got(Publish(topic.value, c / 8 % 2 == 1, qos, c % 2 == 1, pid, payload.value));
    }

    /** The rest of the body, unless it is larger than the configured size. */
    method TakePayload(packet: Packet) returns (r: Got<seq<byte>>)
      requires packet.Backed()
      modifies packet`pos
      ensures r == GetRest(packet.Body(), old(packet.pos), settings.limit)
    {
      if packet.remainingLength > packet.pos {
        if packet.remainingLength - packet.pos > settings.limit {
          return Bad;
        }
        r := packet.ReadBytes(packet.remainingLength - packet.pos);
        return;
      }
      r := Got([]);
    }

    /** A packet as the reader goroutine hands it over. */
    method Load(command: byte, body: Slice) returns (packet: Packet)
      ensures fresh(packet) && packet.Backed() && packet.pos == 0
      ensures packet.command == command && packet.Body() == body
    {
      packet := new Packet();
      packet.command := command;
      packet.remainingLength := body.promised;
      packet.payload := new byte[|body.store|](i requires 0 <= i < |body.store| => body.store[i]);
      packet.visible := body.visible;
      assert packet.payload[..] == body.store;
    }

    /** One filter of a SUBSCRIBE: the position moves by at least three bytes or an error is returned. */
    method TakeFilter(packet: Packet) returns (f: Got<Filter>)
      requires packet.Backed()
      modifies packet`pos
      ensures f == ReadFilter(packet.Body(), old(packet.pos))
      ensures f.Got? ==>
                f.value.qos <= 2 && packet.pos == After(f.value, old(packet.pos)) && old(packet.pos) + 3 <= packet.pos
    {
      var topic := packet.ReadString();
      if !topic.Got? {
        return Missed(topic);
      }
      var qos := packet.ReadByte();
      if !qos.Got? {
        return Missed(qos);
      }
      if qos.value > 2 {
        return Bad;
      }
      f := Got(Filter(topic.value, qos.value as nat));
    }

    method HandleSubscribe(packet: Packet) returns (r: Outcome)
      requires packet.Backed() && packet.pos == 0
      modifies packet`pos, conn, this`events
      ensures Answered(SubscribeReply(protocol, packet.command, packet.Body()), r)
    {
      if protocol == PROTOCOL_311 && packet.command % 16 != 2 {
        return Error;
      }
      var pid := packet.ReadUint16();
      if !pid.Got? {
        return OutcomeOf(pid);
      }
      var codes, end := TakeFilters(packet);
      if end != Fine {
        return end;
      }
      if protocol == PROTOCOL_311 && |codes| == 0 {
        return Error;
      }
      var ok := SendSubAck(pid.value, codes);
      return if ok then Fine else Error;
    }

    /** The filter loop: notifies as it goes and collects the return codes. */
    method TakeFilters(packet: Packet) returns (codes: seq<byte>, end: Outcome)
      requires packet.Backed()
      modifies packet`pos, this`events
      ensures var f := ParseFilters(packet.Body(), old(packet.pos));
              end == f.end && events == old(events) + SubscribeNotices(f.list) && (end == Fine ==> codes == QosBytes(f.list))
    {
      ghost var whole := ParseFilters(packet.Body(), packet.pos);
      ghost var done: seq<Filter> := [];
      codes := [];
      while packet.pos < packet.remainingLength
        invariant packet.Backed()
        invariant events == old(events) + SubscribeNotices(done) && codes == QosBytes(done)
        invariant FilterProgress(whole, packet.Body(), packet.pos, done)
        decreases packet.remainingLength - packet.pos
      {
        FilterNext(whole, packet.Body(), packet.pos, done);
        var f := TakeFilter(packet);
        if !f.Got? {
          return codes, OutcomeOf(f);
        }
        FilterListsNext(done, f.value);
        events := events + [Subscribed(f.value.topic, f.value.qos)];
        codes := codes + [f.value.qos as byte];
        done := done + [f.value];
      }
      FilterNext(whole, packet.Body(), packet.pos, done);
      return codes, Fine;
    }

    method HandleUnsubscribe(packet: Packet) returns (r: Outcome)
      requires packet.Backed() && packet.pos == 0
      modifies packet`pos, conn, this`events
      ensures Answered(UnsubscribeReply(protocol, packet.command, packet.Body()), r)
    {
      if protocol == PROTOCOL_311 && packet.command % 16 != 2 {
        return Error;
      }
      var pid := packet.ReadUint16();
      if !pid.Got? {
        return OutcomeOf(pid);
      }
      var end := TakeTopics(packet);
      if end != Fine {
        return end;
      }
      var ok := SendCommandWithPacketId(UNSUBACK, pid.value);
      return if ok then Fine else Error;
    }

    /** The topic loop: notifies as it goes. */
    method TakeTopics(packet: Packet) returns (end: Outcome)
      requires packet.Backed()
      modifies packet`pos, this`events
      ensures var t := ParseTopics(packet.Body(), old(packet.pos));
              end == t.end && events == old(events) + UnsubscribeNotices(t.list)
    {
      ghost var whole := ParseTopics(packet.Body(), packet.pos);
      ghost var done: seq<Text> := [];
      while packet.pos < packet.remainingLength
        invariant packet.Backed()
        invariant events == old(events) + UnsubscribeNotices(done)
        invariant TopicProgress(whole, packet.Body(), packet.pos, done)
        decreases packet.remainingLength - packet.pos
      {
        end, done := TakeTopic(packet, whole, done, old(events));
        if end != Fine {
          return;
        }
      }
      TopicNext(whole, packet.Body(), packet.pos, done);
      return Fine;
    }

    method TakeTopic(packet: Packet, ghost whole: Topics, ghost done: seq<Text>, ghost said: seq<Notice>)
      returns (end: Outcome, ghost now: seq<Text>)
      requires packet.Backed() && packet.pos < packet.remainingLength
      requires events == said + UnsubscribeNotices(done) && TopicProgress(whole, packet.Body(), packet.pos, done)
      modifies packet`pos, this`events
      ensures events == said + UnsubscribeNotices(now)
      ensures end == Fine ==> packet.pos > old(packet.pos) && TopicProgress(whole, packet.Body(), packet.pos, now)
      ensures end != Fine ==> whole == Topics(now, end)
    {
      TopicNext(whole, packet.Body(), packet.pos, done);
      var topic := packet.ReadString();
      if !topic.Got? {
        return OutcomeOf(topic), done;
      }
      TopicListsNext(done, topic.value);
      events := events + [Unsubscribed(topic.value)];
      return Fine, done + [topic.value];
    }

    method HandlePubRel(packet: Packet) returns (r: Outcome)
      requires packet.Backed() && packet.pos == 0
      modifies packet`pos, conn
      ensures Answered(PubRelReply(protocol, packet.command, packet.Body()), r)
    {
      if protocol == PROTOCOL_311 && packet.command % 16 != 2 {
        return Error;
      }
      var pid := packet.ReadUint16();
      if !pid.Got? {
        return OutcomeOf(pid);
      }
      var ok := SendCommandWithPacketId(PUBCOMP, pid.value);
      return if ok then Fine else Error;
    }

    method HandlePingReq() returns (r: Outcome)
      modifies conn
      ensures Answered(PING_REPLY, r)
    {
      var ok := SendPingResp();
      return if ok then Fine else Error;
    }

    // -------------------------------------------------------------- connecting and disconnecting

    method SetSessionState(state: nat)
      requires Valid()
      modifies this`sessionState, this`states
      ensures View() == Enters(old(View()), state)
    {
      sessionState := state;
      states := states + [state];
    }

    method Disconnect(error: bool)
      requires Valid()
      modifies this`events, this`sessionState, this`states, this`channelCloses
      ensures View() == Closed(old(View()), error)
    {
      if sessionState != STATE_DISCONNECTED {
        ghost var before := events;
        if error && willMsg.Some? {
          var will := willMsg.value;
          events := events + [Published(will.topic, will.qos, will.retain, will.payload, true)];
        }
        events := events + [SessionDestroyed];
        assert events == before + Farewell(error, willMsg);
        SetSessionState(STATE_DISCONNECTED);
        channelCloses := channelCloses + 1;
      }
    }

    method HandleDisconnect(packet: Packet) returns (r: Outcome)
      requires Valid()
      modifies this`willMsg, this`events, this`sessionState, this`states, this`channelCloses
      ensures Done(View(), r) == OnDisconnect(old(View()), packet.command, packet.remainingLength)
    {
      if packet.remainingLength != 0 {
        return Error;
      }
      if protocol == PROTOCOL_311 && packet.command % 16 != 0 {
        return Error;
      }
      willMsg := None;
      SetSessionState(STATE_DISCONNECTING);
      Disconnect(false);
      return Fine;
    }

    /** The parsing part of handleConnect up to the options, with the refusals it sends. */
    method TakeConnect(packet: Packet) returns (r: Reading<Request>)
      requires packet.Backed() && packet.pos == 0
      modifies packet`pos, conn, this`protocol, this`keepalive
      ensures r == ParseConnect(packet.command, packet.Body())
      ensures protocol == ProtocolAfter(packet.command, packet.Body(), old(protocol))
      ensures keepalive == KeepaliveAfter(packet.command, packet.Body(), old(keepalive))
      ensures conn.View() == Carried(old(conn.View()), RefusalBytes(r))
    {
      var pre := TakePreamble(packet);
      if pre.Refused? {
        return Refused(pre.code);
      }
      if !pre.Read? {
        return if pre.Broken? then Broken else Malformed;
      }
      r := TakeRest(packet, pre.value);
    }

    /** Protocol name and version, and the connect flags. */
    method TakePreamble(packet: Packet) returns (r: Reading<Preamble>)
      requires packet.Backed() && packet.pos == 0
      modifies packet`pos, conn, this`protocol
      ensures r == ReadPreamble(packet.command, packet.Body())
      ensures r.Read? ==> packet.pos == r.pos
      ensures protocol == ProtocolAfter(packet.command, packet.Body(), old(protocol))
      ensures conn.View() == Carried(old(conn.View()), RefusalBytes(r))
    {
      var name := packet.ReadString();
      if !name.Got? { return Unread(name); }
      var version := packet.ReadByte();
      if !version.Got? { return Unread(version); }
      var flags := packet.ReadByte();
      if !flags.Got? { return Unread(flags); }
      if name.value == NAME_31 {
        if version.value % 128 != 3 {
          SendConnAck(0, REFUSED_VERSION);
          return Refused(REFUSED_VERSION);
        }
        protocol := PROTOCOL_31;
      } else if name.value == NAME_311 {
        if version.value % 128 != 4 {
          SendConnAck(0, REFUSED_VERSION);
          return Refused(REFUSED_VERSION);
        }
        if packet.command % 16 != 0 { return Malformed; }
        protocol := PROTOCOL_311;
        if flags.value % 2 != 0 { return Malformed; }
      } else {
        return Malformed;
      }
      r := Read(Preamble(protocol, flags.value as nat), packet.pos);
    }

    method TakeRest(packet: Packet, pre: Preamble) returns (r: Reading<Request>)
      requires packet.Backed()
      modifies packet`pos, conn, this`keepalive
      ensures r == ReadRest(packet.Body(), old(packet.pos), pre)
      ensures keepalive == KeepaliveRead(packet.Body(), old(packet.pos), pre.flags, old(keepalive))
      ensures conn.View() == Carried(old(conn.View()), RefusalBytes(r))
    {
      var head := TakeHead(packet, pre.flags);
      if head.Refused? {
        return Refused(head.code);
      }
      if !head.Read? {
        return if head.Broken? then Broken else Malformed;
      }
      r := TakeTail(packet, Begun(pre, head.value), pre.flags);
    }

    /** Keep alive and client identifier. */
    method TakeHead(packet: Packet, flags: nat) returns (r: Reading<Head>)
      requires packet.Backed()
      modifies packet`pos, conn, this`keepalive
      ensures r == ReadHead(packet.Body(), old(packet.pos), flags)
      ensures r.Read? ==> packet.pos == r.pos
      ensures keepalive == KeepaliveRead(packet.Body(), old(packet.pos), flags, old(keepalive))
      ensures conn.View() == Carried(old(conn.View()), RefusalBytes(r))
    {
      if WillQos(flags) >= 3 { return Malformed; }
      if !HasWill(flags) && (WillQos(flags) != 0 || WillRetained(flags)) { return Malformed; }
      var alive := packet.ReadUint16();
      if !alive.Got? { return Unread(alive); }
      keepalive := alive.value;
      var id := packet.ReadString();
      if id.Crash? { return Broken; }
      if id.Bad? || id.value == [] {
        SendConnAck(0, REFUSED_IDENTIFIER);
        return Refused(REFUSED_IDENTIFIER);
      }
      r := Read(Head(alive.value, id.value), packet.pos);
    }

    /** The will and the login. */
    method TakeTail(packet: Packet, so: Request, flags: nat) returns (r: Reading<Request>)
      requires packet.Backed()
      modifies packet`pos, conn
      ensures r == ReadTail(packet.Body(), old(packet.pos), so, flags)
      ensures conn.View() == Carried(old(conn.View()), RefusalBytes(r))
    {
      var will := TakeWill(packet, flags);
      if !will.Read? {
        return if will.Broken? then Broken else Malformed;
      }
      var login := TakeLogin(packet, flags);
      if login.Broken? {
        return Broken;
      }
      if !login.Read? {
        SendConnAck(0, REFUSED_LOGIN);
        return Refused(REFUSED_LOGIN);
      }
      var username, password := Some(login.value.username), Some(login.value.password);
      r := Read(so.(will := will.value, username := username, password := password), packet.pos);
    }

    method TakeWill(packet: Packet, flags: nat) returns (r: Reading<Option<Message>>)
      requires packet.Backed()
      modifies packet`pos
      ensures r == ReadWill(packet.Body(), old(packet.pos), flags) && !r.Refused?
      ensures r.Read? ==> packet.pos == r.pos
    {
      if !HasWill(flags) {
        return Read(None, packet.pos);
      }
      var topic := packet.ReadString();
      if !topic.Got? { return Unread(topic); }
      if topic.value == [] { return Malformed; }
      var payload := TakeBlock(packet);
      if !payload.Got? { return Unread(payload); }
      r := Read(Some(WillMessage(topic.value, WillQos(flags), WillRetained(flags), payload.value)), packet.pos);
    }

    /** A length and as many bytes: the same as a string. */
    method TakeBlock(packet: Packet) returns (r: Got<seq<byte>>)
      requires packet.Backed()
      modifies packet`pos
      ensures r == GetString(packet.Body(), old(packet.pos))
      ensures r.Got? ==> packet.pos == old(packet.pos) + 2 + |r.value|
    {
      var n := packet.ReadUint16();
      if !n.Got? { return Missed(n); }
      if n.value > 0 {
        r := packet.ReadBytes(n.value);
        return;
      }
      assert packet.Body().store[packet.pos..packet.pos] == [];
      r := Got([]);
    }

    method TakeLogin(packet: Packet, flags: nat) returns (r: Reading<Login>)
      requires packet.Backed()
      modifies packet`pos
      ensures r == ReadLogin(packet.Body(), old(packet.pos), flags) && !r.Malformed?
      ensures r.Read? ==> packet.pos == r.pos
    {
      if !HasLogin(flags) {
        return Refused(REFUSED_LOGIN);
      }
      var username := packet.ReadString();
      if username.Crash? { return Broken; }
      var password := packet.ReadString();
      if password.Crash? { return Broken; }
      if username.Bad? || password.Bad? {
        return Refused(REFUSED_LOGIN);
      }
      r := Read(Login(username.value, password.value), packet.pos);
    }

    method HandleConnect(packet: Packet, env: Env) returns (r: Outcome)
      requires Valid() && packet.Backed() && packet.pos == 0 && (sessionState == STATE_NEW ==> queue == null)
      modifies packet`pos, this, conn
      ensures Valid() && Done(View(), r) == OnConnect(settings, old(View()), packet.command, packet.Body(), env)
      ensures queue == old(queue) || (fresh(queue) && fresh(queue.list))
    {
      if sessionState != STATE_NEW {
        return Error;
      }
      var request := TakeConnect(packet);
      ghost var heard := Heard(old(View()), packet.command, packet.Body());
      assert View() == Sends(heard, RefusalBytes(request));
      assert request.Read? ==> protocol == request.value.protocol by {
        ProtocolRead(packet.command, packet.Body(), old(protocol));
      }
      r := Consider(request, env, heard);
    }

    method Consider(request: Reading<Request>, env: Env, ghost heard: Session) returns (r: Outcome)
      requires Valid() && View() == Sends(heard, RefusalBytes(request)) && queue == null
      requires request.Read? ==> protocol == request.value.protocol
      modifies this, conn
      ensures Valid() && Done(View(), r) == Considered(settings, heard, request, env)
      ensures queue == null || (fresh(queue) && fresh(queue.list))
    {
      if !request.Read? {
        return if request.Broken? then Panic else Error;
      }
      r := Judge(request.value, env);
    }

    /** The request options and the authentication, and what follows when they pass. */
    method Judge(request: Request, env: Env) returns (r: Outcome)
      requires Valid() && protocol == request.protocol && queue == null
      modifies this, conn
      ensures Valid() && Done(View(), r) == Judged(settings, old(View()), request, env)
      ensures queue == null || (fresh(queue) && fresh(queue.list))
    {
      if request.username.None? {
        return Error;
      }
      var ctx := ParseRequestOptions(request.rawId, request.username.value);
      if ctx.None? {
        return Error;
      }
      if settings.authNeed && !env.auth.Pass? {
        if env.auth.Unauthorized? {
          SendConnAck(0, REFUSED_AUTHORIZATION);
        }
        Disconnect(true);
        return Error;
      }
      r := Admit(request, ctx.value.clientId, env);
    }

    method Admit(request: Request, client: Text, env: Env) returns (r: Outcome)
      requires Valid() && protocol == request.protocol && queue == null
      modifies this, conn
      ensures Valid() && Done(View(), r) == Admitted(old(View()), request, client, env)
      ensures queue == null || (fresh(queue) && fresh(queue.list))
    {
      var conack := Resume(request, client, env);
      if env.queue.None? {
        return Error;
      }
      Start(env.queue.value, conack);
      r := HandleDataAvailable(true, true);
    }

    /** Looks for a session of the same client and takes over what the request says. */
    method Resume(request: Request, client: Text, env: Env) returns (conack: byte)
      requires Valid() && protocol == request.protocol
      modifies this`clientId, this`events, this`willMsg, this`cleanSession
      ensures View() == Resumed(old(View()), request, client, env) && conack == SessionPresent(request, env)
    {
      clientId := client;
      conack := 0;
      if request.cleanSession == 0 && env.known.Some? {
        if protocol == PROTOCOL_311 {
          conack := 1;
        }
        if env.known.value {
          events := events + [SessionResumed];
        }
      }
      willMsg := request.will;
      cleanSession := request.cleanSession;
    }

    /** Takes the queue, answers the client and announces the session. The answer may get lost. */
    method Start(w: Waiting, conack: byte)
      requires Valid()
      modifies this`queue, this`sessionState, this`states, this`events, conn
      ensures Valid() && queue != null && fresh(queue) && fresh(queue.list)
      ensures View() == Started(old(View()), w, conack, cleanSession == 0)
    {
      queue := new MessageQueue.Holding(clientId, w.buffer, w.shelf);
      SetSessionState(STATE_CONNECTED);
      SendConnAck(conack, 0);
      events := events + [SessionCreated(cleanSession == 0)];
    }

    // -------------------------------------------------------------- the main loop

    /** No state is checked here: every packet but CONNECT is handled before CONNECT too. */
    method HandleMqttPacket(packet: Packet, env: Env) returns (r: Outcome)
      requires Valid() && packet.Backed() && packet.pos == 0 && (sessionState == STATE_NEW ==> queue == null)
      modifies packet`pos, this, conn, if queue == null then {} else {queue.list}
      ensures Valid() && Done(View(), r) == OnPacket(settings, old(View()), packet.command, packet.Body(), env)
      ensures queue == old(queue) || (fresh(queue) && fresh(queue.list))
    {
      var kind := packet.command / 16;
      if kind == 0x1 {
        r := HandleConnect(packet, env);
      } else if kind == 0xE {
        r := HandleDisconnect(packet);
      } else if kind == 0x4 {
        r := HandlePubAck(packet);
      } else {
        r := HandleRequest(packet, kind, env.acl);
      }
    }

    /** The packets that call for nothing but events and an answer. */
    method HandleRequest(packet: Packet, kind: byte, acl: bool) returns (r: Outcome)
      requires Valid() && packet.Backed() && packet.pos == 0
      requires kind == packet.command / 16 && kind != 0x1 && kind != 0xE && kind != 0x4
      modifies packet`pos, conn, this`events
      ensures Done(View(), r) ==
              Replied(old(View()), ReplyTo(protocol, settings.limit, packet.command, packet.Body(), acl))
    {
      if kind == 0xC {
        r := HandlePingReq();
      } else if kind == 0x3 {
        r := HandlePublish(packet, acl);
      } else if kind == 0x6 {
        r := HandlePubRel(packet);
      } else if kind == 0x8 {
        r := HandleSubscribe(packet);
      } else if kind == 0xA {
        r := HandleUnsubscribe(packet);
      } else {
        r := Error;
      }
    }

    method HandleInput(input: Input) returns (r: Outcome)
      requires Valid() && (sessionState == STATE_NEW ==> queue == null)
      modifies this, conn, if queue == null then {} else {queue, queue.list}
      ensures Valid() && Done(View(), r) == OnInput(settings, old(View()), input)
      ensures queue == old(queue) || (fresh(queue) && fresh(queue.list))
    {
      match input
      case ReadFailed =>
        return Error;
      case Arrived(msg) =>
        if queue != null {
          queue.Pushback(msg);
        }
        return Fine;
      case Available(fromList, fromQueue) =>
        if queue == null {
          return Panic;
        }
        r := HandleDataAvailable(fromList, fromQueue);
      case Received(command, body, env) =>
        var packet := Load(command, body);
        r := HandleMqttPacket(packet, env);
    }

    /** The end of a round. */
    method Settle(out: Outcome) returns (r: RunResult)
      requires Valid()
      modifies this`events, this`sessionState, this`states, this`channelCloses
      ensures Stepped(View(), r) == Settled(Done(old(View()), out))
    {
      if out == Panic {
        return Crashed;
      }
      if out == Hang {
        return Stuck;
      }
      if out == Error {
        Disconnect(true);
        return Aborted;
      }
      if sessionState == STATE_DISCONNECTED {
        return Finished;
      }
      return Exhausted;
    }

    /** One round of the loop. */
    method HandleNext(input: Input) returns (r: RunResult)
      requires Valid() && (sessionState == STATE_NEW ==> queue == null)
      modifies this, conn, if queue == null then {} else {queue, queue.list}
      ensures Valid() && (sessionState == STATE_NEW ==> queue == null)
      ensures Stepped(View(), r) == Step(settings, old(View()), input)
      ensures queue == old(queue) || (fresh(queue) && fresh(queue.list))
    {
      StepNew(settings, View(), input);
      var out := HandleInput(input);
      r := Settle(out);
    }

    /** The main loop over any sequence of inputs, any answers of the services around it and any behaviour of
        the connection: session, result and number of inputs taken are those of the model's run. */
    method Handle(inputs: seq<Input>) returns (r: RunResult, used: nat)
      requires Valid() && (sessionState == STATE_NEW ==> queue == null)
      modifies this, conn, if queue == null then {} else {queue, queue.list}
      ensures Valid() && Ran(View(), r, used) == Run(settings, old(View()), inputs)
    {
      used := 0;
      RunStarts(settings, View(), inputs);
      while used < |inputs|
        invariant 0 <= used <= |inputs| && Valid() && (sessionState == STATE_NEW ==> queue == null)
        invariant queue == old(queue) || (fresh(queue) && fresh(queue.list))
        invariant GoesOn(settings, old(View()), inputs, used, View())
      {
        ghost var before := View();
        r := HandleNext(inputs[used]);
        RunNext(settings, old(View()), inputs, used, before, Stepped(View(), r));
        used := used + 1;
        if r != Exhausted {
          return;
        }
      }
      r := Exhausted;
    }
  }

  lemma FlushUnfolds(s: OutState)
    requires s.queued != []
    ensures var t := FlushOne(s);
            if t.outcome != Fine then Flush(s) == t else Flush(s) == Flush(t.s) && Effort(t.s) < Effort(s)
  {
    if FlushOne(s).outcome == Fine { FlushOneShrinks(s); }
  }

  /** After `i` inputs the run has brought the session to `s` and goes on from there. */
  ghost predicate GoesOn(c: Settings, start: Session, inputs: seq<Input>, i: nat, s: Session) {
    i <= |inputs| && Run(c, start, inputs) == Later(i, Run(c, s, inputs[i..]))
  }

  lemma RunStarts(c: Settings, s: Session, inputs: seq<Input>)
    ensures GoesOn(c, s, inputs, 0, s)
  {
    assert inputs[0..] == inputs;
  }

  lemma RunNext(c: Settings, start: Session, inputs: seq<Input>, i: nat, s: Session, t: Stepped)
    requires i < |inputs| && GoesOn(c, start, inputs, i, s) && t == Step(c, s, inputs[i])
    ensures if t.r == Exhausted then GoesOn(c, start, inputs, i + 1, t.s) else Run(c, start, inputs) == Ran(t.s, t.r, i + 1)
  {
    assert inputs[i..][1..] == inputs[i + 1..];
  }

  /** A session that is still new has no queue. */
  lemma StepNew(c: Settings, s: Session, input: Input)
    requires s.state == STATE_NEW ==> !s.connected
    ensures Step(c, s, input).s.state == STATE_NEW ==> !Step(c, s, input).s.connected
  {
  }

  lemma TopicListsNext(done: seq<Text>, topic: Text)
    ensures UnsubscribeNotices(done + [topic]) == UnsubscribeNotices(done) + [Unsubscribed(topic)]
  {
  }

  lemma FilterListsNext(done: seq<Filter>, f: Filter)
    requires f.qos <= 2
    ensures SubscribeNotices(done + [f]) == SubscribeNotices(done) + [Subscribed(f.topic, f.qos)]
    ensures QosBytes(done + [f]) == QosBytes(done) + [f.qos as byte]
  {
  }

  /** `done` has been read and the rest of the list starts at `pos`. */
  ghost predicate FilterProgress(whole: Filters, body: Slice, pos: nat, done: seq<Filter>) {
    var rest := ParseFilters(body, pos);
    whole.list == done + rest.list && whole.end == rest.end
  }

  lemma FilterNext(whole: Filters, body: Slice, pos: nat, done: seq<Filter>)
    requires FilterProgress(whole, body, pos, done)
    ensures pos >= body.promised ==> whole == Filters(done, Fine)
    ensures pos < body.promised ==>
              var f := ReadFilter(body, pos);
              if !f.Got? then whole == Filters(done, OutcomeOf(f))
              else FilterProgress(whole, body, After(f.value, pos), done + [f.value])
  {
    if pos < body.promised && ReadFilter(body, pos).Got? {
      var f := ReadFilter(body, pos).value;
      var rest := ParseFilters(body, After(f, pos)).list;
      assert done + ([f] + rest) == (done + [f]) + rest;
    }
  }

  ghost predicate TopicProgress(whole: Topics, body: Slice, pos: nat, done: seq<Text>) {
    var rest := ParseTopics(body, pos);
    whole.list == done + rest.list && whole.end == rest.end
  }

  lemma TopicNext(whole: Topics, body: Slice, pos: nat, done: seq<Text>)
    requires TopicProgress(whole, body, pos, done)
    ensures pos >= body.promised ==> whole == Topics(done, Fine)
    ensures pos < body.promised ==>
              var t := GetString(body, pos);
              if !t.Got? then whole == Topics(done, OutcomeOf(t))
              else TopicProgress(whole, body, Behind(t.value, pos), done + [t.value])
  {
    if pos < body.promised && GetString(body, pos).Got? {
      var t := GetString(body, pos).value;
      var rest := ParseTopics(body, Behind(t, pos)).list;
      assert done + ([t] + rest) == (done + [t]) + rest;
    }
  }
}
