/** The session of broker/mqtt/mqtt_session.go as a value: what every input does to it, over any
    connection. The class in Sessions refines this model. */
module SessionModel {
  import opened Base
  import opened Codec
  import opened Packets
  import opened Connects
  import opened Options
  import opened Connection
  import opened TransientLists
  import opened Outbound

  const CONNACK: byte := 0x20
  const PUBCOMP: byte := 0x70
  const UNSUBACK: byte := 0xB0
  const PINGRESP: byte := 0xD0

  const STATE_NEW: nat := 1
  const STATE_CONNECTED: nat := 2
  const STATE_DISCONNECTING: nat := 3
  const STATE_DISCONNECTED: nat := 8

  const REFUSED_AUTHORIZATION: byte := 5

  /** Events given to the event service. `will` marks the will message among the publish events. */
  datatype Notice =
    | Published(topic: Text, qos: nat, retain: bool, payload: seq<byte>, will: bool)
    | Subscribed(topic: Text, qos: nat)
    | Unsubscribed(topic: Text)
    | SessionCreated(persistent: bool)
    | SessionResumed
    | SessionDestroyed

  datatype Auth = Pass | Unauthorized | OtherFailure

  /** What a queue holds when the session gets it: messages waiting and messages retained. */
  datatype Waiting = Waiting(buffer: seq<Message>, shelf: Shelf)

  /** What the services around the session answer while one packet is handled. */
  datatype Env = Env(
    auth: Auth,
    acl: bool,
    known: Option<bool>,  // a session registered under this client, and whether it is persistent
    queue: Option<Waiting>)  // the queue allocated for the client, if that succeeds

  /** What the main loop waits for, and the messages that other goroutines put into the session's queue
      between two rounds. */
  datatype Input =
    | ReadFailed
    | Arrived(msg: Message)
    | Available(fromList: bool, fromQueue: bool)
    | Received(command: byte, body: Slice, env: Env)

  datatype Settings = Settings(limit: nat, authNeed: bool)

  datatype Terms = Terms(protocol: nat, will: Option<Message>, clientId: Text, cleanSession: nat, keepalive: nat)

  /** `states` are the session states so far, `closes` counts how often the channels have been closed, and
      `connected` says whether there is a queue. */
  datatype Session = Session(
    state: nat,
    states: seq<nat>,
    closes: nat,
    terms: Terms,
    connected: bool,
    out: OutState,
    events: seq<Notice>)

  function NewSession(net: Net): Session {
    Session(STATE_NEW, [STATE_NEW], 0, Terms(0, None, [], 0, 0), false, EmptyOut(net), [])
  }

  datatype Done = Done(s: Session, outcome: Outcome)

  function NetOf(s: Session): Net { s.out.line.net }

  function Sends(s: Session, frame: seq<byte>): Session {
    s.(out := s.out.(line := s.out.line.(net := Carried(s.out.line.net, frame))))
  }

  function Says(s: Session, notices: seq<Notice>): Session { s.(events := s.events + notices) }

  function Enters(s: Session, state: nat): Session { s.(state := state, states := s.states + [state]) }

  // ---------------------------------------------------------------- packets that are answered

  /** What a packet calls for by itself: whether it is accepted, refused or kills the session, the events, and
      the bytes of the answer. */
  datatype Reply = Reply(verdict: Outcome, notices: seq<Notice>, bytes: seq<byte>)

  /** Nothing is said or sent. */
  function Silent(verdict: Outcome): Reply { Reply(verdict, [], []) }

  const REFUSAL: Reply := Silent(Error)

  /** A 3.1.1 session insists on the reserved flags of the fixed header. */
  predicate WrongFlags(protocol: nat, command: byte) { protocol == PROTOCOL_311 && command % 16 != 2 }

  function PublishNotice(p: Publish): Notice { Published(p.topic, p.qos, p.retain, p.payload, false) }

  /** One event per packet that is well formed, permitted and of QoS 0 or 1, and for QoS 1 a PUBACK. */
  function PublishReply(command: byte, body: Slice, acl: bool, limit: nat): Reply {
    var p := ParsePublish(command, body, limit);
    if !p.Got? then Silent(OutcomeOf(p))
    else if acl && p.value.qos <= 1 then
      Reply(Fine, [PublishNotice(p.value)], if p.value.qos == 1 then AckFrame(PUBACK, p.value.pid) else [])
    else REFUSAL
  }

  function PubRelReply(protocol: nat, command: byte, body: Slice): Reply {
    var pid := GetUint16(body, 0);
    if WrongFlags(protocol, command) then REFUSAL
    else if !pid.Got? then Silent(OutcomeOf(pid))
    else Reply(Fine, [], AckFrame(PUBCOMP, pid.value))
  }

  function SubscribeNotices(filters: seq<Filter>): seq<Notice> {
    seq(|filters|, i requires 0 <= i < |filters| => Subscribed(filters[i].topic, filters[i].qos))
  }

  /** One event per filter in order, up to the first malformed one; a SUBACK with the requested qos values
      if all are well formed. */
  function SubscribeReply(protocol: nat, command: byte, body: Slice): Reply {
    var pid := GetUint16(body, 0);
    if WrongFlags(protocol, command) then REFUSAL
    else if !pid.Got? then Silent(OutcomeOf(pid))
    else
      var f := ParseFilters(body, 2);
      if f.end != Fine then Reply(f.end, SubscribeNotices(f.list), [])
      else if protocol == PROTOCOL_311 && f.list == [] then REFUSAL
      else Reply(Fine, SubscribeNotices(f.list), SubAckFrame(pid.value, QosBytes(f.list)))
  }

  function UnsubscribeNotices(topics: seq<Text>): seq<Notice> {
    seq(|topics|, i requires 0 <= i < |topics| => Unsubscribed(topics[i]))
  }

  function UnsubscribeReply(protocol: nat, command: byte, body: Slice): Reply {
    var pid := GetUint16(body, 0);
    if WrongFlags(protocol, command) then REFUSAL
    else if !pid.Got? then Silent(OutcomeOf(pid))
    else
      var t := ParseTopics(body, 2);
      Reply(t.end, UnsubscribeNotices(t.list), if t.end == Fine then AckFrame(UNSUBACK, pid.value) else [])
  }

  /** PINGRESP goes out with a remaining length of 1, where section 3.13.1 asks for 0. */
  const PING_REPLY: Reply := Reply(Fine, [], [PINGRESP, 1, 0])

  /** Every type but CONNECT, DISCONNECT and PUBACK. */
  function ReplyTo(protocol: nat, limit: nat, command: byte, body: Slice, acl: bool): Reply {
    var kind := command / 16;
    if kind == 0xC then PING_REPLY
    else if kind == 0x3 then PublishReply(command, body, acl, limit)
    else if kind == 0x6 then PubRelReply(protocol, command, body)
    else if kind == 0x8 then SubscribeReply(protocol, command, body)
    else if kind == 0xA then UnsubscribeReply(protocol, command, body)
    else REFUSAL
  }

  /** The events come before the answer is written; an answer that cannot be written is an error. */
  function Replied(s: Session, reply: Reply): Done {
    if reply.verdict == Fine then
      Done(Sends(Says(s, reply.notices), reply.bytes), if Goes(NetOf(s), reply.bytes) then Fine else Error)
    else Done(Says(s, reply.notices), reply.verdict)
  }

  /** PUBACK removes the retained message that the identifier selects; before CONNECT there is no list. */
  function OnPubAck(s: Session, body: Slice): Done {
    var pid := GetUint16(body, 0);
    if body.promised != 2 then Done(s, Error)
    else if !pid.Got? || !s.connected then Done(s, Panic)
    else Done(s.(out := OutStep(s.out, Ack(pid.value)).s), Fine)
  }

  // ---------------------------------------------------------------- the end of a session

  /** Neither the will nor the destruction of the session. */
  predicate Ordinary(n: Notice) { !n.SessionDestroyed? && !(n.Published? && n.will) }

  function WillNotice(will: Message): Notice { Published(will.topic, will.qos, will.retain, will.payload, true) }

  /** The events with which a session ends: the will first, if the end is an error and one is stored. */
  function Farewell(error: bool, will: Option<Message>): seq<Notice> {
    if error && will.Some? then [WillNotice(will.value), SessionDestroyed] else [SessionDestroyed]
  }

  /** disconnect does nothing to a session that has already ended. */
  function Closed(s: Session, error: bool): Session {
    if s.state == STATE_DISCONNECTED then s
    else Enters(Says(s, Farewell(error, s.terms.will)), STATE_DISCONNECTED).(closes := s.closes + 1)
  }

  /** The two checks on a DISCONNECT (section 3.14 of MQTT Version 3.1.1). */
  predicate ValidDisconnect(protocol: nat, command: byte, length: nat) {
    length == 0 && (protocol == PROTOCOL_311 ==> command % 16 == 0)
  }

  /** A valid DISCONNECT discards the will and ends the session without an error. */
  function OnDisconnect(s: Session, command: byte, length: nat): Done {
    if ValidDisconnect(s.terms.protocol, command, length) then
      Done(Closed(Enters(s.(terms := s.terms.(will := None)), STATE_DISCONNECTING), false), Fine)
    else Done(s, Error)
  }

  // ---------------------------------------------------------------- CONNECT

  /** The protocol is recorded as soon as name and version have been accepted, */
  function ProtocolAfter(command: byte, body: Slice, was: nat): nat {
    var intro := ReadIntro(body);
    if !intro.Got? then was
    else if intro.value.name == NAME_31 && intro.value.version == 3 then PROTOCOL_31
    else if intro.value.name == NAME_311 && intro.value.version == 4 && command % 16 == 0 then PROTOCOL_311
    else was
  }

  /** and the keep-alive time as soon as it has been read. */
  function KeepaliveAfter(command: byte, body: Slice, was: nat): nat {
    var pre := ReadPreamble(command, body);
    if pre.Read? then KeepaliveRead(body, pre.pos, pre.value.flags, was) else was
  }

  function KeepaliveRead(body: Slice, pos: nat, flags: nat, was: nat): nat {
    if FlagsOk(flags) && GetUint16(body, pos).Got? then GetUint16(body, pos).value else was
  }

  /** A request that can be read carries the protocol that has been recorded. */
  lemma ProtocolRead(command: byte, body: Slice, was: nat)
    ensures var r := ParseConnect(command, body); r.Read? ==> r.value.protocol == ProtocolAfter(command, body, was)
  {
  }

  function Heard(s: Session, command: byte, body: Slice): Session {
    s.(terms := s.terms.(protocol := ProtocolAfter(command, body, s.terms.protocol),
                         keepalive := KeepaliveAfter(command, body, s.terms.keepalive)))
  }

  function RefusalBytes<T>(r: Reading<T>): seq<byte> {
    if r.Refused? then Frame(CONNACK, [0, r.code]) else []
  }

  function AuthBytes(auth: Auth): seq<byte> {
    if auth.Unauthorized? then Frame(CONNACK, [0, REFUSED_AUTHORIZATION]) else []
  }

  /** The session-present flag of section 3.2.2.2. */
  function SessionPresent(request: Request, env: Env): byte {
    if request.cleanSession == 0 && env.known.Some? && request.protocol == PROTOCOL_311 then 1 else 0
  }

  function ResumeNotices(request: Request, env: Env): seq<Notice> {
    if request.cleanSession == 0 && env.known == Some(true) then [SessionResumed] else []
  }

  /** The client identifier in the request options, if these can be parsed. */
  function ClientOf(request: Request): Option<Text> {
    if request.username.None? then None
    else
      var ctx := ParseOptions(request.rawId, request.username.value);
      if ctx.None? then None else Some(ctx.value.clientId)
  }

  function Notified(s: Session, fromList: bool, fromQueue: bool): Done {
    if !s.connected then Done(s, Panic)
    else
      var p := OutStep(s.out, Notify(fromList, fromQueue));
      Done(s.(out := p.s), p.outcome)
  }

  /** The request takes effect before the queue is allocated. */
  function Resumed(s: Session, request: Request, clientId: Text, env: Env): Session {
    Says(s.(terms := s.terms.(will := request.will, clientId := clientId, cleanSession := request.cleanSession)),
         ResumeNotices(request, env))
  }

  /** The session is up and CONNACK has been written, successfully or not. */
  function Started(s: Session, w: Waiting, conack: byte, persistent: bool): Session {
    var t := Enters(s, STATE_CONNECTED).(connected := true, out := OutState(w.buffer, w.shelf, s.out.line));
    Says(Sends(t, Frame(CONNACK, [conack, 0])), [SessionCreated(persistent)])
  }

  /** Without a queue there is no session; otherwise the session comes up and sends what was waiting. */
  function Admitted(s: Session, request: Request, clientId: Text, env: Env): Done {
    var t := Resumed(s, request, clientId, env);
    if env.queue.None? then Done(t, Error)
    else Notified(Started(t, env.queue.value, SessionPresent(request, env), request.cleanSession == 0), true, true)
  }

  /** A readable request: bad options are an error without an answer, a failed authentication ends the
      session on the spot, and any other request is admitted. */
  function Judged(c: Settings, s: Session, request: Request, env: Env): Done {
    var client := ClientOf(request);
    if client.None? then Done(s, Error)
    else if c.authNeed && !env.auth.Pass? then Done(Closed(Sends(s, AuthBytes(env.auth)), true), Error)
    else Admitted(s, request, client.value, env)
  }

  /** A request that cannot be read is answered with the return code of its first fault, if it has one. */
  function Considered(c: Settings, s: Session, r: Reading<Request>, env: Env): Done {
    if r.Read? then Judged(c, s, r.value, env)
    else Done(Sends(s, RefusalBytes(r)), if r.Broken? then Panic else Error)
  }

  /** CONNECT is accepted by a new session only. */
  function OnConnect(c: Settings, s: Session, command: byte, body: Slice, env: Env): Done {
    if s.state != STATE_NEW then Done(s, Error)
    else Considered(c, Heard(s, command, body), ParseConnect(command, body), env)
  }

  // ---------------------------------------------------------------- the main loop

  function OnPacket(c: Settings, s: Session, command: byte, body: Slice, env: Env): Done {
    var kind := command / 16;
    if kind == 0x1 then OnConnect(c, s, command, body, env)
    else if kind == 0xE then OnDisconnect(s, command, body.promised)
    else if kind == 0x4 then OnPubAck(s, body)
    else Replied(s, ReplyTo(s.terms.protocol, c.limit, command, body, env.acl))
  }

  function OnInput(c: Settings, s: Session, input: Input): Done {
    match input
    case ReadFailed => Done(s, Error)
    case Arrived(msg) => Done(if s.connected then s.(out := OutStep(s.out, Arrive(msg)).s) else s, Fine)
    case Available(fromList, fromQueue) => Notified(s, fromList, fromQueue)
    case Received(command, body, env) => OnPacket(c, s, command, body, env)
  }

  /** How a run of the main loop stands: out of inputs, left after a DISCONNECT, left after an error, dead of
      a run-time error, or caught in a loop that never ends. */
  datatype RunResult = Exhausted | Finished | Aborted | Crashed | Stuck

  datatype Stepped = Stepped(s: Session, r: RunResult)

  /** The end of a round: an error disconnects, and a session that has ended leaves the loop. */
  function Settled(d: Done): Stepped {
    match d.outcome
    case Panic => Stepped(d.s, Crashed)
    case Hang => Stepped(d.s, Stuck)
    case Error => Stepped(Closed(d.s, true), Aborted)
    case Fine => Stepped(d.s, if d.s.state == STATE_DISCONNECTED then Finished else Exhausted)
  }

  function Step(c: Settings, s: Session, input: Input): Stepped { Settled(OnInput(c, s, input)) }

  /** The session after a run, how the run stands, and how many inputs it took. */
  datatype Ran = Ran(s: Session, r: RunResult, used: nat)

  function Later(first: nat, ran: Ran): Ran { ran.(used := first + ran.used) }

  function Run(c: Settings, s: Session, inputs: seq<Input>): Ran
    decreases |inputs|
  {
    if inputs == [] then Ran(s, Exhausted, 0)
    else
      var t := Step(c, s, inputs[0]);
      if t.r != Exhausted then Ran(t.s, t.r, 1) else Later(1, Run(c, t.s, inputs[1..]))
  }
}
