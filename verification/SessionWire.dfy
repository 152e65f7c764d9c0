/** Every byte that a session writes, over a connection that does not fail, in any run of its main loop. */
module SessionWire {
  import opened Base
  import opened Codec
  import opened Packets
  import opened Transport
  import opened Connects
  import opened Connection
  import opened TransientLists
  import opened Outbound
  import opened Deliveries
  import opened SessionModel
  import opened SessionRuns

  lemma ConnAckBytes(ack: byte, code: byte)
    ensures Frame(CONNACK, [ack, code]) == [0x20, 2, ack, code]
  {
    assert LengthBytes(2) == [2];
  }

  /** The frames of the messages that a queue has waiting. */
  function FirstFrames(next: nat, w: Waiting): seq<byte> {
    Flatten(Frames(Posted(next, ToSend(w.buffer, w.shelf, true, true))))
  }

  /** The flag is set for a known client that keeps its session and speaks 3.1.1. */
  function PresentBit(request: Request, env: Env): byte {
    if request.cleanSession == 0 && env.known.Some? && request.protocol == 2 then 1 else 0
  }

  /** The answer to a CONNECT that has been read as `r`. */
  function ConnectAnswer(c: Settings, next: nat, r: Reading<Request>, env: Env): seq<byte> {
    match r
    case Malformed => []
    case Broken => []
    case Refused(code) => [0x20, 2, 0, code]
    case Read(request, _) =>
      if ClientOf(request).None? then []
      else if c.authNeed && env.auth.Unauthorized? then [0x20, 2, 0, 5]
      else if (c.authNeed && env.auth.OtherFailure?) || env.queue.None? then []
      else [0x20, 2, PresentBit(request, env), 0] + FirstFrames(next, env.queue.value)
  }

  /** What one round writes. */
  function RoundBytes(c: Settings, s: Session, input: Input): seq<byte> {
    match input
    case ReadFailed => []
    case Arrived(_) => []
    case Available(fromList, fromQueue) =>
      if s.connected then Flatten(Frames(Posted(s.out.line.next, ToSend(s.out.queued, s.out.list, fromList, fromQueue))))
      else []
    case Received(command, body, env) =>
      if command / 16 == 0x1 then
        if s.state == STATE_NEW then ConnectAnswer(c, s.out.line.next, ParseConnect(command, body), env) else []
      else if command / 16 == 0xE || command / 16 == 0x4 then []
      else
        var reply := ReplyTo(s.terms.protocol, c.limit, command, body, env.acl);
        if reply.verdict == Fine then reply.bytes else []
  }

  function RunBytes(c: Settings, s: Session, inputs: seq<Input>): seq<byte>
    decreases |inputs|
  {
    if inputs == [] then []
    else
      var t := Step(c, s, inputs[0]);
      RoundBytes(c, s, inputs[0]) + if t.r == Exhausted then RunBytes(c, t.s, inputs[1..]) else []
  }

  /** The line still works, and exactly these bytes have been added. */
  predicate Added(s: Session, t: Session, bytes: seq<byte>) {
    Up(t.out.line) && NetOf(t).wire == NetOf(s).wire + bytes
  }

  lemma SendsAdds(s: Session, bytes: seq<byte>)
    requires Up(s.out.line)
    ensures Added(s, Sends(s, bytes), bytes)
  {
    ReliableCarries(NetOf(s), bytes);
  }

  lemma NotifiedAdds(s: Session, fromList: bool, fromQueue: bool)
    requires Up(s.out.line) && s.connected
    ensures Added(s, Notified(s, fromList, fromQueue).s,
                  Flatten(Frames(Posted(s.out.line.next, ToSend(s.out.queued, s.out.list, fromList, fromQueue)))))
  {
    NotifyWrites(s.out, fromList, fromQueue);
  }

  lemma AdmittedAdds(s: Session, request: Request, clientId: Text, env: Env)
    requires Up(s.out.line) && env.queue.Some?
    ensures Added(s, Admitted(s, request, clientId, env).s,
                  [0x20, 2, PresentBit(request, env), 0] + FirstFrames(s.out.line.next, env.queue.value))
  {
    var w, bit := env.queue.value, SessionPresent(request, env);
    var up := Started(Resumed(s, request, clientId, env), w, bit, request.cleanSession == 0);
    ConnAckBytes(bit, 0);
    ReliableCarries(NetOf(s), [0x20, 2, bit, 0]);
    assert Added(s, up, [0x20, 2, bit, 0]);
    NotifiedAdds(up, true, true);
    Regroup(NetOf(s).wire, [0x20, 2, bit, 0], FirstFrames(s.out.line.next, w));
  }

  lemma JudgedAdds(c: Settings, s: Session, request: Request, pos: nat, env: Env)
    requires Up(s.out.line)
    ensures Added(s, Judged(c, s, request, env).s, ConnectAnswer(c, s.out.line.next, Read(request, pos), env))
  {
    var client := ClientOf(request);
    if client.Some? {
      if c.authNeed && !env.auth.Pass? {
        ConnAckBytes(0, REFUSED_AUTHORIZATION);
        SendsAdds(s, AuthBytes(env.auth));
      } else if env.queue.Some? {
        AdmittedAdds(s, request, client.value, env);
      }
    }
  }

  lemma ConsideredAdds(c: Settings, s: Session, r: Reading<Request>, env: Env)
    requires Up(s.out.line)
    ensures Added(s, Considered(c, s, r, env).s, ConnectAnswer(c, s.out.line.next, r, env))
  {
    if r.Read? {
      JudgedAdds(c, s, r.value, r.pos, env);
    } else {
      SendsAdds(s, RefusalBytes(r));
      if r.Refused? { ConnAckBytes(0, r.code); }
    }
  }

  lemma ConnectAdds(c: Settings, s: Session, command: byte, body: Slice, env: Env)
    requires Up(s.out.line) && s.state == STATE_NEW
    ensures Added(s, OnConnect(c, s, command, body, env).s,
                  ConnectAnswer(c, s.out.line.next, ParseConnect(command, body), env))
  {
    ConsideredAdds(c, Heard(s, command, body), ParseConnect(command, body), env);
  }

  lemma RepliedAdds(s: Session, reply: Reply)
    requires Up(s.out.line)
    ensures Added(s, Replied(s, reply).s, if reply.verdict == Fine then reply.bytes else [])
  {
    SendsAdds(Says(s, reply.notices), reply.bytes);
  }

  lemma InputAdds(c: Settings, s: Session, input: Input)
    requires Up(s.out.line)
    ensures Added(s, OnInput(c, s, input).s, RoundBytes(c, s, input))
  {
    match input
    case ReadFailed =>
    case Arrived(_) =>
    case Available(fromList, fromQueue) => if s.connected { NotifiedAdds(s, fromList, fromQueue); }
    case Received(command, body, env) =>
      if command / 16 == 0x1 {
        if s.state == STATE_NEW { ConnectAdds(c, s, command, body, env); }
      } else if command / 16 != 0xE && command / 16 != 0x4 {
        RepliedAdds(s, ReplyTo(s.terms.protocol, c.limit, command, body, env.acl));
      }
  }

  lemma StepAdds(c: Settings, s: Session, input: Input)
    requires Up(s.out.line)
    ensures Added(s, Step(c, s, input).s, RoundBytes(c, s, input))
  {
    InputAdds(c, s, input);
  }

  /** The whole wire of any run, however it ends: round by round the answers, and with every notification and
      every accepted CONNECT the frames of the messages to be sent. */
  lemma {:induction false} RunWrites(c: Settings, s: Session, inputs: seq<Input>)
    requires Up(s.out.line)
    ensures NetOf(Run(c, s, inputs).s).wire == NetOf(s).wire + RunBytes(c, s, inputs)
    decreases |inputs|
  {
    if inputs != [] {
      var t := Step(c, s, inputs[0]);
      StepAdds(c, s, inputs[0]);
      if t.r == Exhausted {
        RunWrites(c, t.s, inputs[1..]);
        Regroup(NetOf(s).wire, RoundBytes(c, s, inputs[0]), RunBytes(c, t.s, inputs[1..]));
      }
    }
  }
}
