/** What holds of every run of the session's main loop, over any connection. */
module SessionRuns {
  import opened Base
  import opened Codec
  import opened Packets
  import opened Connects
  import opened Connection
  import Transport
  import opened TransientLists
  import opened Outbound
  import opened SessionModel

  // ---------------------------------------------------------------- the life of a session

  predicate AllOrdinary(events: seq<Notice>) { forall i :: 0 <= i < |events| ==> Ordinary(events[i]) }

  predicate Forward(states: seq<nat>) { forall i, j :: 0 <= i < j < |states| ==> states[i] <= states[j] }

  /** The session has not ended: nothing final has been said or closed. */
  predicate Open(s: Session) {
    && s.states != [] && s.states[|s.states| - 1] == s.state < STATE_DISCONNECTED && Forward(s.states)
    && AllOrdinary(s.events) && s.closes == 0
  }

  /** Between two rounds of the main loop. */
  predicate Alive(s: Session) {
    && Open(s)
    && (s.state == STATE_NEW || s.state == STATE_CONNECTED)
    && (s.connected <==> s.state == STATE_CONNECTED)
    && (s.state == STATE_NEW ==> s.terms.will == None)
  }

  /** The session has ended, once: the channels closed once, one SessionDestroy, which comes last, and the
      will exactly when the end was an error and a will was stored. */
  predicate Ended(s: Session, error: bool) {
    var tail := Farewell(error, s.terms.will);
    var n := |s.events| - |tail|;
    && s.state == STATE_DISCONNECTED && s.closes == 1 && Forward(s.states)
    && 0 <= n && s.events[n..] == tail && AllOrdinary(s.events[..n])
  }

  /** The life of a session as far as `Open` and `Alive` see it. */
  predicate SameLife(s: Session, t: Session) {
    && t.state == s.state && t.states == s.states && t.closes == s.closes && t.connected == s.connected
    && t.terms.will == s.terms.will
  }

  lemma SaysKeepsOpen(s: Session, notices: seq<Notice>)
    requires Open(s) && AllOrdinary(notices)
    ensures Open(Says(s, notices))
  {
  }

  lemma EntersKeepsOpen(s: Session, state: nat)
    requires Open(s) && s.state <= state < STATE_DISCONNECTED
    ensures Open(Enters(s, state))
  {
  }

  lemma ClosedEnds(s: Session, error: bool)
    requires Open(s) || Ended(s, error)
    ensures Ended(Closed(s, error), error)
  {
    if s.state != STATE_DISCONNECTED {
      var tail := Farewell(error, s.terms.will);
      assert (s.events + tail)[|s.events|..] == tail && (s.events + tail)[..|s.events|] == s.events;
    }
  }

  lemma ReplyOrdinary(protocol: nat, limit: nat, command: byte, body: Slice, acl: bool)
    ensures AllOrdinary(ReplyTo(protocol, limit, command, body, acl).notices)
  {
  }

  /** Reading a list ends; it does not hang. */
  lemma {:induction false} ListsEnd(body: Slice, pos: nat)
    ensures ParseFilters(body, pos).end != Hang && ParseTopics(body, pos).end != Hang
    decreases body.promised - pos
  {
    if pos < body.promised {
      var f, topic := ReadFilter(body, pos), GetString(body, pos);
      if f.Got? { ListsEnd(body, After(f.value, pos)); }
      if topic.Got? { ListsEnd(body, Behind(topic.value, pos)); }
    }
  }

  lemma ReplyEnds(protocol: nat, limit: nat, command: byte, body: Slice, acl: bool)
    requires command / 16 != 0x1 && command / 16 != 0x4
    ensures ReplyTo(protocol, limit, command, body, acl).verdict != Hang
    ensures ReplyTo(protocol, limit, command, body, acl).verdict == Panic <==>
              ReadsBeyond(protocol, limit, command, body)
  {
    PublishEnds(command, body, acl, limit);
    SubscribeEnds(protocol, command, body);
    UnsubscribeEnds(protocol, command, body);
  }

  lemma PublishEnds(command: byte, body: Slice, acl: bool, limit: nat)
    ensures var verdict := PublishReply(command, body, acl, limit).verdict;
            verdict != Hang && (verdict == Panic <==> ParsePublish(command, body, limit).Crash?)
  {
  }

  lemma SubscribeEnds(protocol: nat, command: byte, body: Slice)
    ensures var verdict := SubscribeReply(protocol, command, body).verdict;
            verdict != Hang && (verdict == Panic <==> FiltersBeyond(protocol, command, body))
  {
    ListsEnd(body, 2);
  }

  lemma UnsubscribeEnds(protocol: nat, command: byte, body: Slice)
    ensures var verdict := UnsubscribeReply(protocol, command, body).verdict;
            verdict != Hang && (verdict == Panic <==> TopicsBeyond(protocol, command, body))
  {
    ListsEnd(body, 2);
  }

  lemma RepliedKeeps(s: Session, reply: Reply)
    requires Alive(s) && AllOrdinary(reply.notices)
    ensures var d := Replied(s, reply);
            && Alive(d.s) && d.s.state == s.state
            && d.outcome == if reply.verdict == Fine && !Goes(NetOf(s), reply.bytes) then Error else reply.verdict
  {
    SaysKeepsOpen(s, reply.notices);
  }

  lemma DisconnectKeeps(s: Session, command: byte, length: nat)
    requires Alive(s)
    ensures var d := OnDisconnect(s, command, length);
            if ValidDisconnect(s.terms.protocol, command, length) then d.outcome == Fine && Ended(d.s, false)
            else d == Done(s, Error)
  {
    var t := s.(terms := s.terms.(will := None));
    EntersKeepsOpen(t, STATE_DISCONNECTING);
    ClosedEnds(Enters(t, STATE_DISCONNECTING), false);
  }

  lemma NotifiedKeeps(s: Session, fromList: bool, fromQueue: bool)
    requires Alive(s)
    ensures Alive(Notified(s, fromList, fromQueue).s) && Notified(s, fromList, fromQueue).outcome != Error
    ensures SameLife(s, Notified(s, fromList, fromQueue).s)
  {
    if fromQueue { FlushNeverErrs(Resent(s.out, fromList)); }
  }

  lemma {:induction false} FlushNeverErrs(s: OutState)
    ensures Flush(s).outcome != Error
    decreases Effort(s)
  {
    if s.queued != [] && FlushOne(s).outcome == Fine {
      FlushOneShrinks(s);
      FlushNeverErrs(FlushOne(s).s);
    }
  }

  lemma StartedKeeps(s: Session, w: Waiting, conack: byte, persistent: bool)
    requires Open(s) && s.state == STATE_NEW
    ensures Alive(Started(s, w, conack, persistent)) && Started(s, w, conack, persistent).terms == s.terms
  {
    EntersKeepsOpen(s, STATE_CONNECTED);
    SaysKeepsOpen(Enters(s, STATE_CONNECTED), [SessionCreated(persistent)]);
  }

  lemma AdmittedKeeps(s: Session, request: Request, clientId: Text, env: Env)
    requires Alive(s) && s.state == STATE_NEW
    ensures var d := Admitted(s, request, clientId, env);
            && (d.outcome == Error <==> env.queue.None?)
            && (d.outcome == Error ==> Open(d.s))
            && (d.outcome != Error ==> Alive(d.s) && d.s.state == STATE_CONNECTED && d.s.terms.will == request.will)
  {
    var t := Resumed(s, request, clientId, env);
    SaysKeepsOpen(s, ResumeNotices(request, env));
    assert Open(t);
    if env.queue.Some? {
      var up := Started(t, env.queue.value, SessionPresent(request, env), request.cleanSession == 0);
      StartedKeeps(t, env.queue.value, SessionPresent(request, env), request.cleanSession == 0);
      NotifiedKeeps(up, true, true);
    }
  }

  /** What becomes of a readable CONNECT. */
  lemma JudgedKeeps(c: Settings, s: Session, request: Request, env: Env)
    requires Alive(s) && s.state == STATE_NEW
    ensures var d := Judged(c, s, request, env);
            && (d.outcome == Error ==> Open(d.s) || Ended(d.s, true))
            && (d.outcome != Error ==> Alive(d.s) && d.s.state == STATE_CONNECTED && d.s.terms.will == request.will)
  {
    var client := ClientOf(request);
    if client.Some? {
      if c.authNeed && !env.auth.Pass? {
        ClosedEnds(Sends(s, AuthBytes(env.auth)), true);
      } else {
        AdmittedKeeps(s, request, client.value, env);
      }
    }
  }

  lemma ConsideredKeeps(c: Settings, s: Session, r: Reading<Request>, env: Env)
    requires Alive(s) && s.state == STATE_NEW
    ensures var d := Considered(c, s, r, env);
            && (d.outcome == Error ==> Open(d.s) || Ended(d.s, true))
            && (d.outcome != Error ==> Alive(d.s))
            && (d.outcome == Error <==> RequestFault(c, r, env).Some?)
  {
    if r.Read? {
      JudgedKeeps(c, s, r.value, env);
      JudgedFails(c, s, r.value, env);
    }
  }

  lemma ConnectKeeps(c: Settings, s: Session, command: byte, body: Slice, env: Env)
    requires Alive(s)
    ensures var d := OnConnect(c, s, command, body, env);
            && (d.outcome == Error ==> Open(d.s) || Ended(d.s, true))
            && (d.outcome != Error ==> Alive(d.s))
            && (d.outcome == Error <==> ConnectFault(c, s, command, body, env).Some?)
  {
    if s.state == STATE_NEW {
      HeardKeeps(s, ProtocolAfter(command, body, s.terms.protocol), KeepaliveAfter(command, body, s.terms.keepalive));
      ConsideredKeeps(c, Heard(s, command, body), ParseConnect(command, body), env);
    }
  }

  lemma HeardKeeps(s: Session, protocol: nat, keepalive: nat)
    requires Alive(s)
    ensures Alive(s.(terms := s.terms.(protocol := protocol, keepalive := keepalive)))
  {
  }

  /** Each input leaves the session alive, ended once, or open in front of an error. */
  lemma InputKeeps(c: Settings, s: Session, input: Input)
    requires Alive(s)
    ensures var d := OnInput(c, s, input);
            && (d.outcome == Error ==> Open(d.s) || Ended(d.s, true))
            && (d.outcome == Fine ==> Alive(d.s) || Ended(d.s, false))
            && (d.outcome == Panic || d.outcome == Hang ==> Alive(d.s))
  {
    match input
    case ReadFailed =>
    case Arrived(_) =>
    case Available(fromList, fromQueue) => NotifiedKeeps(s, fromList, fromQueue);
    case Received(command, body, env) =>
      if command / 16 == 0x1 {
        ConnectKeeps(c, s, command, body, env);
      } else if command / 16 == 0xE {
        DisconnectKeeps(s, command, body.promised);
      } else if command / 16 != 0x4 {
        ReplyOrdinary(s.terms.protocol, c.limit, command, body, env.acl);
        RepliedKeeps(s, ReplyTo(s.terms.protocol, c.limit, command, body, env.acl));
      }
  }

  /** Where a round of the loop leaves a session. */
  predicate Rests(s: Session, r: RunResult) {
    match r
    case Exhausted => Alive(s)
    case Finished => Ended(s, false)
    case Aborted => Ended(s, true)
    case Crashed => Alive(s)
    case Stuck => Alive(s)
  }

  lemma StepKeeps(c: Settings, s: Session, input: Input)
    requires Alive(s)
    ensures Rests(Step(c, s, input).s, Step(c, s, input).r)
  {
    InputKeeps(c, s, input);
    var d := OnInput(c, s, input);
    if d.outcome == Error { ClosedEnds(d.s, true); }
  }

  /** Every run: the states only move forward; a run that ends has closed the channels once, SessionDestroy is
      its last event and the only one of its kind, and the will was published, once and just before it,
      precisely when the end was an error and a will was stored; a run that goes on, crashes or hangs has said
      and closed nothing of the kind. */
  lemma {:induction false} RunRests(c: Settings, s: Session, inputs: seq<Input>)
    requires Alive(s)
    ensures Rests(Run(c, s, inputs).s, Run(c, s, inputs).r)
    decreases |inputs|
  {
    if inputs != [] {
      StepKeeps(c, s, inputs[0]);
      if Step(c, s, inputs[0]).r == Exhausted {
        RunRests(c, Step(c, s, inputs[0]).s, inputs[1..]);
      }
    }
  }

  function Wills(events: seq<Notice>): set<nat> {
    set i: nat | i < |events| && events[i].Published? && events[i].will
  }

  function Ends(events: seq<Notice>): set<nat> { set i: nat | i < |events| && events[i].SessionDestroyed? }

  /** The same, counted over the whole life of a new session. */
  lemma WillIffAborted(c: Settings, net: Net, inputs: seq<Input>)
    ensures var ran := Run(c, NewSession(net), inputs);
            && |Wills(ran.s.events)| == (if ran.r == Aborted && ran.s.terms.will.Some? then 1 else 0)
            && |Ends(ran.s.events)| == ran.s.closes == (if ran.r == Aborted || ran.r == Finished then 1 else 0)
            && Forward(ran.s.states)
  {
    var ran := Run(c, NewSession(net), inputs);
    RunRests(c, NewSession(net), inputs);
    if ran.r == Aborted || ran.r == Finished {
      EndedCounts(ran.s, ran.r == Aborted);
    } else {
      assert Wills(ran.s.events) == {} && Ends(ran.s.events) == {};
    }
  }

  lemma EndedCounts(s: Session, error: bool)
    requires Ended(s, error)
    ensures |Wills(s.events)| == (if error && s.terms.will.Some? then 1 else 0) && |Ends(s.events)| == 1
  {
    var tail := Farewell(error, s.terms.will);
    var n := |s.events| - |tail|;
    assert s.events == s.events[..n] + tail;
    FarewellCounts(s.events[..n], error, s.terms.will);
  }

  lemma FarewellCounts(front: seq<Notice>, error: bool, will: Option<Message>)
    requires AllOrdinary(front)
    ensures var events := front + Farewell(error, will);
            |Wills(events)| == (if error && will.Some? then 1 else 0) && |Ends(events)| == 1
  {
    var events := front + Farewell(error, will);
    assert forall i :: 0 <= i < |front| ==> Ordinary(events[i]);
    if error && will.Some? {
      assert Wills(events) == {|front|} && Ends(events) == {|front| + 1};
    } else {
      assert Wills(events) == {} && Ends(events) == {|front|};
    }
  }

  // ---------------------------------------------------------------- what ends a run

  /** Why a round ends in an error. */
  datatype Fault =
    | ReadError  // the reader goroutine or the keep-alive timer
    | BadPacket  // malformed, not permitted, of an unknown type, or with QoS 2
    | AnswerLost  // the answer could not be written
    | SecondConnect
    | BadConnect  // unreadable, or with options that cannot be parsed
    | NotAuthenticated
    | NoQueue

  function RequestFault(c: Settings, r: Reading<Request>, env: Env): Option<Fault> {
    if r.Broken? then None
    else if !r.Read? || ClientOf(r.value).None? then Some(BadConnect)
    else if c.authNeed && !env.auth.Pass? then Some(NotAuthenticated)
    else if env.queue.None? then Some(NoQueue)
    else None
  }

  function ConnectFault(c: Settings, s: Session, command: byte, body: Slice, env: Env): Option<Fault> {
    if s.state != STATE_NEW then Some(SecondConnect) else RequestFault(c, ParseConnect(command, body), env)
  }

  function PacketFault(c: Settings, s: Session, command: byte, body: Slice, env: Env): Option<Fault> {
    var kind := command / 16;
    if kind == 0x1 then ConnectFault(c, s, command, body, env)
    else if kind == 0xE then if ValidDisconnect(s.terms.protocol, command, body.promised) then None else Some(BadPacket)
    else if kind == 0x4 then if body.promised == 2 then None else Some(BadPacket)
    else
      var reply := ReplyTo(s.terms.protocol, c.limit, command, body, env.acl);
      if reply.verdict == Error then Some(BadPacket)
      else if reply.verdict == Fine && !Goes(NetOf(s), reply.bytes) then Some(AnswerLost)
      else None
  }

  function FaultOf(c: Settings, s: Session, input: Input): Option<Fault> {
    match input
    case ReadFailed => Some(ReadError)
    case Arrived(_) => None
    case Available(_, _) => None
    case Received(command, body, env) => PacketFault(c, s, command, body, env)
  }

  predicate Disconnects(s: Session, input: Input) {
    && input.Received? && input.command / 16 == 0xE
    && ValidDisconnect(s.terms.protocol, input.command, input.body.promised)
  }

  // ---------------------------------------------------------------- what kills or hangs a session

  /** The packet promises bytes that its readers go for and that are not there. */
  predicate ReadsBeyond(protocol: nat, limit: nat, command: byte, body: Slice) {
    var kind := command / 16;
    if kind == 0x1 then ParseConnect(command, body).Broken?
    else if kind == 0x3 then ParsePublish(command, body, limit).Crash?
    else if kind == 0x4 then body.promised == 2 && body.visible < 2
    else if kind == 0x6 then !WrongFlags(protocol, command) && GetUint16(body, 0).Crash?
    else if kind == 0x8 then FiltersBeyond(protocol, command, body)
    else if kind == 0xA then TopicsBeyond(protocol, command, body)
    else false
  }

  predicate FiltersBeyond(protocol: nat, command: byte, body: Slice) {
    var pid := GetUint16(body, 0);
    !WrongFlags(protocol, command) && (pid.Crash? || (pid.Got? && ParseFilters(body, 2).end == Panic))
  }

  predicate TopicsBeyond(protocol: nat, command: byte, body: Slice) {
    var pid := GetUint16(body, 0);
    !WrongFlags(protocol, command) && (pid.Crash? || (pid.Got? && ParseTopics(body, 2).end == Panic))
  }

  lemma {:induction false} WholeLists(body: Slice, pos: nat)
    requires body.promised <= body.visible
    ensures ParseFilters(body, pos).end != Panic && ParseTopics(body, pos).end != Panic
    decreases body.promised - pos
  {
    if pos < body.promised {
      var f, topic := ReadFilter(body, pos), GetString(body, pos);
      if f.Got? { WholeLists(body, After(f.value, pos)); }
      if topic.Got? { WholeLists(body, Behind(topic.value, pos)); }
    }
  }

  /** No packet that is all there is read beyond its end, whatever it contains. */
  lemma WholeNeverBeyond(protocol: nat, limit: nat, command: byte, body: Slice)
    requires body.promised <= body.visible
    ensures !ReadsBeyond(protocol, limit, command, body)
  {
    WholeLists(body, 2);
    WholeConnect(command, body);
  }

  lemma WholeConnect(command: byte, body: Slice)
    requires body.promised <= body.visible
    ensures !ParseConnect(command, body).Broken?
  {
    var pre := ReadPreamble(command, body);
    if pre.Read? { WholeRest(body, pre.pos, pre.value); }
  }

  lemma WholeRest(body: Slice, pos: nat, pre: Preamble)
    requires body.promised <= body.visible
    ensures !ReadRest(body, pos, pre).Broken?
  {
    var head := ReadHead(body, pos, pre.flags);
    if head.Read? { WholeTail(body, head.pos, Begun(pre, head.value), pre.flags); }
  }

  lemma WholeTail(body: Slice, pos: nat, so: Request, flags: nat)
    requires body.promised <= body.visible
    ensures !ReadTail(body, pos, so, flags).Broken?
  {
  }

  /** What follows an accepted CONNECT: one write for CONNACK, then the retained and the queued messages. */
  function Welcome(net: Net, w: Waiting): Outcome {
    NotifyVerdict(w.buffer, w.shelf, AfterWrites(net.script, 1), net.dead, true, true)
  }

  lemma ConnAckNet(net: Net, conack: byte)
    ensures var after := Carried(net, Frame(CONNACK, [conack, 0]));
            after.script == AfterWrites(net.script, 1) && after.dead == net.dead
  {
    EncodeRefuses(2);
  }

  lemma AdmittedEnds(s: Session, request: Request, clientId: Text, env: Env)
    requires env.queue.Some?
    ensures Admitted(s, request, clientId, env).outcome == Welcome(NetOf(s), env.queue.value)
  {
    var t := Resumed(s, request, clientId, env);
    var up := Started(t, env.queue.value, SessionPresent(request, env), request.cleanSession == 0);
    ConnAckNet(NetOf(s), SessionPresent(request, env));
    NotifyEnds(up.out, true, true);
  }

  /** How a readable CONNECT ends. */
  lemma JudgedEnds(c: Settings, s: Session, request: Request, env: Env)
    ensures var fault := RequestFault(c, Read(request, 0), env);
            Judged(c, s, request, env).outcome == if fault.Some? then Error else Welcome(NetOf(s), env.queue.value)
  {
    var client := ClientOf(request);
    if RequestFault(c, Read(request, 0), env).None? { AdmittedEnds(s, request, client.value, env); }
  }

  function ConnectEnd(c: Settings, s: Session, command: byte, body: Slice, env: Env): Outcome {
    if ConnectFault(c, s, command, body, env).Some? then Error
    else if ParseConnect(command, body).Broken? then Panic
    else Welcome(NetOf(s), env.queue.value)
  }

  lemma ConsideredEnds(c: Settings, s: Session, r: Reading<Request>, env: Env)
    ensures Considered(c, s, r, env).outcome ==
            if RequestFault(c, r, env).Some? then Error
            else if r.Broken? then Panic
            else Welcome(NetOf(s), env.queue.value)
  {
    if r.Read? { JudgedEnds(c, s, r.value, env); }
  }

  lemma ConnectEnds(c: Settings, s: Session, command: byte, body: Slice, env: Env)
    ensures OnConnect(c, s, command, body, env).outcome == ConnectEnd(c, s, command, body, env)
  {
    if s.state == STATE_NEW { ConsideredEnds(c, Heard(s, command, body), ParseConnect(command, body), env); }
  }

  /** How the notification of messages ends; before CONNECT there is no queue. */
  function NoticeEnd(s: Session, fromList: bool, fromQueue: bool): Outcome {
    if !s.connected then Panic
    else NotifyVerdict(s.out.queued, s.out.list, NetOf(s).script, NetOf(s).dead, fromList, fromQueue)
  }

  /** The input kills the session: it has no queue to go to, the packet is read beyond its end, or the retained
      list has no room. */
  predicate Kills(c: Settings, s: Session, input: Input) {
    match input
    case ReadFailed => false
    case Arrived(_) => false
    case Available(fromList, fromQueue) => NoticeEnd(s, fromList, fromQueue) == Panic
    case Received(command, body, env) =>
      if command / 16 == 0x1 then ConnectEnd(c, s, command, body, env) == Panic
      else if command / 16 == 0x4 && body.promised == 2 && !s.connected then true
      else ReadsBeyond(s.terms.protocol, c.limit, command, body)
  }

  /** The input starts a flush that never ends. */
  predicate Hangs(c: Settings, s: Session, input: Input) {
    match input
    case ReadFailed => false
    case Arrived(_) => false
    case Available(fromList, fromQueue) => NoticeEnd(s, fromList, fromQueue) == Hang
    case Received(command, body, env) => command / 16 == 0x1 && ConnectEnd(c, s, command, body, env) == Hang
  }

  /** How every round ends: with an error exactly when the input is at fault, without one exactly when it is a
      valid DISCONNECT, in a run-time error or in an endless loop exactly when the input, the queue, the
      retained list and the answers of the connection say so. */
  lemma StepEndsIff(c: Settings, s: Session, input: Input)
    requires Alive(s)
    ensures Step(c, s, input).r == Aborted <==> FaultOf(c, s, input).Some?
    ensures Step(c, s, input).r == Finished <==> Disconnects(s, input)
    ensures Step(c, s, input).r == Crashed <==> Kills(c, s, input)
    ensures Step(c, s, input).r == Stuck <==> Hangs(c, s, input)
  {
    match input
    case ReadFailed =>
    case Arrived(_) =>
    case Available(fromList, fromQueue) =>
      NotifiedKeeps(s, fromList, fromQueue);
      NotifyEnds(s.out, fromList, fromQueue);
    case Received(command, body, env) => PacketEndsIff(c, s, command, body, env);
  }

  lemma PacketEndsIff(c: Settings, s: Session, command: byte, body: Slice, env: Env)
    requires Alive(s)
    ensures var d, input := OnPacket(c, s, command, body, env), Received(command, body, env);
            && (d.outcome == Error <==> FaultOf(c, s, input).Some?)
            && (d.outcome == Fine && d.s.state == STATE_DISCONNECTED <==> Disconnects(s, input))
            && (d.outcome == Panic <==> Kills(c, s, input))
            && (d.outcome == Hang <==> Hangs(c, s, input))
  {
    if command / 16 == 0x1 {
      ConnectKeeps(c, s, command, body, env);
      ConnectEnds(c, s, command, body, env);
    } else if command / 16 == 0xE {
      DisconnectKeeps(s, command, body.promised);
    } else if command / 16 != 0x4 {
      ReplyOrdinary(s.terms.protocol, c.limit, command, body, env.acl);
      RepliedKeeps(s, ReplyTo(s.terms.protocol, c.limit, command, body, env.acl));
      ReplyEnds(s.terms.protocol, c.limit, command, body, env.acl);
    }
  }

  /** A PUBACK whose two bytes do not arrive together kills every session, whatever it acknowledges. */
  lemma SplitPubAckKills(c: Settings, s: Session, hi: byte, lo: byte, rest: Transport.Segments, env: Env)
    requires Alive(s) && Transport.NonEmpty(rest)
    ensures var segs := [[hi]] + [[lo]] + rest;
            Transport.NonEmpty(segs) && Step(c, s, Received(PUBACK, Transport.Kept(segs, 2), env)).r == Crashed
  {
    var body := SplitInTwo(hi, lo, rest);
    ShortPubAckKills(c, s, body, env);
  }

  lemma SplitInTwo(hi: byte, lo: byte, rest: Transport.Segments) returns (body: Slice)
    requires Transport.NonEmpty(rest)
    ensures Transport.NonEmpty([[hi]] + [[lo]] + rest) && body == Transport.Kept([[hi]] + [[lo]] + rest, 2)
    ensures body.promised == 2 && body.visible == 1
  {
    Transport.TwoChunksKept([hi], [lo], rest);
    body := Transport.Kept([[hi]] + [[lo]] + rest, 2);
  }

  lemma ShortPubAckKills(c: Settings, s: Session, body: Slice, env: Env)
    requires Alive(s) && body.promised == 2 && body.visible < 2
    ensures Step(c, s, Received(PUBACK, body, env)).r == Crashed
  {
  }

  lemma JudgedFails(c: Settings, s: Session, request: Request, env: Env)
    requires Alive(s) && s.state == STATE_NEW
    ensures Judged(c, s, request, env).outcome == Error <==> RequestFault(c, Read(request, 0), env).Some?
  {
    var client := ClientOf(request);
    if client.Some? && !(c.authNeed && !env.auth.Pass?) { AdmittedKeeps(s, request, client.value, env); }
  }

  /** The input that ended a run, and the state it met. */
  predicate EndedAt(c: Settings, s: Session, inputs: seq<Input>, ran: Ran) {
    && ran.used <= |inputs|
    && (ran.r == Exhausted ==> ran.used == |inputs|)
    && (ran.r != Exhausted ==>
          && ran.used > 0
          && Run(c, s, inputs[..ran.used - 1]).r == Exhausted
          && Step(c, Run(c, s, inputs[..ran.used - 1]).s, inputs[ran.used - 1]) == Stepped(ran.s, ran.r))
  }

  lemma {:induction false} LastInput(c: Settings, s: Session, inputs: seq<Input>)
    ensures EndedAt(c, s, inputs, Run(c, s, inputs))
    decreases |inputs|
  {
    if inputs != [] {
      var t := Step(c, s, inputs[0]);
      if t.r == Exhausted {
        LastInput(c, t.s, inputs[1..]);
        EndedLater(c, s, inputs[0], inputs[1..], t.s, Run(c, t.s, inputs[1..]));
        assert inputs == [inputs[0]] + inputs[1..];
      } else {
        assert inputs[..0] == [];
      }
    }
  }

  /** The last input after the first. */
  lemma EndedLater(c: Settings, s: Session, first: Input, rest: seq<Input>, t: Session, more: Ran)
    requires Step(c, s, first) == Stepped(t, Exhausted) && EndedAt(c, t, rest, more)
    ensures EndedAt(c, s, [first] + rest, Later(1, more))
  {
    if more.r != Exhausted {
      var front := rest[..more.used - 1];
      assert ([first] + rest)[..more.used] == [first] + front;
      RunCons(c, s, first, front);
    }
  }

  lemma RunCons(c: Settings, s: Session, first: Input, rest: seq<Input>)
    requires Step(c, s, first).r == Exhausted
    ensures Run(c, s, [first] + rest) == Later(1, Run(c, Step(c, s, first).s, rest))
  {
    assert ([first] + rest)[1..] == rest;
  }

  /** A run ends with an error, without one, in a run-time error or in an endless loop exactly when its last
      input calls for it in the state it meets. */
  lemma RunEndsIff(c: Settings, s: Session, inputs: seq<Input>)
    requires Alive(s) && Run(c, s, inputs).r != Exhausted
    ensures var ran := Run(c, s, inputs);
            && 0 < ran.used <= |inputs|
            && var before, last := Run(c, s, inputs[..ran.used - 1]).s, inputs[ran.used - 1];
               && (ran.r == Aborted <==> FaultOf(c, before, last).Some?)
               && (ran.r == Finished <==> Disconnects(before, last))
               && (ran.r == Crashed <==> Kills(c, before, last))
               && (ran.r == Stuck <==> Hangs(c, before, last))
  {
    var ran := Run(c, s, inputs);
    LastInput(c, s, inputs);
    RunRests(c, s, inputs[..ran.used - 1]);
    StepEndsIff(c, Run(c, s, inputs[..ran.used - 1]).s, inputs[ran.used - 1]);
  }

  // ---------------------------------------------------------------- answers in order

  /** A packet whose whole effect is a reply. */
  predicate Answerable(input: Input) {
    input.Received? && input.command / 16 != 0x1 && input.command / 16 != 0xE && input.command / 16 != 0x4
  }

  predicate AllAnswerable(inputs: seq<Input>) { forall i :: 0 <= i < |inputs| ==> Answerable(inputs[i]) }

  function AnswerTo(c: Settings, protocol: nat, input: Input): Reply
    requires Answerable(input)
  {
    ReplyTo(protocol, c.limit, input.command, input.body, input.env.acl)
  }

  function Then(first: Reply, rest: Reply): Reply {
    if first.verdict != Fine then first else Reply(rest.verdict, first.notices + rest.notices, first.bytes + rest.bytes)
  }

  /** The replies to a run of packets, in order, up to the first that is refused. */
  function Answers(c: Settings, protocol: nat, inputs: seq<Input>): Reply
    requires AllAnswerable(inputs)
  {
    if inputs == [] then Silent(Fine)
    else Then(AnswerTo(c, protocol, inputs[0]), Answers(c, protocol, inputs[1..]))
  }

  /** How a round stands that has come to this verdict and goes on if it can. */
  function StandsAt(verdict: Outcome): RunResult {
    match verdict
    case Fine => Exhausted
    case Error => Aborted
    case Panic => Crashed
    case Hang => Stuck
  }

  function LastWords(verdict: Outcome, will: Option<Message>): seq<Notice> {
    if verdict == Error then Farewell(true, will) else []
  }

  /** The reply has been given; a refusal has also ended the session. */
  predicate Gave(s: Session, reply: Reply, ran: Ran) {
    && ran.r == StandsAt(reply.verdict)
    && ran.s.events == s.events + reply.notices + LastWords(reply.verdict, s.terms.will)
    && NetOf(ran.s).wire == NetOf(s).wire + reply.bytes
  }

  lemma AnswerStep(c: Settings, s: Session, input: Input)
    requires Alive(s) && Reliable(NetOf(s)) && Answerable(input)
    ensures var reply, t := AnswerTo(c, s.terms.protocol, input), Step(c, s, input);
            && t.r == StandsAt(reply.verdict)
            && t.s.events == s.events + reply.notices + LastWords(reply.verdict, s.terms.will)
            && t.s.terms == s.terms && (reply.verdict == Fine ==> Alive(t.s))
            && Reliable(NetOf(t.s))
            && NetOf(t.s).wire == NetOf(s).wire + if reply.verdict == Fine then reply.bytes else []
  {
    var reply := AnswerTo(c, s.terms.protocol, input);
    ReplyOrdinary(s.terms.protocol, c.limit, input.command, input.body, input.env.acl);
    RepliedKeeps(s, reply);
    ReliableCarries(NetOf(s), reply.bytes);
  }

  lemma RefusalSendsNothing(protocol: nat, limit: nat, command: byte, body: Slice, acl: bool)
    ensures var reply := ReplyTo(protocol, limit, command, body, acl); reply.verdict != Fine ==> reply.bytes == []
  {
  }

  /** Over a connection that does not fail, the events and the bytes of any run of such packets are the
      replies to the packets in order, up to the first that is refused. */
  lemma {:induction false} AnswersInOrder(c: Settings, s: Session, inputs: seq<Input>)
    requires Alive(s) && Reliable(NetOf(s)) && AllAnswerable(inputs)
    ensures Gave(s, Answers(c, s.terms.protocol, inputs), Run(c, s, inputs))
    decreases |inputs|
  {
    if inputs != [] {
      var input, t := inputs[0], Step(c, s, inputs[0]);
      var first := AnswerTo(c, s.terms.protocol, input);
      AnswerStep(c, s, input);
      RefusalSendsNothing(s.terms.protocol, c.limit, input.command, input.body, input.env.acl);
      if first.verdict == Fine {
        AnswersInOrder(c, t.s, inputs[1..]);
        GaveThen(s, t.s, first, Answers(c, s.terms.protocol, inputs[1..]), Run(c, t.s, inputs[1..]));
      }
    }
  }

  lemma GaveThen(s: Session, t: Session, first: Reply, rest: Reply, ran: Ran)
    requires first.verdict == Fine && t.terms == s.terms && t.events == s.events + first.notices
    requires NetOf(t).wire == NetOf(s).wire + first.bytes && Gave(t, rest, ran)
    ensures Gave(s, Then(first, rest), Later(1, ran))
  {
    assert s.events + first.notices + rest.notices == s.events + (first.notices + rest.notices);
    assert NetOf(s).wire + first.bytes + rest.bytes == NetOf(s).wire + (first.bytes + rest.bytes);
  }

  // ---------------------------------------------------------------- acknowledgements in order

  /** A PUBLISH packet that is accepted. */
  predicate Accepted(c: Settings, input: Input) {
    && input.Received? && input.command / 16 == 0x3
    && PublishReply(input.command, input.body, input.env.acl, c.limit).verdict == Fine
  }

  function PublishOf(c: Settings, input: Input): Publish
    requires Accepted(c, input)
  {
    ParsePublish(input.command, input.body, c.limit).value
  }

  predicate AllAccepted(c: Settings, inputs: seq<Input>) { forall i :: 0 <= i < |inputs| ==> Accepted(c, inputs[i]) }

  /** The identifiers of the QoS 1 packets. */
  function AckIds(c: Settings, inputs: seq<Input>): seq<nat>
    requires AllAccepted(c, inputs)
  {
    if inputs == [] then []
    else
      var p := PublishOf(c, inputs[0]);
      (if p.qos == 1 then [p.pid] else []) + AckIds(c, inputs[1..])
  }

  function PublishNotices(c: Settings, inputs: seq<Input>): seq<Notice>
    requires AllAccepted(c, inputs)
  {
    seq(|inputs|, i requires 0 <= i < |inputs| => PublishNotice(PublishOf(c, inputs[i])))
  }

  lemma {:induction false} AckIdsFit(c: Settings, inputs: seq<Input>)
    requires AllAccepted(c, inputs)
    ensures forall i :: 0 <= i < |AckIds(c, inputs)| ==> AckIds(c, inputs)[i] < 65536
  {
    if inputs != [] {
      AckIdsFit(c, inputs[1..]);
      assert PublishOf(c, inputs[0]).pid < 65536;
    }
  }

  lemma AcceptedAnswer(c: Settings, protocol: nat, input: Input)
    requires Accepted(c, input)
    ensures Answerable(input)
    ensures var p := PublishOf(c, input);
            AnswerTo(c, protocol, input) ==
            Reply(Fine, [PublishNotice(p)], if p.qos == 1 then AckFrame(PUBACK, p.pid) else [])
  {
  }

  lemma {:induction false} PublishAnswers(c: Settings, protocol: nat, inputs: seq<Input>)
    requires AllAccepted(c, inputs)
    ensures AllAnswerable(inputs)
    ensures Answers(c, protocol, inputs) == Reply(Fine, PublishNotices(c, inputs), AckFrames(AckIds(c, inputs)))
  {
    if inputs != [] {
      var p, more := PublishOf(c, inputs[0]), inputs[1..];
      AcceptedAnswer(c, protocol, inputs[0]);
      PublishAnswers(c, protocol, more);
      AnswerableAll(inputs);
      assert PublishNotices(c, inputs) == [PublishNotice(p)] + PublishNotices(c, more);
      AckThen(p, PublishNotices(c, more), AckIds(c, more));
    }
  }

  /** The reply to a PUBLISH, followed by the replies to those after it. */
  lemma AckThen(p: Publish, notices: seq<Notice>, ids: seq<nat>)
    ensures Then(Reply(Fine, [PublishNotice(p)], if p.qos == 1 then AckFrame(PUBACK, p.pid) else []),
                 Reply(Fine, notices, AckFrames(ids))) ==
            Reply(Fine, [PublishNotice(p)] + notices, AckFrames((if p.qos == 1 then [p.pid] else []) + ids))
  {
    AckIdsNext(p, ids);
  }

  lemma AnswerableAll(inputs: seq<Input>)
    requires inputs != [] && Answerable(inputs[0]) && AllAnswerable(inputs[1..])
    ensures AllAnswerable(inputs)
  {
    assert forall i :: 0 < i < |inputs| ==> inputs[i] == inputs[1..][i - 1];
  }

  lemma AckIdsNext(p: Publish, more: seq<nat>)
    ensures AckFrames((if p.qos == 1 then [p.pid] else []) + more) ==
            (if p.qos == 1 then AckFrame(PUBACK, p.pid) else []) + AckFrames(more)
  {
    if p.qos == 1 {
      AckFramesCons(p.pid, more);
    } else {
      assert [] + more == more;
    }
  }

  /** Over any run of accepted PUBLISH packets the client can read back, from the bytes written, exactly the
      QoS 1 identifiers it sent, in order; and there is one event per packet, in order. */
  lemma AcksInOrder(c: Settings, s: Session, inputs: seq<Input>)
    requires Alive(s) && Reliable(NetOf(s)) && AllAccepted(c, inputs)
    ensures var ran := Run(c, s, inputs);
            && ran.r == Exhausted
            && ran.s.events == s.events + PublishNotices(c, inputs)
            && |NetOf(s).wire| <= |NetOf(ran.s).wire|
            && ReadAcks(NetOf(ran.s).wire[|NetOf(s).wire|..]) == Ok(AckIds(c, inputs))
  {
    PublishAnswers(c, s.terms.protocol, inputs);
    AnswersInOrder(c, s, inputs);
    AckIdsFit(c, inputs);
    AcksRoundTrip(AckIds(c, inputs));
    var ran := Run(c, s, inputs);
    assert NetOf(ran.s).wire[|NetOf(s).wire|..] == AckFrames(AckIds(c, inputs));
  }

  // ---------------------------------------------------------------- conservation over the whole loop

  /** The entry that an input makes in the ledger of QoS 1 messages. */
  function Entry(c: Settings, s: Session, l: Ledger, input: Input): (r: Ledger)
    requires l.sent <= |l.pending|
    ensures r.sent <= |r.pending|
  {
    match input
    case ReadFailed => l
    case Arrived(msg) => if s.connected then Book(l, Arrive(msg)) else l
    case Available(fromList, fromQueue) => if s.connected then Book(l, Notify(fromList, fromQueue)) else l
    case Received(command, body, env) =>
      var pid := GetUint16(body, 0);
      if command / 16 == 0x4 && body.promised == 2 && pid.Got? && s.connected then Book(l, Ack(pid.value)) else l
  }

  function Entries(c: Settings, s: Session, l: Ledger, inputs: seq<Input>): (r: Ledger)
    requires l.sent <= |l.pending|
    ensures r.sent <= |r.pending|
    decreases |inputs|
  {
    if inputs == [] then l
    else
      var t, m := Step(c, s, inputs[0]), Entry(c, s, l, inputs[0]);
      if t.r != Exhausted then m else Entries(c, t.s, m, inputs[1..])
  }

  /** A queue made for a client is empty. */
  predicate FreshQueue(input: Input) {
    input.Received? && input.env.queue.Some? ==> input.env.queue.value == Waiting([], FRESH)
  }

  /** Nothing has been put on the books before the client is connected. */
  predicate Balanced(s: Session, l: Ledger) {
    Agrees(s.out, l) && (!s.connected ==> l == Ledger([], 0, []))
  }

  lemma NotifiedBalances(s: Session, l: Ledger, fromList: bool, fromQueue: bool)
    requires Balanced(s, l) && s.connected && Notified(s, fromList, fromQueue).outcome == Fine
    ensures Balanced(Notified(s, fromList, fromQueue).s, Book(l, Notify(fromList, fromQueue)))
  {
    if fromQueue { FlushAgrees(Resent(s.out, fromList), l); }
  }

  lemma ConnectBalances(c: Settings, s: Session, l: Ledger, command: byte, body: Slice, env: Env)
    requires Alive(s) && Balanced(s, l) && FreshQueue(Received(command, body, env))
    requires OnConnect(c, s, command, body, env).outcome == Fine
    ensures Balanced(OnConnect(c, s, command, body, env).s, l)
  {
    ConsideredBalances(c, Heard(s, command, body), ParseConnect(command, body), env);
  }

  lemma ConsideredBalances(c: Settings, s: Session, r: Reading<Request>, env: Env)
    requires Considered(c, s, r, env).outcome == Fine
    requires env.queue.Some? ==> env.queue.value == Waiting([], FRESH)
    ensures r.Read? && Balanced(Considered(c, s, r, env).s, Ledger([], 0, []))
  {
    if r.Read? { JudgedBalances(c, s, r.value, env); }
  }

  lemma JudgedBalances(c: Settings, s: Session, request: Request, env: Env)
    requires Judged(c, s, request, env).outcome == Fine
    requires env.queue.Some? ==> env.queue.value == Waiting([], FRESH)
    ensures Balanced(Judged(c, s, request, env).s, Ledger([], 0, []))
  {
    var t := Started(Resumed(s, request, ClientOf(request).value, env), Waiting([], FRESH),
                     SessionPresent(request, env), request.cleanSession == 0);
    assert AsDup([]) == [] && Balanced(t, Ledger([], 0, []));
    NotifiedBalances(t, Ledger([], 0, []), true, true);
  }

  lemma StepBalances(c: Settings, s: Session, l: Ledger, input: Input)
    requires Alive(s) && Balanced(s, l) && FreshQueue(input)
    requires OnInput(c, s, input).outcome == Fine
    ensures Balanced(OnInput(c, s, input).s, Entry(c, s, l, input))
  {
    match input
    case ReadFailed =>
    case Arrived(msg) => ArriveAgrees(s.out, l, msg);
    case Available(fromList, fromQueue) => NotifiedBalances(s, l, fromList, fromQueue);
    case Received(command, body, env) =>
      if command / 16 == 0x1 {
        ConnectBalances(c, s, l, command, body, env);
      } else if command / 16 == 0x4 {
        AckAgrees(s.out, l, GetUint16(body, 0).value);
      }
  }

  /** QoS 1 conservation over the main loop: whatever the inputs and the connection, as long as the run goes
      on, the retained list followed by the QoS 1 messages still queued is the ledger of arrivals less
      acknowledgements, and every retained message is marked as duplicate. */
  lemma {:induction false} SessionConserves(c: Settings, s: Session, l: Ledger, inputs: seq<Input>)
    requires Alive(s) && Balanced(s, l) && Run(c, s, inputs).r == Exhausted
    requires forall i :: 0 <= i < |inputs| ==> FreshQueue(inputs[i])
    ensures Agrees(Run(c, s, inputs).s.out, Entries(c, s, l, inputs))
    decreases |inputs|
  {
    if inputs != [] {
      var t := Step(c, s, inputs[0]);
      StepKeeps(c, s, inputs[0]);
      StepBalances(c, s, l, inputs[0]);
      SessionConserves(c, t.s, Entry(c, s, l, inputs[0]), inputs[1..]);
    }
  }
}
