/** What the session sends and keeps: packet identifiers, the flush of queue and retained list, and
    acknowledgements (broker/mqtt/mqtt_session.go:207-235, 687-699, 799-832), over any connection. */
module Outbound {
  import opened Base
  import opened Codec
  import opened Packets
  import opened Connection
  import opened TransientLists

  // ---------------------------------------------------------------- packet identifiers

  /** makePacketID: the identifier handed out when the counter stands at `next`. */
  function IdAt(next: nat): nat { if next < 65535 then next else 0 }

  function NextAfter(next: nat): nat { if next < 65535 then next + 1 else 0 }

  /** The counter of a fresh session after `n` calls. */
  function CounterAfter(n: nat): nat { if n == 0 then 0 else NextAfter(CounterAfter(n - 1)) }

  lemma {:induction false} CounterClosedForm(n: nat)
    ensures CounterAfter(n) == n % 65536
  {
    if n > 0 {
      CounterClosedForm(n - 1);
    }
  }

  /** The n-th identifier is n modulo 65536, except that 65535 comes out as 0. */
  lemma PacketIdClosedForm(n: nat)
    ensures IdAt(CounterAfter(n)) == if n % 65536 == 65535 then 0 else n % 65536
  {
    CounterClosedForm(n);
  }

  /** Within 65536 consecutive calls two calls get the same identifier exactly at a wrap: the last
      call of a round and the first of the next both get 0, all other identifiers differ. */
  lemma PacketIdsRepeatOnlyAtWrap(m: nat, n: nat)
    requires m < n < m + 65536
    ensures IdAt(CounterAfter(m)) == IdAt(CounterAfter(n)) <==>
              (m % 65536 == 65535 && n == m + 1) || (m % 65536 == 0 && n == m + 65535)
  {
    PacketIdClosedForm(m);
    PacketIdClosedForm(n);
    Residues(m, n);
  }

  lemma Residues(m: nat, n: nat)
    requires m < n < m + 65536
    ensures n % 65536 == if m % 65536 + (n - m) < 65536 then m % 65536 + (n - m) else m % 65536 + (n - m) - 65536
  {
  }

  // ---------------------------------------------------------------- sending and keeping

  /** A message handed to the connection, the identifier it went under, and whether the write succeeded. */
  datatype Sent = Sent(msg: Message, pid: nat, ok: bool)

  datatype Line = Line(next: nat, log: seq<Sent>, net: Net)

  datatype OutState = OutState(queued: seq<Message>, list: ListState, line: Line)

  function EmptyOut(net: Net): OutState { OutState([], FRESH, Line(0, [], net)) }

  /** sendPublish draws an identifier for QoS above 0 only, and never stores it in the message. */
  function Drawn(line: Line, msg: Message): nat { if msg.qos > 0 then IdAt(line.next) else 0 }

  predicate Leaves(line: Line, msg: Message) { Goes(line.net, PublishFrame(msg, Drawn(line, msg))) }

  function SendOne(line: Line, msg: Message): Line {
    Line(if msg.qos > 0 then NextAfter(line.next) else line.next,
         line.log + [Sent(msg, Drawn(line, msg), Leaves(line, msg))],
         Carried(line.net, PublishFrame(msg, Drawn(line, msg))))
  }

  /** Resends the retained messages, whether or not the writes succeed. */
  function ResendAll(line: Line, msgs: seq<Message>): Line
    decreases |msgs|
  {
    if msgs == [] then line else ResendAll(SendOne(line, msgs[0]), msgs[1..])
  }

  datatype Progress = Progress(s: OutState, outcome: Outcome)

  /** Every further write fails. */
  predicate Lost(net: Net) { net.script == [] && net.dead }

  /** One round of the flush loop. A message that was sent leaves the queue, and with QoS 1 it is marked as
      duplicate and kept; otherwise it stays at the head and is tried again, for ever if every further
      write fails. */
  function FlushOne(s: OutState): Progress
    requires s.queued != []
  {
    var msg := s.queued[0];
    if Leaves(s.line, msg) then Kept(s.(queued := s.queued[1..], line := SendOne(s.line, msg)), msg)
    else Progress(s.(line := SendOne(s.line, msg)), if Lost(s.line.net) then Hang else Fine)
  }

  function Kept(s: OutState, msg: Message): Progress {
    if msg.qos != 1 then Progress(s, Fine)
    else
      var list := Pushed(s.list, msg.(dup := true));
      if list.None? then Progress(s, Panic) else Progress(s.(list := list.value), Fine)
  }

  function Effort(s: OutState): nat { |s.queued| + |s.line.net.script| }

  lemma FlushOneShrinks(s: OutState)
    requires s.queued != [] && FlushOne(s).outcome == Fine
    ensures Effort(FlushOne(s).s) < Effort(s)
  {
  }

  function Flush(s: OutState): Progress
    decreases Effort(s)
  {
    if s.queued == [] then Progress(s, Fine)
    else
      var t := FlushOne(s);
      if t.outcome != Fine then t
      else
        FlushOneShrinks(s);
        Flush(t.s)
  }

  datatype OutOp = Arrive(msg: Message) | Notify(fromList: bool, fromQueue: bool) | Ack(pid: nat)

  function Resent(s: OutState, fromList: bool): OutState {
    if fromList then s.(line := ResendAll(s.line, s.list.contents)) else s
  }

  function OutStep(s: OutState, op: OutOp): Progress {
    match op
    case Arrive(msg) => Progress(s.(queued := s.queued + [msg]), Fine)
    case Notify(fromList, fromQueue) =>
      if fromQueue then Flush(Resent(s, fromList)) else Progress(Resent(s, fromList), Fine)
    case Ack(pid) => Progress(s.(list := RemovedBy(s.list, pid)), Fine)
  }

  /** A run over a connection that starts as `net`; nothing follows a panic or a hang. */
  function RunOut(net: Net, ops: seq<OutOp>): Progress {
    if ops == [] then Progress(EmptyOut(net), Fine)
    else
      var p := RunOut(net, ops[..|ops| - 1]);
      if p.outcome != Fine then p else OutStep(p.s, ops[|ops| - 1])
  }

  // ---------------------------------------------------------------- when the flush never ends

  /** Nothing is written of a message that does not fit a packet, whatever its identifier. */
  predicate FitsPacket(msg: Message) {
    2 + |msg.topic| + (if msg.qos > 0 then 2 else 0) + |msg.payload| <= MAX_REMAINING
  }

  lemma FrameThere(msg: Message, pid: nat)
    ensures PublishFrame(msg, pid) != [] <==> FitsPacket(msg)
  {
    EncodeRefuses(|PublishBody(msg, pid)|);
  }

  function Retried(s: OutState, n: nat): OutState
    requires s.queued != []
    ensures Retried(s, n).queued != []
  {
    if n == 0 then s
    else
      var t := Retried(s, n - 1);
      t.(line := SendOne(t.line, t.queued[0]))
  }

  /** A hanging flush makes no progress in any number of rounds: queue, retained list and wire stay as they
      are, only identifiers are used up. */
  lemma {:induction false} HangIsForever(s: OutState, n: nat)
    requires s.queued != [] && FlushOne(s).outcome == Hang
    ensures var t := Retried(s, n);
            && t.queued == s.queued && t.list == s.list && t.line.net == s.line.net
            && FlushOne(t) == Progress(Retried(s, n + 1), Hang)
  {
    FrameThere(s.queued[0], Drawn(s.line, s.queued[0]));
    if n > 0 {
      HangIsForever(s, n - 1);
    }
    FrameThere(s.queued[0], Drawn(Retried(s, n).line, s.queued[0]));
  }

  function TakesIn(script: seq<Answer>): nat {
    if script == [] then 0 else (if script[0].Takes? then 1 else 0) + TakesIn(script[1..])
  }

  function Fitting(msgs: seq<Message>): nat {
    if msgs == [] then 0 else (if FitsPacket(msgs[0]) then 1 else 0) + Fitting(msgs[1..])
  }

  predicate AnyQos1(msgs: seq<Message>) { exists i :: 0 <= i < |msgs| && msgs[i].qos == 1 }

  /** The messages up to the first one of QoS 1, which is included. */
  function UpToQos1(msgs: seq<Message>): seq<Message> {
    if msgs == [] then [] else if msgs[0].qos == 1 then [msgs[0]] else [msgs[0]] + UpToQos1(msgs[1..])
  }

  /** The messages that a flush gets to: a list without a slot stops it at the first one it has to retain. */
  function Tried(queued: seq<Message>, size: nat): seq<Message> { if size > 0 then queued else UpToQos1(queued) }

  /** How a flush ends, from the queue, the slots of the retained list and the answers of the connection. */
  function FlushVerdict(queued: seq<Message>, size: nat, script: seq<Answer>, dead: bool): Outcome {
    if dead && TakesIn(script) < Fitting(Tried(queued, size)) then Hang
    else if size == 0 && AnyQos1(queued) then Panic
    else Fine
  }

  /** What a send does to the connection. */
  lemma SendNet(line: Line, msg: Message)
    ensures var net, after := line.net, SendOne(line, msg).net;
            && after.dead == net.dead
            && (!FitsPacket(msg) ==> Leaves(line, msg) && after == net)
            && (FitsPacket(msg) ==> (Leaves(line, msg) <==> if net.script == [] then !net.dead else net.script[0].Takes?))
            && (FitsPacket(msg) ==> after.script == if net.script == [] then [] else net.script[1..])
  {
    FrameThere(msg, Drawn(line, msg));
  }

  lemma Qos1Rest(queued: seq<Message>)
    requires queued != []
    ensures AnyQos1(queued) <==> queued[0].qos == 1 || AnyQos1(queued[1..])
  {
    if AnyQos1(queued) {
      var i :| 0 <= i < |queued| && queued[i].qos == 1;
      if i > 0 { assert queued[1..][i - 1].qos == 1; }
    }
    if AnyQos1(queued[1..]) {
      var i :| 0 <= i < |queued[1..]| && queued[1..][i].qos == 1;
      assert queued[i + 1].qos == 1;
    }
  }

  /** What is left to try once the head has been sent. */
  lemma TriedRest(queued: seq<Message>, size: nat)
    requires queued != []
    ensures var head := if FitsPacket(queued[0]) then 1 else 0;
            Fitting(Tried(queued, size)) ==
            head + if size == 0 && queued[0].qos == 1 then 0 else Fitting(Tried(queued[1..], size))
  {
    if size == 0 && queued[0].qos != 1 { assert UpToQos1(queued)[1..] == UpToQos1(queued[1..]); }
  }

  lemma KeptSize(s: OutState, msg: Message)
    ensures var p := Kept(s, msg);
            && p.outcome == (if s.list.size == 0 && msg.qos == 1 then Panic else Fine)
            && p.s.queued == s.queued && p.s.line == s.line && (p.s.list.size == 0 <==> s.list.size == 0)
  {
  }

  /** When a flush ends well, when it takes the retained list out of range, and when it never ends: it hangs
      if and only if the connection is dead and fewer writes will still be taken than messages that fit a
      packet are to be sent. */
  lemma {:induction false} FlushEnds(s: OutState)
    ensures Flush(s).outcome == FlushVerdict(s.queued, s.list.size, s.line.net.script, s.line.net.dead)
    decreases Effort(s)
  {
    if s.queued != [] {
      var msg, t := s.queued[0], FlushOne(s);
      SendNet(s.line, msg);
      TriedRest(s.queued, s.list.size);
      Qos1Rest(s.queued);
      if Leaves(s.line, msg) {
        KeptSize(s.(queued := s.queued[1..], line := SendOne(s.line, msg)), msg);
      }
      if t.outcome == Fine {
        FlushOneShrinks(s);
        FlushEnds(t.s);
        SameTried(s.queued, s.list.size, t.s.list.size);
        SameTried(s.queued[1..], s.list.size, t.s.list.size);
      }
    }
  }

  lemma SameTried(queued: seq<Message>, size: nat, now: nat)
    requires size == 0 <==> now == 0
    ensures Tried(queued, now) == Tried(queued, size)
  {
  }

  /** The answers left after `n` writes. */
  function AfterWrites(script: seq<Answer>, n: nat): seq<Answer> { script[if n <= |script| then n else |script|..] }

  lemma {:induction false} ResendNet(line: Line, msgs: seq<Message>)
    ensures ResendAll(line, msgs).net.dead == line.net.dead
    ensures ResendAll(line, msgs).net.script == AfterWrites(line.net.script, Fitting(msgs))
    decreases |msgs|
  {
    if msgs != [] {
      SendNet(line, msgs[0]);
      ResendNet(SendOne(line, msgs[0]), msgs[1..]);
    }
  }

  /** How a notification ends. */
  function NotifyVerdict(queued: seq<Message>, list: ListState, script: seq<Answer>, dead: bool, fromList: bool, fromQueue: bool):
    Outcome
  {
    if !fromQueue then Fine
    else FlushVerdict(queued, list.size, if fromList then AfterWrites(script, Fitting(list.contents)) else script, dead)
  }

  lemma NotifyEnds(s: OutState, fromList: bool, fromQueue: bool)
    ensures OutStep(s, Notify(fromList, fromQueue)).outcome ==
            NotifyVerdict(s.queued, s.list, s.line.net.script, s.line.net.dead, fromList, fromQueue)
  {
    if fromList { ResendNet(s.line, s.list.contents); }
    FlushEnds(Resent(s, fromList));
  }

  // ---------------------------------------------------------------- conservation

  /** The reference: the unacknowledged QoS 1 messages in arrival order, of which the first `sent` have
      been sent, and those that an acknowledgement removed. */
  datatype Ledger = Ledger(pending: seq<Message>, sent: nat, acked: seq<Message>)

  function Settle(l: Ledger, pid: nat): Ledger
    requires l.sent <= |l.pending|
  {
    var i := FirstWith(l.pending[..l.sent], pid);
    if i == l.sent then l
    else Ledger(Without(l.pending, i), l.sent - 1, l.acked + [l.pending[i]])
  }

  function Book(l: Ledger, op: OutOp): (r: Ledger)
    requires l.sent <= |l.pending|
    ensures r.sent <= |r.pending|
  {
    match op
    case Arrive(msg) => if msg.qos == 1 then l.(pending := l.pending + [msg]) else l
    case Notify(_, fromQueue) => if fromQueue then l.(sent := |l.pending|) else l
    case Ack(pid) => Settle(l, pid)
  }

  function RunLedger(ops: seq<OutOp>): (l: Ledger)
    ensures l.sent <= |l.pending|
  {
    if ops == [] then Ledger([], 0, []) else Book(RunLedger(ops[..|ops| - 1]), ops[|ops| - 1])
  }

  function Qos1(msgs: seq<Message>): seq<Message> {
    if msgs == [] then []
    else if msgs[0].qos == 1 then [msgs[0]] + Qos1(msgs[1..]) else Qos1(msgs[1..])
  }

  function AsDup(msgs: seq<Message>): seq<Message> {
    seq(|msgs|, i requires 0 <= i < |msgs| => msgs[i].(dup := true))
  }

  /** The broker holds what the ledger says: the sent part is retained and marked as duplicate, the
      rest is still queued. */
  predicate Agrees(s: OutState, l: Ledger) {
    && l.sent <= |l.pending|
    && s.list.contents == AsDup(l.pending[..l.sent])
    && Qos1(s.queued) == l.pending[l.sent..]
  }

  lemma {:induction false} Qos1Append(msgs: seq<Message>, msg: Message)
    ensures Qos1(msgs + [msg]) == if msg.qos == 1 then Qos1(msgs) + [msg] else Qos1(msgs)
  {
    if msgs != [] {
      Qos1Append(msgs[1..], msg);
      assert (msgs + [msg])[1..] == msgs[1..] + [msg];
    }
  }

  /** How far the ledger moves in one round of the flush. */
  function SentIn(s: OutState): nat
    requires s.queued != []
  {
    if Leaves(s.line, s.queued[0]) && s.queued[0].qos == 1 then 1 else 0
  }

  lemma FlushOneAgrees(s: OutState, l: Ledger)
    requires Agrees(s, l) && s.queued != [] && FlushOne(s).outcome == Fine
    ensures Agrees(FlushOne(s).s, l.(sent := l.sent + SentIn(s)))
  {
    if Leaves(s.line, s.queued[0]) {
      KeptAgrees(s, l, SendOne(s.line, s.queued[0]));
    }
  }

  lemma KeptAgrees(s: OutState, l: Ledger, line: Line)
    requires Agrees(s, l) && s.queued != []
    requires Kept(s.(queued := s.queued[1..], line := line), s.queued[0]).outcome == Fine
    ensures Agrees(Kept(s.(queued := s.queued[1..], line := line), s.queued[0]).s,
                   l.(sent := if s.queued[0].qos == 1 then l.sent + 1 else l.sent))
  {
    if s.queued[0].qos == 1 {
      var n := l.sent;
      assert l.pending[n..][0] == s.queued[0];
      assert l.pending[..n + 1] == l.pending[..n] + [s.queued[0]];
      assert AsDup(l.pending[..n + 1]) == AsDup(l.pending[..n]) + [s.queued[0].(dup := true)];
      assert l.pending[n + 1..] == l.pending[n..][1..];
    }
  }

  lemma {:induction false} FlushAgrees(s: OutState, l: Ledger)
    requires Agrees(s, l) && Flush(s).outcome == Fine
    ensures Agrees(Flush(s).s, l.(sent := |l.pending|)) && Flush(s).s.queued == []
    decreases Effort(s)
  {
    if s.queued == [] {
      assert l.pending[l.sent..] == [];
    } else {
      FlushOneAgrees(s, l);
      FlushOneShrinks(s);
      FlushAgrees(FlushOne(s).s, l.(sent := l.sent + SentIn(s)));
    }
  }

  lemma {:induction false} FirstWithAsDup(msgs: seq<Message>, pid: nat)
    ensures FirstWith(AsDup(msgs), pid) == FirstWith(msgs, pid)
  {
    FirstWithIs(AsDup(msgs), pid, FirstWith(msgs, pid));
  }

  lemma WithoutInFront(msgs: seq<Message>, n: nat, i: nat)
    requires i < n <= |msgs|
    ensures Without(msgs, i)[..n - 1] == Without(msgs[..n], i) && Without(msgs, i)[n - 1..] == msgs[n..]
  {
  }

  lemma AsDupWithout(msgs: seq<Message>, i: nat)
    requires i < |msgs|
    ensures AsDup(Without(msgs, i)) == Without(AsDup(msgs), i)
  {
  }

  lemma AckAgrees(s: OutState, l: Ledger, pid: nat)
    requires Agrees(s, l)
    ensures Agrees(s.(list := RemovedBy(s.list, pid)), Settle(l, pid))
  {
    var front := l.pending[..l.sent];
    FirstWithAsDup(front, pid);
    var i := FirstWith(front, pid);
    if i < l.sent {
      WithoutInFront(l.pending, l.sent, i);
      AsDupWithout(front, i);
    }
  }

  /** QoS 1 conservation: in every run, over every connection, the retained list followed by the QoS 1
      messages still queued is the ledger, and every retained message is marked as duplicate. */
  lemma {:induction false} Conservation(net: Net, ops: seq<OutOp>)
    requires RunOut(net, ops).outcome == Fine
    ensures Agrees(RunOut(net, ops).s, RunLedger(ops))
  {
    if ops != [] {
      var before := ops[..|ops| - 1];
      Conservation(net, before);
      var s, l := RunOut(net, before).s, RunLedger(before);
      match ops[|ops| - 1]
      case Arrive(msg) => ArriveAgrees(s, l, msg);
      case Notify(fromList, fromQueue) =>
        if fromQueue { FlushAgrees(Resent(s, fromList), l); }
      case Ack(pid) => AckAgrees(s, l, pid);
    }
  }

  lemma ArriveAgrees(s: OutState, l: Ledger, msg: Message)
    requires Agrees(s, l)
    ensures Agrees(s.(queued := s.queued + [msg]), Book(l, Arrive(msg)))
  {
    Qos1Append(s.queued, msg);
    if msg.qos == 1 {
      assert (l.pending + [msg])[..l.sent] == l.pending[..l.sent];
      assert (l.pending + [msg])[l.sent..] == l.pending[l.sent..] + [msg];
    }
  }

  function Arrivals(ops: seq<OutOp>): seq<Message> {
    if ops == [] then []
    else if ops[|ops| - 1].Arrive? then Arrivals(ops[..|ops| - 1]) + [ops[|ops| - 1].msg]
    else Arrivals(ops[..|ops| - 1])
  }

  /** `small` is `big` with some elements left out, in the same order. */
  predicate Subsequence(small: seq<Message>, big: seq<Message>) {
    if small == [] then true
    else if big == [] then false
    else if small[|small| - 1] == big[|big| - 1] && Subsequence(small[..|small| - 1], big[..|big| - 1]) then true
    else Subsequence(small, big[..|big| - 1])
  }

  lemma {:induction false} SubsequenceSnoc(small: seq<Message>, big: seq<Message>, x: Message)
    requires Subsequence(small, big)
    ensures Subsequence(small + [x], big + [x])
  {
    assert (small + [x])[..|small|] == small && (big + [x])[..|big|] == big;
  }

  lemma {:induction false} SubsequenceCut(small: seq<Message>, big: seq<Message>, i: nat)
    requires Subsequence(small, big) && i < |small|
    ensures Subsequence(Without(small, i), big)
    decreases |big|
  {
    var n, m := |small| - 1, |big| - 1;
    if small[n] == big[m] && Subsequence(small[..n], big[..m]) {
      if i < n { SubsequenceCut(small[..n], big[..m], i); }
      CutBehindLast(small, small[..n], big, big[..m], i);
    } else {
      SubsequenceCut(small, big[..m], i);
      SubsequenceSkip(Without(small, i), big);
    }
  }

  lemma CutBehindLast(small: seq<Message>, smaller: seq<Message>, big: seq<Message>, bigger: seq<Message>, i: nat)
    requires i < |small| && big != [] && smaller == small[..|small| - 1] && bigger == big[..|big| - 1]
    requires small[|small| - 1] == big[|big| - 1] && Subsequence(smaller, bigger)
    requires i < |smaller| ==> Subsequence(Without(smaller, i), bigger)
    ensures Subsequence(Without(small, i), big)
  {
    var x := big[|big| - 1];
    assert big == bigger + [x];
    assert Without(small, i) == if i < |smaller| then Without(smaller, i) + [x] else smaller by {
      WithoutLast(small, i);
    }
    if i < |smaller| {
      SubsequenceSnoc(Without(smaller, i), bigger, x);
    } else {
      SubsequenceSkip(smaller, big);
    }
  }

  lemma WithoutLast(msgs: seq<Message>, i: nat)
    requires i < |msgs|
    ensures var n := |msgs| - 1;
            Without(msgs, i) == if i == n then msgs[..n] else Without(msgs[..n], i) + [msgs[n]]
  {
  }

  lemma SubsequenceSkip(small: seq<Message>, big: seq<Message>)
    requires big != [] && Subsequence(small, big[..|big| - 1])
    ensures Subsequence(small, big)
  {
  }

  lemma {:induction false} PendingInOrder(ops: seq<OutOp>)
    ensures Subsequence(RunLedger(ops).pending, Qos1(Arrivals(ops)))
  {
    if ops != [] {
      var n := |ops| - 1;
      PendingInOrder(ops[..n]);
      var l := RunLedger(ops[..n]);
      if ops[n].Arrive? {
        Qos1Append(Arrivals(ops[..n]), ops[n].msg);
        SubsequenceSnoc(l.pending, Qos1(Arrivals(ops[..n])), ops[n].msg);
      } else if ops[n].Ack? {
        var i := FirstWith(l.pending[..l.sent], ops[n].pid);
        if i < l.sent { SubsequenceCut(l.pending, Qos1(Arrivals(ops)), i); }
      }
    }
  }

  lemma {:induction false} PendingPlusAcked(ops: seq<OutOp>)
    ensures multiset(Qos1(Arrivals(ops))) == multiset(RunLedger(ops).pending) + multiset(RunLedger(ops).acked)
  {
    if ops != [] {
      var n := |ops| - 1;
      PendingPlusAcked(ops[..n]);
      var l := RunLedger(ops[..n]);
      if ops[n].Arrive? {
        Qos1Append(Arrivals(ops[..n]), ops[n].msg);
      } else if ops[n].Ack? {
        var i := FirstWith(l.pending[..l.sent], ops[n].pid);
        if i < l.sent { WithoutMultiset(l.pending, i); }
      }
    }
  }

  lemma WithoutMultiset(msgs: seq<Message>, i: nat)
    requires i < |msgs|
    ensures multiset(msgs) == multiset(Without(msgs, i)) + multiset{msgs[i]}
  {
    assert msgs == msgs[..i] + [msgs[i]] + msgs[i + 1..];
  }

  lemma {:induction false} AcksBound(ops: seq<OutOp>)
    ensures |RunLedger(ops).acked| <= |set i | 0 <= i < |ops| && ops[i].Ack?|
  {
    if ops != [] {
      AcksBound(ops[..|ops| - 1]);
      AckCount(ops);
    }
  }

  /** Nothing is lost, invented or reordered: the QoS 1 arrivals are the pending messages, in arrival
      order, together with those acknowledged, and every acknowledgement removes at most one. */
  lemma LedgerBalances(ops: seq<OutOp>)
    ensures var l := RunLedger(ops);
            && Subsequence(l.pending, Qos1(Arrivals(ops)))
            && multiset(Qos1(Arrivals(ops))) == multiset(l.pending) + multiset(l.acked)
            && |l.acked| <= |set i | 0 <= i < |ops| && ops[i].Ack?|
  {
    PendingInOrder(ops);
    PendingPlusAcked(ops);
    AcksBound(ops);
  }

  lemma AckCount(ops: seq<OutOp>)
    requires ops != []
    ensures var n := |ops| - 1;
            |set i | 0 <= i < |ops| && ops[i].Ack?|
            == |set i | 0 <= i < n && ops[..n][i].Ack?| + if ops[n].Ack? then 1 else 0
  {
    var n := |ops| - 1;
    var before := set i | 0 <= i < n && ops[..n][i].Ack?;
    assert (set i | 0 <= i < |ops| && ops[i].Ack?) == if ops[n].Ack? then before + {n} else before;
  }

  // ---------------------------------------------------------------- room for what is retained

  /** As long as fewer than sixteen messages have been acknowledged, the retained list never goes out of
      range, so that `Conservation` covers every run that does not hang. */
  lemma {:induction false} FewAcksNeverPanic(net: Net, ops: seq<OutOp>)
    requires |RunLedger(ops).acked| < MIN_QUEUE_LEN
    ensures RunOut(net, ops).outcome != Panic
    ensures RunOut(net, ops).outcome == Fine ==> Room(RunOut(net, ops).s.list, |RunLedger(ops).acked|)
  {
    if ops != [] {
      var n := |ops| - 1;
      var l := RunLedger(ops[..n]);
      AckedGrows(l, ops[n]);
      FewAcksNeverPanic(net, ops[..n]);
      if RunOut(net, ops[..n]).outcome == Fine {
        var s := RunOut(net, ops[..n]).s;
        match ops[n]
        case Arrive(_) =>
        case Notify(fromList, fromQueue) =>
          if fromQueue { FlushKeepsRoom(Resent(s, fromList), |l.acked|); }
        case Ack(pid) =>
          Conservation(net, ops[..n]);
          FirstWithAsDup(l.pending[..l.sent], pid);
          RemovedRoom(s.list, pid, |l.acked|);
      }
    }
  }

  lemma AckedGrows(l: Ledger, op: OutOp)
    requires l.sent <= |l.pending|
    ensures |l.acked| <= |Book(l, op).acked|
  {
  }

  lemma {:induction false} FlushKeepsRoom(s: OutState, r: nat)
    requires Room(s.list, r) && r < MIN_QUEUE_LEN
    ensures Flush(s).outcome != Panic && Room(Flush(s).s.list, r)
    decreases Effort(s)
  {
    if s.queued != [] {
      var t := FlushOne(s);
      FlushOneKeepsRoom(s, r);
      if t.outcome == Fine {
        FlushOneShrinks(s);
        FlushKeepsRoom(t.s, r);
      }
    }
  }

  lemma FlushOneKeepsRoom(s: OutState, r: nat)
    requires s.queued != [] && Room(s.list, r) && r < MIN_QUEUE_LEN
    ensures FlushOne(s).outcome != Panic && Room(FlushOne(s).s.list, r)
  {
    if s.queued[0].qos == 1 { PushedRoom(s.list, s.queued[0].(dup := true), r); }
  }

  // ---------------------------------------------------------------- what a PUBACK releases

  /** Messages reach the queue with packet identifier 0 (session_manager.go:219-224). */
  predicate ZeroArrivals(ops: seq<OutOp>) {
    forall i :: 0 <= i < |ops| && ops[i].Arrive? ==> ops[i].msg.packetId == 0
  }

  lemma {:induction false} ZeroPending(ops: seq<OutOp>)
    requires ZeroArrivals(ops)
    ensures forall i :: 0 <= i < |RunLedger(ops).pending| ==> RunLedger(ops).pending[i].packetId == 0
  {
    if ops != [] {
      ZeroPending(ops[..|ops| - 1]);
    }
  }

  lemma FirstOfZeros(msgs: seq<Message>, pid: nat)
    requires forall i :: 0 <= i < |msgs| ==> msgs[i].packetId == 0
    ensures FirstWith(msgs, pid) == if pid == 0 then 0 else |msgs|
  {
    FirstWithIs(msgs, pid, if pid == 0 then 0 else |msgs|);
  }

  /** sendPublish never stores the identifier it draws. So a PUBACK releases a message if and only if it
      carries identifier 0 and something is retained, and then always the oldest, whatever identifier that
      one was sent under. */
  lemma AckReleasesIff(ops: seq<OutOp>, pid: nat)
    requires ZeroArrivals(ops)
    ensures var l, r := RunLedger(ops), RunLedger(ops + [Ack(pid)]);
            if pid == 0 && l.sent > 0 then r == Ledger(l.pending[1..], l.sent - 1, l.acked + [l.pending[0]])
            else r == l
  {
    var l := RunLedger(ops);
    ZeroPending(ops);
    FirstOfZeros(l.pending[..l.sent], pid);
    assert (ops + [Ack(pid)])[..|ops|] == ops;
    if l.sent > 0 { assert Without(l.pending, 0) == l.pending[1..]; }
  }

  /** Hence PUBACKs with other identifiers release nothing, ever. */
  lemma {:induction false} NonzeroAcksReleaseNothing(ops: seq<OutOp>)
    requires ZeroArrivals(ops)
    requires forall i :: 0 <= i < |ops| && ops[i].Ack? ==> ops[i].pid != 0
    ensures RunLedger(ops).pending == Qos1(Arrivals(ops)) && RunLedger(ops).acked == []
  {
    if ops != [] {
      var n := |ops| - 1;
      NonzeroAcksReleaseNothing(ops[..n]);
      if ops[n].Arrive? { Qos1Append(Arrivals(ops[..n]), ops[n].msg); }
      if ops[n].Ack? {
        AckReleasesIff(ops[..n], ops[n].pid);
        assert ops == ops[..n] + [Ack(ops[n].pid)];
      }
    }
  }

  // ---------------------------------------------------------------- the identifiers of retained messages

  /** The identifiers that a resend of these messages draws. */
  function ResendIds(line: Line, msgs: seq<Message>): seq<nat>
    decreases |msgs|
  {
    if msgs == [] then [] else [Drawn(line, msgs[0])] + ResendIds(SendOne(line, msgs[0]), msgs[1..])
  }

  /** The identifiers of the retained messages after a round of the flush. */
  function FlushedIds(s: OutState, ids: seq<nat>): seq<nat>
    requires s.queued != []
  {
    if SentIn(s) == 1 then ids + [Drawn(s.line, s.queued[0])] else ids
  }

  function FlushIds(s: OutState, ids: seq<nat>): seq<nat>
    decreases Effort(s)
  {
    if s.queued == [] || FlushOne(s).outcome != Fine then ids
    else
      FlushOneShrinks(s);
      FlushIds(FlushOne(s).s, FlushedIds(s, ids))
  }

  function StepIds(s: OutState, ids: seq<nat>, op: OutOp): seq<nat> {
    match op
    case Arrive(_) => ids
    case Notify(fromList, fromQueue) =>
      var now := if fromList then ResendIds(s.line, s.list.contents) else ids;
      if fromQueue then FlushIds(Resent(s, fromList), now) else now
    case Ack(pid) => Without(ids, FirstWith(s.list.contents, pid))
  }

  /** For each retained message, in order, the identifier it was last sent under. */
  function LastIds(net: Net, ops: seq<OutOp>): seq<nat> {
    if ops == [] then []
    else
      var n := |ops| - 1;
      StepIds(RunOut(net, ops[..n]).s, LastIds(net, ops[..n]), ops[n])
  }

  /** The log has an entry with this identifier for each of these messages. */
  predicate Logged(log: seq<Sent>, msgs: seq<Message>, ids: seq<nat>) {
    |ids| == |msgs| && forall k :: 0 <= k < |msgs| ==> WasSent(log, msgs[k], ids[k])
  }

  predicate WasSent(log: seq<Sent>, msg: Message, pid: nat) {
    exists j :: 0 <= j < |log| && log[j].pid == pid && log[j].msg.(dup := msg.dup) == msg
  }

  lemma WasSentMore(log: seq<Sent>, more: seq<Sent>, msg: Message, pid: nat)
    requires WasSent(log, msg, pid)
    ensures WasSent(log + more, msg, pid)
  {
    var j :| 0 <= j < |log| && log[j].pid == pid && log[j].msg.(dup := msg.dup) == msg;
    assert (log + more)[j] == log[j];
  }

  lemma LoggedMore(log: seq<Sent>, more: seq<Sent>, msgs: seq<Message>, ids: seq<nat>)
    requires Logged(log, msgs, ids)
    ensures Logged(log + more, msgs, ids)
  {
    forall k | 0 <= k < |msgs|
      ensures WasSent(log + more, msgs[k], ids[k])
    {
      WasSentMore(log, more, msgs[k], ids[k]);
    }
  }

  lemma {:induction false} ResendLogged(line: Line, msgs: seq<Message>) returns (more: seq<Sent>)
    ensures ResendAll(line, msgs).log == line.log + more
    ensures Logged(ResendAll(line, msgs).log, msgs, ResendIds(line, msgs))
    decreases |msgs|
  {
    if msgs == [] {
      more := [];
    } else {
      var sent := Sent(msgs[0], Drawn(line, msgs[0]), Leaves(line, msgs[0]));
      more := ResendLogged(SendOne(line, msgs[0]), msgs[1..]);
      FirstLogged(line.log, sent, more, msgs[0]);
      more := [sent] + more;
    }
  }

  lemma FirstLogged(log: seq<Sent>, sent: Sent, more: seq<Sent>, msg: Message)
    requires sent.msg.(dup := msg.dup) == msg
    ensures log + [sent] + more == log + ([sent] + more)
    ensures WasSent(log + [sent] + more, msg, sent.pid)
  {
    assert (log + [sent] + more)[|log|] == sent;
  }

  lemma FlushOneLogged(s: OutState, ids: seq<nat>)
    requires s.queued != [] && FlushOne(s).outcome == Fine && Logged(s.line.log, s.list.contents, ids)
    ensures Logged(FlushOne(s).s.line.log, FlushOne(s).s.list.contents, FlushedIds(s, ids))
  {
    var msg := s.queued[0];
    var sent := Sent(msg, Drawn(s.line, msg), Leaves(s.line, msg));
    LoggedMore(s.line.log, [sent], s.list.contents, ids);
    FirstLogged(s.line.log, sent, [], msg.(dup := true));
    assert s.line.log + [sent] + [] == s.line.log + [sent];
  }

  lemma {:induction false} FlushLogged(s: OutState, ids: seq<nat>)
    requires Flush(s).outcome == Fine && Logged(s.line.log, s.list.contents, ids)
    ensures Logged(Flush(s).s.line.log, Flush(s).s.list.contents, FlushIds(s, ids))
    decreases Effort(s)
  {
    if s.queued != [] {
      FlushOneShrinks(s);
      FlushOneLogged(s, ids);
      FlushLogged(FlushOne(s).s, FlushedIds(s, ids));
    }
  }

  lemma CutLogged(log: seq<Sent>, msgs: seq<Message>, ids: seq<nat>, i: nat)
    requires Logged(log, msgs, ids)
    ensures Logged(log, Without(msgs, i), Without(ids, i))
  {
    forall k | 0 <= k < |Without(msgs, i)|
      ensures WasSent(log, Without(msgs, i)[k], Without(ids, i)[k])
    {
      var j := if i <= k && i < |msgs| then k + 1 else k;
      WithoutAt(msgs, i, k, j);
      WithoutAt(ids, i, k, j);
    }
  }

  lemma WithoutAt<T>(all: seq<T>, i: nat, k: nat, j: nat)
    requires k < |Without(all, i)| && j == if i <= k && i < |all| then k + 1 else k
    ensures j < |all| && Without(all, i)[k] == all[j]
  {
  }

  /** The identifiers are those of the log. */
  lemma {:induction false} LastIdsLogged(net: Net, ops: seq<OutOp>)
    requires RunOut(net, ops).outcome == Fine
    ensures Logged(RunOut(net, ops).s.line.log, RunOut(net, ops).s.list.contents, LastIds(net, ops))
  {
    if ops != [] {
      var n := |ops| - 1;
      LastIdsLogged(net, ops[..n]);
      var s, ids := RunOut(net, ops[..n]).s, LastIds(net, ops[..n]);
      match ops[n]
      case Arrive(_) =>
      case Notify(fromList, fromQueue) => NotifyLogged(s, ids, fromList, fromQueue);
      case Ack(pid) => CutLogged(s.line.log, s.list.contents, ids, FirstWith(s.list.contents, pid));
    }
  }

  lemma NotifyLogged(s: OutState, ids: seq<nat>, fromList: bool, fromQueue: bool)
    requires Logged(s.line.log, s.list.contents, ids) && OutStep(s, Notify(fromList, fromQueue)).outcome == Fine
    ensures var t := OutStep(s, Notify(fromList, fromQueue)).s;
            Logged(t.line.log, t.list.contents, StepIds(s, ids, Notify(fromList, fromQueue)))
  {
    if fromList { var _ := ResendLogged(s.line, s.list.contents); }
    if fromQueue {
      FlushLogged(Resent(s, fromList), if fromList then ResendIds(s.line, s.list.contents) else ids);
    }
  }

  /** The PUBACK for the identifier under which a retained message was last sent finds that message if and
      only if the identifier is 0 and the message is the oldest one retained. */
  lemma AckFindsItsMessageIff(net: Net, ops: seq<OutOp>, k: nat)
    requires ZeroArrivals(ops) && RunOut(net, ops).outcome == Fine && k < |RunOut(net, ops).s.list.contents|
    ensures k < |LastIds(net, ops)|
    ensures FirstWith(RunOut(net, ops).s.list.contents, LastIds(net, ops)[k]) == k <==> LastIds(net, ops)[k] == 0 && k == 0
  {
    LastIdsLogged(net, ops);
    Conservation(net, ops);
    ZeroPending(ops);
    FirstOfZeros(RunOut(net, ops).s.list.contents, LastIds(net, ops)[k]);
  }

  function TwoSent(a: Message, b: Message): seq<OutOp> { [Arrive(a)] + [Arrive(b)] + [Notify(false, true)] }

  /** Two QoS 1 messages go out under the identifiers 0 and 1, and the PUBACK for the second releases
      nothing. */
  lemma SecondAckLost(net: Net, a: Message, b: Message)
    requires Reliable(net) && a.qos == 1 && b.qos == 1 && a.packetId == 0 && b.packetId == 0
    ensures RunOut(net, TwoSent(a, b)).outcome == Fine && LastIds(net, TwoSent(a, b)) == [0, 1]
    ensures var l := RunLedger(TwoSent(a, b)); l == Ledger([a, b], 2, []) && RunLedger(TwoSent(a, b) + [Ack(1)]) == l
  {
    var first, second := [Arrive(a)], [Arrive(a)] + [Arrive(b)];
    var s := EmptyOut(net).(queued := [a, b]);
    assert first == [] + [Arrive(a)] && [] + [a] == [a] && [a] + [b] == [a, b];
    RunStep(net, [], Arrive(a));
    RunStep(net, first, Arrive(b));
    RunStep(net, second, Notify(false, true));
    assert RunOut(net, second) == Progress(s, Fine);
    FlushTwo(s, a, b);
    AckReleasesIff(TwoSent(a, b), 1);
  }

  lemma RunStep(net: Net, ops: seq<OutOp>, op: OutOp)
    requires RunOut(net, ops).outcome == Fine
    ensures RunOut(net, ops + [op]) == OutStep(RunOut(net, ops).s, op)
    ensures LastIds(net, ops + [op]) == StepIds(RunOut(net, ops).s, LastIds(net, ops), op)
    ensures RunLedger(ops + [op]) == Book(RunLedger(ops), op)
  {
    assert (ops + [op])[..|ops|] == ops;
  }

  lemma FlushTwo(s: OutState, a: Message, b: Message)
    requires s.queued == [a, b] && s.list == FRESH && s.line.next == 0 && Reliable(s.line.net) && a.qos == 1 && b.qos == 1
    ensures Flush(s).outcome == Fine && FlushIds(s, []) == [0, 1]
  {
    var t := FlushReliable(s, []);
    var u := FlushReliable(t, [0]);
    assert [] + [0] == [0] && [0] + [1] == [0, 1];
    assert Flush(u) == Progress(u, Fine) && FlushIds(u, [0, 1]) == [0, 1];
  }

  lemma FlushReliable(s: OutState, ids: seq<nat>) returns (t: OutState)
    requires s.queued != [] && s.queued[0].qos == 1 && Reliable(s.line.net) && |s.list.contents| < s.list.size
    ensures t.queued == s.queued[1..] && Reliable(t.line.net) && t.line.next == NextAfter(s.line.next)
    ensures t.list.size == s.list.size && |t.list.contents| == |s.list.contents| + 1
    ensures Flush(s) == Flush(t) && FlushIds(s, ids) == FlushIds(t, ids + [IdAt(s.line.next)])
  {
    ReliableCarries(s.line.net, PublishFrame(s.queued[0], Drawn(s.line, s.queued[0])));
    FlushOneShrinks(s);
    t := FlushOne(s).s;
  }
}
