/** What a notification puts on the wire of a connection that does not fail: one frame per message, in order,
    under identifiers that count up. */
module Deliveries {
  import opened Base
  import opened Codec
  import opened Packets
  import opened Transport
  import opened Connection
  import opened TransientLists
  import opened Outbound

  /** How many of the messages need an identifier. */
  function Numbered(msgs: seq<Message>): nat {
    if msgs == [] then 0
    else Numbered(msgs[..|msgs| - 1]) + if msgs[|msgs| - 1].qos > 0 then 1 else 0
  }

  /** The counter after `n` more identifiers. */
  function Counter(next: nat, n: nat): nat { if n == 0 then next else NextAfter(Counter(next, n - 1)) }

  lemma {:induction false} CounterAhead(next: nat, n: nat)
    requires next < 65536
    ensures Counter(next, n) == (next + n) % 65536
  {
    if n > 0 {
      CounterAhead(next, n - 1);
      NextModulo(next + n - 1);
    }
  }

  lemma NextModulo(x: nat)
    ensures NextAfter(x % 65536) == (x + 1) % 65536
  {
    var q, r := x / 65536, x % 65536;
    assert x + 1 == 65536 * q + (r + 1);
  }

  lemma {:induction false} CounterAdds(next: nat, m: nat, n: nat)
    ensures Counter(Counter(next, m), n) == Counter(next, m + n)
  {
    if n > 0 { CounterAdds(next, m, n - 1); }
  }

  /** The identifier that message `i` goes under when the counter stands at `next`: 0 at QoS 0, else the counter
      moved on by the messages before it that need one, modulo 65536, with 0 in place of 65535. */
  function PidAt(next: nat, msgs: seq<Message>, i: nat): nat
    requires i < |msgs|
  {
    Pid(msgs[i].qos, next, Numbered(msgs[..i]))
  }

  function Pid(qos: nat, next: nat, before: nat): nat { if qos == 0 then 0 else IdAt(Counter(next, before)) }

  function Posted(next: nat, msgs: seq<Message>): seq<Sent> {
    seq(|msgs|, i requires 0 <= i < |msgs| => Sent(msgs[i], PidAt(next, msgs, i), true))
  }

  function Frames(sent: seq<Sent>): seq<seq<byte>> {
    seq(|sent|, i requires 0 <= i < |sent| => PublishFrame(sent[i].msg, sent[i].pid))
  }

  /** A line that works. */
  predicate Up(line: Line) { line.next < 65536 && Reliable(line.net) }

  /** Exactly these messages have been sent, and nothing else has been written. */
  ghost predicate Wrote(line: Line, after: Line, msgs: seq<Message>) {
    && after.log == line.log + Posted(line.next, msgs)
    && after.net.wire == line.net.wire + Flatten(Frames(Posted(line.next, msgs)))
    && after.next == Counter(line.next, Numbered(msgs))
    && Up(after)
  }

  lemma {:induction false} NumberedConcat(a: seq<Message>, b: seq<Message>)
    ensures Numbered(a + b) == Numbered(a) + Numbered(b)
    decreases |b|
  {
    if b == [] {
      assert a + b == a;
    } else {
      var n := |b| - 1;
      assert (a + b)[..|a| + n] == a + b[..n];
      NumberedConcat(a, b[..n]);
    }
  }

  lemma FramesConcat(a: seq<Sent>, b: seq<Sent>)
    ensures Flatten(Frames(a + b)) == Flatten(Frames(a)) + Flatten(Frames(b))
  {
    FramesApart(a, b);
    FlattenConcat(Frames(a), Frames(b));
  }

  lemma FramesApart(a: seq<Sent>, b: seq<Sent>)
    ensures Frames(a + b) == Frames(a) + Frames(b)
  {
    forall i | 0 <= i < |a + b|
      ensures Frames(a + b)[i] == (Frames(a) + Frames(b))[i]
    {
      assert i >= |a| ==> (a + b)[i] == b[i - |a|];
    }
  }

  lemma {:induction false} FlattenConcat(a: seq<seq<byte>>, b: seq<seq<byte>>)
    ensures Flatten(a + b) == Flatten(a) + Flatten(b)
  {
    if a == [] {
      assert a + b == b;
    } else {
      assert (a + b)[1..] == a[1..] + b;
      FlattenConcat(a[1..], b);
    }
  }

  lemma PidLater(next: nat, a: seq<Message>, b: seq<Message>, i: nat)
    requires i < |b|
    ensures PidAt(next, a + b, |a| + i) == PidAt(Counter(next, Numbered(a)), b, i)
  {
    NumberedLater(a, b, i);
    PidMoves(next, a + b, |a| + i, b, i, Numbered(a));
  }

  lemma PidMoves(next: nat, all: seq<Message>, n: nat, b: seq<Message>, i: nat, j: nat)
    requires n < |all| && i < |b| && all[n] == b[i] && Numbered(all[..n]) == j + Numbered(b[..i])
    ensures PidAt(next, all, n) == PidAt(Counter(next, j), b, i)
  {
    PidAdds(b[i].qos, next, j, Numbered(b[..i]));
  }

  lemma PidAdds(qos: nat, next: nat, j: nat, k: nat)
    ensures Pid(qos, Counter(next, j), k) == Pid(qos, next, j + k)
  {
    CounterAdds(next, j, k);
  }

  lemma NumberedLater(a: seq<Message>, b: seq<Message>, i: nat)
    requires i < |b|
    ensures Numbered((a + b)[..|a| + i]) == Numbered(a) + Numbered(b[..i])
  {
    assert (a + b)[..|a| + i] == a + b[..i];
    NumberedConcat(a, b[..i]);
  }

  lemma PostedConcat(next: nat, a: seq<Message>, b: seq<Message>)
    ensures Posted(next, a + b) == Posted(next, a) + Posted(Counter(next, Numbered(a)), b)
  {
    var all, front, back := Posted(next, a + b), Posted(next, a), Posted(Counter(next, Numbered(a)), b);
    forall i | 0 <= i < |all|
      ensures all[i] == (front + back)[i]
    {
      if i < |a| {
        assert (a + b)[..i] == a[..i];
      } else {
        PidLater(next, a, b, i - |a|);
      }
    }
  }

  lemma WroteNothing(line: Line)
    requires Up(line)
    ensures Wrote(line, line, [])
  {
    assert Posted(line.next, []) == [];
  }

  lemma WroteOne(line: Line, msg: Message)
    requires Up(line)
    ensures Wrote(line, SendOne(line, msg), [msg]) && Leaves(line, msg)
  {
    ReliableCarries(line.net, PublishFrame(msg, Drawn(line, msg)));
    OnePosted(line.next, msg);
  }

  lemma OnePosted(next: nat, msg: Message)
    ensures var pid := if msg.qos > 0 then IdAt(next) else 0;
            Posted(next, [msg]) == [Sent(msg, pid, true)] && Flatten(Frames(Posted(next, [msg]))) == PublishFrame(msg, pid)
    ensures Counter(next, Numbered([msg])) == if msg.qos > 0 then NextAfter(next) else next
  {
    assert [msg][..0] == [];
    var sent := Posted(next, [msg]);
    var frame := PublishFrame(sent[0].msg, sent[0].pid);
    assert Frames(sent) == [frame];
    assert Flatten([frame]) == frame + Flatten([]) == frame;
  }

  lemma WroteThen(line: Line, mid: Line, after: Line, a: seq<Message>, b: seq<Message>)
    requires Wrote(line, mid, a) && Wrote(mid, after, b)
    ensures Wrote(line, after, a + b)
  {
    var front, back := Posted(line.next, a), Posted(mid.next, b);
    PostedConcat(line.next, a, b);
    Extended(line, mid, after, front, back);
    CounterThen(line.next, a, b);
  }

  lemma CounterThen(next: nat, a: seq<Message>, b: seq<Message>)
    ensures Counter(Counter(next, Numbered(a)), Numbered(b)) == Counter(next, Numbered(a + b))
  {
    NumberedConcat(a, b);
    CounterAdds(next, Numbered(a), Numbered(b));
  }

  lemma Extended(line: Line, mid: Line, after: Line, front: seq<Sent>, back: seq<Sent>)
    requires mid.log == line.log + front && mid.net.wire == line.net.wire + Flatten(Frames(front))
    requires after.log == mid.log + back && after.net.wire == mid.net.wire + Flatten(Frames(back))
    ensures after.log == line.log + (front + back)
    ensures after.net.wire == line.net.wire + Flatten(Frames(front + back))
  {
    FramesConcat(front, back);
    Regroup(line.log, front, back);
    Regroup(line.net.wire, Flatten(Frames(front)), Flatten(Frames(back)));
  }

  lemma {:induction false} ResendWrites(line: Line, msgs: seq<Message>)
    requires Up(line)
    ensures Wrote(line, ResendAll(line, msgs), msgs)
    decreases |msgs|
  {
    if msgs == [] {
      WroteNothing(line);
    } else {
      var mid := SendOne(line, msgs[0]);
      WroteOne(line, msgs[0]);
      ResendWrites(mid, msgs[1..]);
      WroteThen(line, mid, ResendAll(line, msgs), [msgs[0]], msgs[1..]);
      assert [msgs[0]] + msgs[1..] == msgs;
    }
  }

  lemma TriedHead(queued: seq<Message>, size: nat)
    requires queued != []
    ensures Tried(queued, size) == [queued[0]] + if size == 0 && queued[0].qos == 1 then [] else Tried(queued[1..], size)
  {
    assert queued == [queued[0]] + queued[1..];
  }

  /** The flush sends the queue from the front, up to the message that the retained list has no slot for. */
  lemma {:induction false} FlushWrites(s: OutState)
    requires Up(s.line)
    ensures Wrote(s.line, Flush(s).s.line, Tried(s.queued, s.list.size))
    decreases |s.queued|
  {
    if s.queued == [] {
      WroteNothing(s.line);
    } else {
      var msg, mid := s.queued[0], SendOne(s.line, s.queued[0]);
      WroteOne(s.line, msg);
      TriedHead(s.queued, s.list.size);
      KeptSize(s.(queued := s.queued[1..], line := mid), msg);
      if FlushOne(s).outcome == Fine {
        var t := FlushOne(s).s;
        FlushOneShrinks(s);
        FlushWrites(t);
        SameTried(s.queued[1..], s.list.size, t.list.size);
        WroteThen(s.line, mid, Flush(s).s.line, [msg], Tried(s.queued[1..], s.list.size));
      } else {
        assert [msg] + [] == [msg];
      }
    }
  }

  /** What a notification is to send: the retained messages, then the queued ones. */
  function ToSend(queued: seq<Message>, list: ListState, fromList: bool, fromQueue: bool): seq<Message> {
    (if fromList then list.contents else []) + if fromQueue then Tried(queued, list.size) else []
  }

  /** Over a connection that does not fail, a notification writes the frames of the retained messages and then
      those of the queued ones, in order and each once, under identifiers that count up, and nothing else. */
  lemma NotifyWrites(s: OutState, fromList: bool, fromQueue: bool)
    requires Up(s.line)
    ensures Wrote(s.line, OutStep(s, Notify(fromList, fromQueue)).s.line, ToSend(s.queued, s.list, fromList, fromQueue))
  {
    var mid := Resent(s, fromList);
    if fromList { ResendWrites(s.line, s.list.contents); } else { WroteNothing(s.line); }
    if fromQueue { FlushWrites(mid); } else { WroteNothing(mid.line); }
    WroteThen(s.line, mid.line, OutStep(s, Notify(fromList, fromQueue)).s.line,
              if fromList then s.list.contents else [], if fromQueue then Tried(s.queued, s.list.size) else []);
  }

  /** Any run of arrivals, notifications and acknowledgements. */
  lemma {:induction false} WireIsLog(net: Net, ops: seq<OutOp>)
    requires Reliable(net)
    ensures Logged(net, RunOut(net, ops).s.line)
  {
    if ops != [] {
      var n := |ops| - 1;
      WireIsLog(net, ops[..n]);
      var p := RunOut(net, ops[..n]);
      if p.outcome == Fine && ops[n].Notify? {
        var op := ops[n];
        NotifyWrites(p.s, op.fromList, op.fromQueue);
        WrittenIsLogged(net, p.s.line, OutStep(p.s, op).s.line, ToSend(p.s.queued, p.s.list, op.fromList, op.fromQueue));
      }
    }
  }

  lemma WrittenIsLogged(net: Net, line: Line, after: Line, msgs: seq<Message>)
    requires Logged(net, line) && Wrote(line, after, msgs)
    ensures Logged(net, after)
  {
    FramesConcat(line.log, Posted(line.next, msgs));
    Regroup(net.wire, Flatten(Frames(line.log)), Flatten(Frames(Posted(line.next, msgs))));
  }

  /** What is on the wire are the frames of the log, and every logged message was written. */
  ghost predicate Logged(net: Net, line: Line) {
    && Up(line) && line.net.wire == net.wire + Flatten(Frames(line.log))
    && forall i :: 0 <= i < |line.log| ==> line.log[i].ok
  }
}
