/** The outgoing side of the connection and the write loop of broker/mqtt/mqtt_session.go:834-850. */
module Connection {
  import opened Base
  import opened PacketObject

  /** How the network answers one Write. As io.Writer demands, a write that takes less than it was given
      reports an error. */
  datatype Answer = Takes | Fails(taken: nat)

  /** The bytes written so far and the answers to the next writes. After those every write is taken, or,
      on a dead connection, fails without taking anything. */
  datatype Net = Net(wire: seq<byte>, script: seq<Answer>, dead: bool)

  /** The frame is written without an error; an empty one is not written at all. */
  predicate Goes(net: Net, frame: seq<byte>) {
    frame == [] || (if net.script == [] then !net.dead else net.script[0].Takes?)
  }

  /** How many bytes of the frame get through. */
  function Through(net: Net, frame: seq<byte>): nat {
    if Goes(net, frame) then |frame|
    else if net.script == [] then 0
    else Min(net.script[0].taken, |frame|)
  }

  function Carried(net: Net, frame: seq<byte>): Net {
    if frame == [] then net
    else Net(net.wire + frame[..Through(net, frame)], if net.script == [] then [] else net.script[1..], net.dead)
  }

  /** No write will ever fail. */
  predicate Reliable(net: Net) { !net.dead && forall i :: 0 <= i < |net.script| ==> net.script[i].Takes? }

  lemma ReliableCarries(net: Net, frame: seq<byte>)
    requires Reliable(net)
    ensures Goes(net, frame) && Reliable(Carried(net, frame)) && Carried(net, frame).wire == net.wire + frame
  {
  }

  /** Every write, case by case: it goes out whole, stops at the byte where it fails, or meets a dead connection. */
  lemma WriteCases(net: Net, frame: seq<byte>)
    requires frame != []
    ensures var wire := Carried(net, frame).wire;
            if net.script == [] then
              if net.dead then wire == net.wire && !Goes(net, frame) else wire == net.wire + frame && Goes(net, frame)
            else
              && Carried(net, frame).script == net.script[1..]
              && match net.script[0]
                 case Takes => wire == net.wire + frame && Goes(net, frame)
                 case Fails(taken) =>
                   && !Goes(net, frame)
                   && (taken >= |frame| ==> wire == net.wire + frame)
                   && (taken < |frame| ==> wire == net.wire + frame[..taken])
  {
    assert frame[..|frame|] == frame;
  }

  class Conn {
    const dead: bool
    var wire: seq<byte>
    var script: seq<Answer>

    constructor (script: seq<Answer>, dead: bool)
      ensures View() == Net([], script, dead)
    {
      this.dead, this.script, wire := dead, script, [];
    }

    function View(): Net
      reads this
    {
      Net(wire, script, dead)
    }

    method Write(data: seq<byte>) returns (n: nat, ok: bool)
      requires data != []
      modifies this
      ensures View() == Carried(old(View()), data)
      ensures ok == Goes(old(View()), data) && n == Through(old(View()), data)
    {
      ghost var net := View();
      if script == [] {
        n, ok := if dead then 0 else |data|, !dead;
      } else {
        n := if script[0].Takes? then |data| else Min(script[0].taken, |data|);
        ok := script[0].Takes?;
        script := script[1..];
      }
      wire := wire + data[..n];
      assert n == Through(net, data);
    }

    /** The packet goes out whole if and only if no write fails; a failing write leaves the bytes it took
        on the wire. */
    method WritePacket(packet: Packet) returns (ok: bool)
      requires packet.length == packet.payload.Length
      modifies this, packet`pos, packet`toprocess
      ensures ok == Goes(old(View()), packet.payload[..])
      ensures View() == Carried(old(View()), packet.payload[..])
    {
      packet.pos := 0;
      packet.toprocess := packet.length;
      ok := true;
      while packet.toprocess > 0
        invariant packet.toprocess == 0 ==>
                    Goes(old(View()), packet.payload[..]) && View() == Carried(old(View()), packet.payload[..])
        invariant packet.toprocess > 0 ==>
                    packet.pos == 0 && packet.toprocess == packet.length && View() == old(View())
        invariant ok
        decreases packet.toprocess
      {
        assert packet.payload[..] == packet.payload[packet.pos..packet.toprocess];
        var n, sent := Write(packet.payload[packet.pos..packet.toprocess]);
        if !sent {
          ok := false;
          break;
        }
        if n > 0 {
          packet.toprocess := packet.toprocess - n;
          packet.pos := packet.pos + n;
        } else {
          ok := false;
          break;
        }
      }
    }
  }
}
