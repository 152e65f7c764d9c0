/** The growable list of messages waiting for an acknowledgement (broker/queue/list_transient.go). */
module TransientLists {
  import opened Base

  const MIN_QUEUE_LEN: nat := 16

  /** What matters of the list: the length of its buffer and the messages in it. */
  datatype ListState = ListState(size: nat, contents: seq<Message>)

  const FRESH: ListState := ListState(MIN_QUEUE_LEN, [])

  /** A list that can exist: the buffer has room for what is in it. */
  type Shelf = s: ListState | |s.contents| <= s.size witness FRESH

  /** The index of the first message with this packet identifier, or the length. */
  function FirstWith(contents: seq<Message>, pid: nat): (i: nat)
    ensures i <= |contents|
    ensures forall k :: 0 <= k < i ==> contents[k].packetId != pid
    ensures i < |contents| ==> contents[i].packetId == pid
  {
    if contents == [] || contents[0].packetId == pid then 0 else 1 + FirstWith(contents[1..], pid)
  }

  function Without<T>(contents: seq<T>, i: nat): seq<T> {
    if i < |contents| then contents[..i] + contents[i + 1..] else contents
  }

  /** Pushback on a list whose buffer has shrunk to nothing writes out of range: None. */
  function Pushed(s: ListState, msg: Message): Option<ListState> {
    if s.size == 0 then None
    else Some(ListState(if |s.contents| == s.size then 2 * |s.contents| else s.size, s.contents + [msg]))
  }

  predicate Hits(s: ListState, pid: nat) { FirstWith(s.contents, pid) < |s.contents| }

  /** Remove takes a slot out of the buffer with the message, then halves a quarter-full buffer. */
  function RemovedBy(s: ListState, pid: nat): ListState {
    var c := Without(s.contents, FirstWith(s.contents, pid));
    var n := if Hits(s, pid) && s.size > 0 then s.size - 1 else s.size;
    ListState(if n > MIN_QUEUE_LEN && 4 * |c| == n then 2 * |c| else n, c)
  }

  class TransientList {
    var buf: seq<Option<Message>>
    var count: nat

    ghost predicate Valid()
      reads this
    {
      count <= |buf| && forall i :: 0 <= i < count ==> buf[i].Some?
    }

    ghost function Contents(): seq<Message>
      requires Valid()
      reads this
    {
      seq(count, i requires 0 <= i < count && Valid() reads this => buf[i].value)
    }

    ghost function View(): ListState
      requires Valid()
      reads this
    {
      ListState(|buf|, Contents())
    }

    constructor ()
      ensures Valid() && View() == FRESH
    {
      buf := seq(MIN_QUEUE_LEN, i => None);
      count := 0;
    }

    /** A list with these contents. */
    constructor Holding(s: Shelf)
      ensures Valid() && View() == s
    {
      buf := seq(s.size, i requires 0 <= i < s.size => if i < |s.contents| then Some(s.contents[i]) else None);
      count := |s.contents|;
      new;
      assert Contents() == s.contents;
    }

    /** A new buffer of twice the number of messages, holding the same messages. */
    method Resize()
      requires Valid()
      modifies this`buf
      ensures Valid() && |buf| == 2 * count && Contents() == old(Contents())
    {
      buf := buf[..count] + seq(count, i => None);
    }

    function Length(): nat
      reads this
    {
      count
    }

    /** `ok` is false where the source would index past the end of an empty buffer. */
    method Pushback(msg: Message) returns (ok: bool)
      requires Valid()
      modifies this
      ensures Valid()
      ensures ok <==> Pushed(old(View()), msg).Some?
      ensures ok ==> View() == Pushed(old(View()), msg).value
      ensures !ok ==> View() == old(View())
    {
      if count == |buf| {
        Resize();
      }
      if count >= |buf| {
        assert |buf| == 0 && Contents() == old(Contents());
        return false;
      }
      buf := buf[count := Some(msg)];
      count := count + 1;
      assert Contents() == old(Contents()) + [msg];
      return true;
    }

    method Get(index: nat) returns (r: Option<Message>)
      requires Valid()
      ensures r == if index < |Contents()| then Some(Contents()[index]) else None
    {
      if index >= count {
        return None;
      }
      r := buf[index];
    }

    method Remove(pid: nat)
      requires Valid()
      modifies this
      ensures Valid() && View() == RemovedBy(old(View()), pid)
    {
      var i := 0;
      while i < count && buf[i].value.packetId != pid
        invariant 0 <= i <= count
        invariant forall k :: 0 <= k < i ==> Contents()[k].packetId != pid
      {
        i := i + 1;
      }
      FirstWithIs(Contents(), pid, i);
      if i < count {
        CutOut(i);
      }
      if |buf| > MIN_QUEUE_LEN && 4 * count == |buf| {
        Resize();
      }
    }

    /** append(buf[:i], buf[i+1:]...): the buffer gets one slot shorter. */
    method CutOut(i: nat)
      requires Valid() && i < count
      modifies this
      ensures Valid() && View() == ListState(|old(buf)| - 1, Without(old(Contents()), i))
    {
      buf := buf[..i] + buf[i + 1..];
      count := count - 1;
      assert Contents() == Without(old(Contents()), i);
    }
  }

  lemma FirstWithIs(contents: seq<Message>, pid: nat, i: nat)
    requires i <= |contents| && (i < |contents| ==> contents[i].packetId == pid)
    requires forall k :: 0 <= k < i ==> contents[k].packetId != pid
    ensures FirstWith(contents, pid) == i
  {
  }

  /** Pushing appends and doubles a full buffer; without a slot it goes out of range. */
  lemma PushedIs(s: Shelf, msg: Message)
    ensures if s.size == 0 then Pushed(s, msg) == None
            else
              && Pushed(s, msg).Some? && Pushed(s, msg).value.contents == s.contents + [msg]
              && Pushed(s, msg).value.size == if |s.contents| < s.size then s.size else s.size + s.size
  {
  }

  /** Removing cuts the first match out and its slot with it, and halves a buffer of more than sixteen slots that
      is then exactly a quarter full; without a match only the halving is left. */
  lemma RemovedIs(s: Shelf, pid: nat, i: nat)
    requires i <= |s.contents| && forall j :: 0 <= j < i ==> s.contents[j].packetId != pid
    requires i < |s.contents| ==> s.contents[i].packetId == pid
    ensures var r, hit := RemovedBy(s, pid), i < |s.contents|;
            var slots := if hit then s.size - 1 else s.size;
            && r.contents == (if hit then s.contents[..i] + s.contents[i + 1..] else s.contents)
            && r.size == if slots > 16 && slots == 4 * |r.contents| then slots / 2 else slots
  {
    FirstWithIs(s.contents, pid, i);
  }

  // ---------------------------------------------------------------- whole runs

  datatype ListOp = Push(msg: Message) | Remove(pid: nat)

  /** None once a Pushback has gone out of range. */
  function RunList(ops: seq<ListOp>): Option<ListState> {
    if ops == [] then Some(FRESH) else Next(RunList(ops[..|ops| - 1]), ops[|ops| - 1])
  }

  /** The same operations on a plain sequence. */
  function RunSeq(ops: seq<ListOp>): seq<Message> {
    if ops == [] then []
    else
      var c := RunSeq(ops[..|ops| - 1]);
      match ops[|ops| - 1]
      case Push(msg) => c + [msg]
      case Remove(pid) => Without(c, FirstWith(c, pid))
  }

  /** How many of the removals found their message. */
  function Removals(ops: seq<ListOp>): nat {
    if ops == [] then 0
    else
      var n := |ops| - 1;
      var c := RunSeq(ops[..n]);
      Removals(ops[..n]) + if ops[n].Remove? && FirstWith(c, ops[n].pid) < |c| then 1 else 0
  }

  /** What `r` successful removals leave of the buffer. */
  predicate Room(s: ListState, r: nat) {
    && |s.contents| <= s.size
    && s.size + r >= MIN_QUEUE_LEN
    && (s.size > MIN_QUEUE_LEN ==> s.size <= 2 * |s.contents| + r)
  }

  lemma PushedRoom(s: ListState, msg: Message, r: nat)
    requires Room(s, r) && Pushed(s, msg).Some?
    ensures Room(Pushed(s, msg).value, r)
  {
  }

  lemma RemovedRoom(s: ListState, pid: nat, r: nat)
    requires Room(s, r)
    ensures Room(RemovedBy(s, pid), if Hits(s, pid) then r + 1 else r)
  {
  }

  /** As long as nothing has gone out of range, the list is a plain sequence; and with `r` successful
      removals behind it the buffer still has at least 16 - r slots. */
  lemma {:induction false} ListRefinesSeq(ops: seq<ListOp>)
    ensures RunList(ops).Some? ==> RunList(ops).value.contents == RunSeq(ops) && Room(RunList(ops).value, Removals(ops))
  {
    if ops != [] {
      var n := |ops| - 1;
      ListRefinesSeq(ops[..n]);
      if RunList(ops).Some? {
        var s := RunList(ops[..n]).value;
        match ops[n]
        case Push(msg) => PushedRoom(s, msg, Removals(ops[..n]));
        case Remove(pid) => RemovedRoom(s, pid, Removals(ops[..n]));
      }
    }
  }

  lemma {:induction false} RemovalsMonotone(ops: seq<ListOp>)
    requires ops != []
    ensures Removals(ops[..|ops| - 1]) <= Removals(ops)
  {
  }

  /** Fewer than sixteen successful removals: no Pushback of the run goes out of range. */
  lemma {:induction false} SafeBelowSixteen(ops: seq<ListOp>)
    requires Removals(ops) < MIN_QUEUE_LEN
    ensures RunList(ops).Some? && RunList(ops).value.contents == RunSeq(ops)
  {
    if ops != [] {
      RemovalsMonotone(ops);
      SafeBelowSixteen(ops[..|ops| - 1]);
      ListRefinesSeq(ops[..|ops| - 1]);
    }
    ListRefinesSeq(ops);
  }

  /** This push meets a buffer without a slot. */
  ghost predicate OnNothing(ops: seq<ListOp>, n: nat) {
    n < |ops| && ops[n].Push? && RunList(ops[..n]) == Some(ListState(0, []))
  }

  ghost predicate PushesOnNothing(ops: seq<ListOp>) { exists n: nat {:trigger OnNothing(ops, n)} :: OnNothing(ops, n) }

  lemma OnNothingBefore(ops: seq<ListOp>, k: nat)
    requires ops != [] && k < |ops| - 1
    ensures OnNothing(ops, k) <==> OnNothing(ops[..|ops| - 1], k)
  {
    assert ops[..|ops| - 1][..k] == ops[..k];
  }

  lemma PushesStep(ops: seq<ListOp>)
    requires ops != []
    ensures PushesOnNothing(ops) <==> PushesOnNothing(ops[..|ops| - 1]) || OnNothing(ops, |ops| - 1)
  {
    var before := ops[..|ops| - 1];
    if PushesOnNothing(ops) {
      var k: nat :| OnNothing(ops, k);
      if k < |ops| - 1 { OnNothingBefore(ops, k); }
    }
    if PushesOnNothing(before) {
      var k: nat :| OnNothing(before, k);
      OnNothingBefore(ops, k);
    }
  }

  /** A run goes out of range exactly when some push of it meets a list that has lost every slot. */
  lemma {:induction false} OutOfRangeIff(ops: seq<ListOp>)
    ensures RunList(ops).None? <==> PushesOnNothing(ops)
  {
    if ops != [] {
      var before := ops[..|ops| - 1];
      OutOfRangeIff(before);
      PushesStep(ops);
      ListRefinesSeq(before);
      if RunList(before).Some? && RunList(before).value.size == 0 {
        assert RunList(before).value == ListState(0, []);
      }
    }
  }

  function Cycles(msg: Message, n: nat): seq<ListOp> {
    if n == 0 then [] else Cycles(msg, n - 1) + [Push(msg)] + [Remove(msg.packetId)]
  }

  /** One push and removal of the same message costs a slot. */
  lemma CycleShrinks(msg: Message, size: nat)
    requires 0 < size <= MIN_QUEUE_LEN
    ensures Pushed(ListState(size, []), msg) == Some(ListState(size, [msg]))
    ensures RemovedBy(ListState(size, [msg]), msg.packetId) == ListState(size - 1, [])
  {
    assert [] + [msg] == [msg];
    FirstWithIs([msg], msg.packetId, 0);
    assert Without([msg], 0) == [];
  }

  lemma {:induction false} CyclesShrink(msg: Message, n: nat)
    requires n <= MIN_QUEUE_LEN
    ensures RunList(Cycles(msg, n)) == Some(ListState(MIN_QUEUE_LEN - n, []))
  {
    if n > 0 {
      CyclesShrink(msg, n - 1);
      CycleShrinks(msg, MIN_QUEUE_LEN - n + 1);
      RunListSnoc(Cycles(msg, n - 1), Push(msg));
      RunListSnoc(Cycles(msg, n - 1) + [Push(msg)], Remove(msg.packetId));
    }
  }

  function Next(s: Option<ListState>, op: ListOp): Option<ListState> {
    if s.None? then None
    else match op case Push(msg) => Pushed(s.value, msg) case Remove(pid) => Some(RemovedBy(s.value, pid))
  }

  lemma RunListSnoc(ops: seq<ListOp>, op: ListOp)
    ensures RunList(ops + [op]) == Next(RunList(ops), op)
  {
    assert (ops + [op])[..|ops|] == ops;
  }

  /** The bound is sharp: after sixteen push and remove cycles the next Pushback is out of range. */
  lemma SixteenthRemovalBreaks(msg: Message)
    ensures RunList(Cycles(msg, 16)) == Some(ListState(0, []))
    ensures RunList(Cycles(msg, 16) + [Push(msg)]).None?
  {
    CyclesShrink(msg, 16);
    RunListSnoc(Cycles(msg, 16), Push(msg));
  }
}
