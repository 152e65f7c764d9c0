/** The query rate monitor of mns/client/qps_monitor.go: one counter per second in a ring. A trace lists
    the second, counted from some full minute, of every pulse. Counters are 32-bit and wrap. */
module QpsMonitors {
  import opened Base

  const TWO31: int := 0x8000_0000

  const TWO32: int := 0x1_0000_0000

  function Wrap32(x: int): int { (x + TWO31) % TWO32 - TWO31 }

  lemma {:induction false} MulAtLeast(d: int, k: int)
    requires d >= 0 && k >= 1
    ensures d * k >= d
    decreases k
  {
    if k > 1 {
      MulAtLeast(d, k - 1);
      assert d * k == d * (k - 1) + d;
    }
  }

  /** Quotient and remainder are unique. */
  lemma RemainderIs(x: int, d: int, q: int, r: int)
    requires 0 <= r < d && x == d * q + r
    ensures x % d == r
  {
    var q', r' := x / d, x % d;
    assert x == d * q' + r';
    if q > q' {
      MulAtLeast(d, q - q');
    } else if q < q' {
      MulAtLeast(d, q' - q);
    }
  }

  lemma WrapShift(x: int, k: int)
    ensures Wrap32(x + TWO32 * k) == Wrap32(x)
  {
    var y := x + TWO31;
    var q, r := y / TWO32, y % TWO32;
    assert TWO32 * (q + k) == TWO32 * q + TWO32 * k;
    RemainderIs(y + TWO32 * k, TWO32, q + k, r);
  }

  lemma WrapAdd(x: int, y: int)
    ensures Wrap32(Wrap32(x) + y) == Wrap32(x + y)
  {
    var k := (x + TWO31) / TWO32;
    assert Wrap32(x) == x - TWO32 * k;
    assert TWO32 * -k == -(TWO32 * k);
    WrapShift(x + y, -k);
  }

  lemma WrapSum(x: int, y: int)
    ensures Wrap32(Wrap32(x) + Wrap32(y)) == Wrap32(x + y)
  {
    WrapAdd(x, Wrap32(y));
    WrapAdd(y, x);
  }

  lemma WrapSmall(x: int)
    requires 0 <= x < TWO31
    ensures Wrap32(x) == x
  {
    RemainderIs(x + TWO31, TWO32, 0, x + TWO31);
  }

  /** Go's integer division, for a positive divisor. */
  function TruncDiv(x: int, y: int): int
    requires y > 0
  {
    if x >= 0 then x / y else -(-x / y)
  }

  // ---------------------------------------------------------------- the ring as a value

  /** The counter a pulse in second `t` goes to: the second of the minute, modulo the window. */
  function Slot(d: nat, t: nat): nat
    requires d > 0
  {
    t % 60 % d
  }

  function Latest(d: nat, trace: seq<nat>): nat
    requires d > 0
  {
    if trace == [] then 0 else Slot(d, trace[|trace| - 1])
  }

  function Bump(ring: seq<int>, latest: nat, slot: nat): seq<int>
    requires slot < |ring|
  {
    ring[slot := Wrap32((if latest != slot then 0 else ring[slot]) + 1)]
  }

  function Ring(d: nat, trace: seq<nat>): (r: seq<int>)
    requires d > 0
    ensures |r| == d
  {
    if trace == [] then seq(d, i => 0)
    else
      var n := |trace| - 1;
      Bump(Ring(d, trace[..n]), Latest(d, trace[..n]), Slot(d, trace[n]))
  }

  /** The sum over the first `k` counters, leaving one out, as the 32-bit loop computes it. */
  function SumBut(ring: seq<int>, latest: nat, k: nat): int
    requires k <= |ring|
  {
    if k == 0 then 0
    else if k - 1 == latest then SumBut(ring, latest, k - 1)
    else Wrap32(SumBut(ring, latest, k - 1) + ring[k - 1])
  }

  class QpsMonitor {
    const delaySecond: nat
    const totalQueries: array<int>
    var latestIndex: nat
    ghost var trace: seq<nat>

    ghost predicate Valid()
      reads this, totalQueries
    {
      && delaySecond >= 5 && totalQueries.Length == delaySecond
      && latestIndex == Latest(delaySecond, trace) && totalQueries[..] == Ring(delaySecond, trace)
    }

    constructor (delay: int)
      ensures Valid() && trace == [] && fresh(totalQueries)
      ensures delaySecond == if delay < 5 then 5 else delay
    {
      var d: nat := if delay < 5 then 5 else delay;
      delaySecond := d;
      totalQueries := new int[d](i => 0);
      latestIndex, trace := 0, [];
    }

    method Pulse(second: nat)
      requires Valid()
      modifies this, totalQueries
      ensures Valid() && trace == old(trace) + [second]
    {
      Count(second % 60 % delaySecond);
      trace := trace + [second];
      assert trace[..|trace| - 1] == old(trace);
    }

    method Count(index: nat)
      requires index < totalQueries.Length
      modifies this`latestIndex, totalQueries
      ensures latestIndex == index
      ensures totalQueries[..] == Bump(old(totalQueries[..]), old(latestIndex), index)
    {
      if latestIndex != index {
        latestIndex := index;
        totalQueries[latestIndex] := 0;
      }
      totalQueries[index] := Wrap32(totalQueries[index] + 1);
    }

    /** The divisor is never 0, and the result is the exact average over the pulses that count. */
    method Qps() returns (r: int)
      requires Valid()
      ensures r == TruncDiv(Wrap32(|Counting(delaySecond, trace)|), delaySecond - 1)
    {
      var total := Total();
      AllCounted(delaySecond, trace);
      r := TruncDiv(total, delaySecond - 1);
    }

    /** The loop over the counters, leaving the current one out. */
    method Total() returns (total: int)
      requires latestIndex < totalQueries.Length
      ensures total == SumBut(totalQueries[..], latestIndex, totalQueries.Length)
    {
      total := 0;
      var i := 0;
      while i < totalQueries.Length
        invariant 0 <= i <= totalQueries.Length
        invariant total == SumBut(totalQueries[..], latestIndex, i)
      {
        if i != latestIndex {
          total := Wrap32(total + totalQueries[i]);
        }
        i := i + 1;
      }
    }
  }

  lemma AllCounted(d: nat, trace: seq<nat>)
    requires d > 0
    ensures SumBut(Ring(d, trace), Latest(d, trace), d) == Wrap32(|Counting(d, trace)|)
  {
    RingTotal(d, trace, d);
    assert CountingBelow(d, trace, d) == Counting(d, trace);
  }

  // ---------------------------------------------------------------- which pulses count

  /** The slots that the pulses go to. */
  function Slots(d: nat, trace: seq<nat>): (slots: seq<nat>)
    requires d > 0
    ensures |slots| == |trace| && forall i :: 0 <= i < |trace| ==> slots[i] == Slot(d, trace[i])
  {
    seq(|trace|, i requires 0 <= i < |trace| => Slot(d, trace[i]))
  }

  /** A later pulse comes back to the slot of pulse `i` from another one, and so clears it. */
  predicate ClearedIn(slots: seq<nat>, i: nat)
    requires i < |slots|
  {
    exists m :: i < m < |slots| && slots[m] == slots[i] && slots[m - 1] != slots[m]
  }

  /** The counter of pulse `i` is reset later in the trace. */
  predicate ResetAfter(d: nat, trace: seq<nat>, i: nat)
    requires d > 0 && i < |trace|
  {
    ClearedIn(Slots(d, trace), i)
  }

  /** The pulses that slot `j` still holds. */
  function Held(d: nat, trace: seq<nat>, j: nat): set<nat>
    requires d > 0
  {
    set i: nat | i < |trace| && Slot(d, trace[i]) == j && !ResetAfter(d, trace, i)
  }

  /** The pulses behind the reported rate: all that are held outside the current slot. */
  function Counting(d: nat, trace: seq<nat>): set<nat>
    requires d > 0
  {
    set i: nat | i < |trace| && Slot(d, trace[i]) != Latest(d, trace) && !ResetAfter(d, trace, i)
  }

  function CountingBelow(d: nat, trace: seq<nat>, k: nat): set<nat>
    requires d > 0
  {
    set i: nat | i < |trace| && Slot(d, trace[i]) < k && Slot(d, trace[i]) != Latest(d, trace) && !ResetAfter(d, trace, i)
  }

  lemma ClearedSnoc(slots: seq<nat>, slot: nat, i: nat)
    requires i < |slots|
    ensures ClearedIn(slots + [slot], i) <==> ClearedIn(slots, i) || (slot == slots[i] && slot != slots[|slots| - 1])
  {
    var all := slots + [slot];
    if ClearedIn(slots, i) {
      var m :| i < m < |slots| && slots[m] == slots[i] && slots[m - 1] != slots[m];
      assert all[m] == all[i] && all[m - 1] != all[m];
    }
    if slot == slots[i] && slot != slots[|slots| - 1] {
      var m := |slots|;
      assert all[m] == all[i] && all[m - 1] != all[m];
    }
  }

  lemma ResetAfterSnoc(d: nat, trace: seq<nat>, t: nat, i: nat)
    requires d > 0 && i < |trace|
    ensures ResetAfter(d, trace + [t], i) <==>
              ResetAfter(d, trace, i) || (Slot(d, t) == Slot(d, trace[i]) && Slot(d, t) != Latest(d, trace))
  {
    assert Slots(d, trace + [t]) == Slots(d, trace) + [Slot(d, t)];
    ClearedSnoc(Slots(d, trace), Slot(d, t), i);
  }

  lemma HeldSnoc(d: nat, trace: seq<nat>, t: nat, j: nat)
    requires d > 0
    ensures Held(d, trace + [t], j) ==
              if j != Slot(d, t) then Held(d, trace, j)
              else if Latest(d, trace) != j then {|trace|}
              else Held(d, trace, j) + {|trace|}
  {
    var all := trace + [t];
    forall i: nat | i < |trace|
      ensures i in Held(d, all, j) <==> i in Held(d, trace, j) && !(j == Slot(d, t) && Slot(d, t) != Latest(d, trace))
    {
      ResetAfterSnoc(d, trace, t, i);
      assert all[i] == trace[i];
    }
    assert |trace| in Held(d, all, j) <==> j == Slot(d, t);
  }

  /** Every counter holds the number of its pulses that were not reset. */
  lemma {:induction false} RingHolds(d: nat, trace: seq<nat>, j: nat)
    requires d > 0 && j < d
    ensures Ring(d, trace)[j] == Wrap32(|Held(d, trace, j)|)
  {
    if trace == [] {
      assert Held(d, trace, j) == {};
    } else {
      var n := |trace| - 1;
      RingHolds(d, trace[..n], j);
      assert trace == trace[..n] + [trace[n]];
      HeldSize(d, trace[..n], trace[n], j);
      BumpHolds(Ring(d, trace[..n]), Latest(d, trace[..n]), Slot(d, trace[n]), j, |Held(d, trace[..n], j)|);
    }
  }

  lemma HeldSize(d: nat, trace: seq<nat>, t: nat, j: nat)
    requires d > 0
    ensures |Held(d, trace + [t], j)| == Bumped(|Held(d, trace, j)|, Latest(d, trace), Slot(d, t), j)
  {
    HeldSnoc(d, trace, t, j);
    assert |trace| !in Held(d, trace, j);
  }

  function Bumped(held: nat, latest: nat, slot: nat, j: nat): nat {
    if j != slot then held else if latest != j then 1 else held + 1
  }

  lemma BumpHolds(ring: seq<int>, latest: nat, slot: nat, j: nat, held: nat)
    requires slot < |ring| && j < |ring| && ring[j] == Wrap32(held)
    ensures Bump(ring, latest, slot)[j] == Wrap32(Bumped(held, latest, slot, j))
  {
    WrapAdd(held, 1);
  }

  lemma CountingSplits(d: nat, trace: seq<nat>, k: nat)
    requires d > 0
    ensures CountingBelow(d, trace, k) !! Held(d, trace, k)
    ensures CountingBelow(d, trace, k + 1) ==
              if k == Latest(d, trace) then CountingBelow(d, trace, k)
              else CountingBelow(d, trace, k) + Held(d, trace, k)
  {
  }

  lemma CountingSize(d: nat, trace: seq<nat>, k: nat)
    requires d > 0
    ensures |CountingBelow(d, trace, k + 1)| ==
              if k == Latest(d, trace) then |CountingBelow(d, trace, k)|
              else |CountingBelow(d, trace, k)| + |Held(d, trace, k)|
  {
    CountingSplits(d, trace, k);
  }

  lemma SumStep(ring: seq<int>, latest: nat, k: nat, below: nat, held: nat)
    requires k < |ring| && SumBut(ring, latest, k) == Wrap32(below) && ring[k] == Wrap32(held)
    ensures SumBut(ring, latest, k + 1) == Wrap32(if k == latest then below else below + held)
  {
    WrapSum(below, held);
  }

  lemma RingNext(d: nat, trace: seq<nat>, k: nat)
    requires d > 0 && k < d && SumBut(Ring(d, trace), Latest(d, trace), k) == Wrap32(|CountingBelow(d, trace, k)|)
    ensures SumBut(Ring(d, trace), Latest(d, trace), k + 1) == Wrap32(|CountingBelow(d, trace, k + 1)|)
  {
    var below, held := |CountingBelow(d, trace, k)|, |Held(d, trace, k)|;
    assert Ring(d, trace)[k] == Wrap32(held) by { RingHolds(d, trace, k); }
    assert |CountingBelow(d, trace, k + 1)| == if k == Latest(d, trace) then below else below + held by {
      CountingSize(d, trace, k);
    }
    SumStep(Ring(d, trace), Latest(d, trace), k, below, held);
  }

  lemma {:induction false} RingTotal(d: nat, trace: seq<nat>, k: nat)
    requires d > 0 && k <= d
    ensures SumBut(Ring(d, trace), Latest(d, trace), k) == Wrap32(|CountingBelow(d, trace, k)|)
  {
    if k == 0 {
      assert CountingBelow(d, trace, k) == {};
      WrapSmall(0);
    } else {
      RingTotal(d, trace, k - 1);
      RingNext(d, trace, k - 1);
    }
  }

  // ---------------------------------------------------------------- when the rate is exact

  ghost predicate Ordered(trace: seq<nat>) { forall i, j :: 0 <= i < j < |trace| ==> trace[i] <= trace[j] }

  /** The pulses of the d - 1 seconds before the current one. */
  function Window(d: nat, trace: seq<nat>): set<nat> {
    set i: nat | i < |trace| && trace[|trace| - 1] < trace[i] + d && trace[i] < trace[|trace| - 1]
  }

  /** No counter outside the current slot still holds a pulse from before the window. */
  predicate NoStale(d: nat, trace: seq<nat>)
    requires d > 0
  {
    forall i: nat :: i < |trace| && trace[i] + d <= trace[|trace| - 1] && Slot(d, trace[i]) != Latest(d, trace) ==>
      ResetAfter(d, trace, i)
  }

  /** A window that divides the minute makes the slot the plain residue of the second. */
  lemma SlotIsResidue(d: nat, t: nat)
    requires d > 0 && 60 % d == 0
    ensures Slot(d, t) == t % d
  {
    MinuteIsWindows(d, 60 / d, t / 60, t % 60 / d, t % 60 % d, t);
  }

  /** A whole number of windows to the minute. */
  lemma MinuteIsWindows(d: nat, m: nat, q: nat, p: nat, r: nat, t: nat)
    requires d > 0 && 60 == d * m && t == 60 * q + (d * p + r) && r < d
    ensures t % d == r
  {
    Distribute(d, m, q, p);
    RemainderIs(t, d, m * q + p, r);
  }

  lemma Distribute(d: int, m: int, q: int, p: int)
    ensures d * (m * q + p) == d * m * q + d * p
  {
  }

  lemma ResidueUnique(d: nat, a: nat, b: nat)
    requires d > 0 && a <= b < a + d && a % d == b % d
    ensures a == b
  {
    var q, r := a / d, b / d;
    assert a == d * q + a % d && b == d * r + b % d;
    if r > q {
      MulAtLeast(d, r - q);
    } else if r < q {
      MulAtLeast(d, q - r);
    }
  }

  /** Within less than a window, two seconds share a slot only if they are the same second. */
  lemma SlotsApart(d: nat, a: nat, b: nat)
    requires d > 0 && 60 % d == 0 && a <= b < a + d && Slot(d, a) == Slot(d, b)
    ensures a == b
  {
    SlotIsResidue(d, a);
    SlotIsResidue(d, b);
    ResidueUnique(d, a, b);
  }

  lemma WindowOffSlot(d: nat, trace: seq<nat>, i: nat)
    requires d >= 5 && 60 % d == 0 && i in Window(d, trace)
    ensures Slot(d, trace[i]) != Latest(d, trace)
  {
    var last := trace[|trace| - 1];
    if Slot(d, trace[i]) == Slot(d, last) { SlotsApart(d, trace[i], last); }
  }

  lemma WindowNotReset(d: nat, trace: seq<nat>, i: nat, m: nat)
    requires d >= 5 && 60 % d == 0 && Ordered(trace) && i in Window(d, trace)
    requires i < m < |trace| && Slot(d, trace[m]) == Slot(d, trace[i])
    ensures trace[m - 1] == trace[m]
  {
    assert trace[i] <= trace[m] <= trace[|trace| - 1];
    SlotsApart(d, trace[i], trace[m]);
    assert i < m - 1 ==> trace[i] <= trace[m - 1];
  }

  lemma WindowCounts(d: nat, trace: seq<nat>, i: nat)
    requires d >= 5 && 60 % d == 0 && Ordered(trace) && i in Window(d, trace)
    ensures i in Counting(d, trace)
  {
    WindowOffSlot(d, trace, i);
    var slots := Slots(d, trace);
    forall m | i < m < |slots| && slots[m] == slots[i]
      ensures slots[m - 1] == slots[m]
    {
      WindowNotReset(d, trace, i, m);
    }
  }

  /** The rate counts exactly the pulses of the window if and only if no counter is stale; any stale
      counter makes it count more. */
  lemma ExactIffNoStale(d: nat, trace: seq<nat>)
    requires d >= 5 && 60 % d == 0 && Ordered(trace)
    ensures |Counting(d, trace)| == |Window(d, trace)| <==> NoStale(d, trace)
    ensures Window(d, trace) <= Counting(d, trace)
  {
    var w, c := Window(d, trace), Counting(d, trace);
    forall i | i in w
      ensures i in c
    {
      WindowCounts(d, trace, i);
    }
    if NoStale(d, trace) {
      assert c <= w;
      assert c == w;
    } else {
      var i: nat :| i < |trace| && trace[i] + d <= trace[|trace| - 1] && Slot(d, trace[i]) != Latest(d, trace)
                    && !ResetAfter(d, trace, i);
      assert i in c && i !in w;
      ProperSubsetSmaller(w, c, i);
    }
  }

  // ---------------------------------------------------------------- the condition on the pulsed seconds

  /** Pulsed second `s` has been overwritten: its residue came up again later, with a pulse of another
      residue in between. */
  predicate Overwritten(d: nat, trace: seq<nat>, s: nat)
    requires d > 0
  {
    exists a, b :: 0 <= a < |trace| && 0 <= b < |trace| && Overwrites(d, s, trace[a], trace[b])
  }

  predicate Overwrites(d: nat, s: nat, between: nat, again: nat)
    requires d > 0
  {
    s < between < again && between % d != s % d && again % d == s % d
  }

  /** Every second pulsed before the window, outside the current residue, has been overwritten. */
  predicate Refreshed(d: nat, trace: seq<nat>)
    requires d > 0
  {
    forall i: nat :: i < |trace| && trace[i] + d <= trace[|trace| - 1] && trace[i] % d != trace[|trace| - 1] % d ==>
      Overwritten(d, trace, trace[i])
  }

  lemma OverwritesIff(d: nat, s: nat, between: nat, again: nat)
    requires d > 0 && 60 % d == 0 && s <= between <= again
    ensures Overwrites(d, s, between, again) <==> Slot(d, between) != Slot(d, s) && Slot(d, again) == Slot(d, s)
  {
    SlotIsResidue(d, s);
    SlotIsResidue(d, between);
    SlotIsResidue(d, again);
  }

  lemma ClearingPulse(slots: seq<nat>, i: nat) returns (m: nat)
    requires i < |slots| && ClearedIn(slots, i)
    ensures i < m < |slots| && slots[m] == slots[i] && slots[m - 1] != slots[m]
  {
    m :| i < m < |slots| && slots[m] == slots[i] && slots[m - 1] != slots[m];
  }

  lemma ResetIsOverwritten(d: nat, trace: seq<nat>, i: nat)
    requires d > 0 && 60 % d == 0 && Ordered(trace) && i < |trace| && ResetAfter(d, trace, i)
    ensures Overwritten(d, trace, trace[i])
  {
    var m := ClearingPulse(Slots(d, trace), i);
    var a := m - 1;
    ResetOverwrites(d, trace, i, a, m);
    assert Overwrites(d, trace[i], trace[a], trace[m]);
  }

  lemma ResetOverwrites(d: nat, trace: seq<nat>, i: nat, a: nat, m: nat)
    requires d > 0 && 60 % d == 0 && Ordered(trace) && i <= a < m < |trace|
    requires Slot(d, trace[m]) == Slot(d, trace[i]) && Slot(d, trace[a]) != Slot(d, trace[m])
    ensures Overwrites(d, trace[i], trace[a], trace[m])
  {
    OverwritesIff(d, trace[i], trace[a], trace[m]);
  }

  lemma OverwrittenIsReset(d: nat, trace: seq<nat>, i: nat)
    requires d > 0 && 60 % d == 0 && Ordered(trace) && i < |trace| && Overwritten(d, trace, trace[i])
    ensures ResetAfter(d, trace, i)
  {
    var a, b :| 0 <= a < |trace| && 0 <= b < |trace| && Overwrites(d, trace[i], trace[a], trace[b]);
    assert i < a < b;
    OverwritesIff(d, trace[i], trace[a], trace[b]);
    var m := NextInSlot(Slots(d, trace), a, b);
  }

  /** The first pulse after `a` that goes to the slot of pulse `b`. */
  lemma NextInSlot(slots: seq<nat>, a: nat, b: nat) returns (m: nat)
    requires a < b < |slots| && slots[a] != slots[b]
    ensures a < m <= b && slots[m] == slots[b] && slots[m - 1] != slots[m]
  {
    m := a + 1;
    while slots[m] != slots[b]
      invariant a < m <= b && slots[m - 1] != slots[b]
      decreases b - m
    {
      m := m + 1;
    }
  }

  lemma NoStaleIffRefreshed(d: nat, trace: seq<nat>)
    requires d > 0 && 60 % d == 0 && Ordered(trace)
    ensures NoStale(d, trace) <==> Refreshed(d, trace)
  {
    forall i: nat | i < |trace|
      ensures ResetAfter(d, trace, i) <==> Overwritten(d, trace, trace[i])
      ensures Slot(d, trace[i]) == trace[i] % d
    {
      if ResetAfter(d, trace, i) { ResetIsOverwritten(d, trace, i); }
      if Overwritten(d, trace, trace[i]) { OverwrittenIsReset(d, trace, i); }
      SlotIsResidue(d, trace[i]);
    }
  }

  /** The count behind the rate is the exact count of the previous d - 1 seconds if and only if every
      older pulsed second has been overwritten. */
  lemma ExactIffRefreshed(d: nat, trace: seq<nat>)
    requires d >= 5 && 60 % d == 0 && Ordered(trace)
    ensures |Counting(d, trace)| == |Window(d, trace)| <==> Refreshed(d, trace)
    ensures |Counting(d, trace)| >= |Window(d, trace)|
  {
    ExactIffNoStale(d, trace);
    NoStaleIffRefreshed(d, trace);
    SubsetSize(Window(d, trace), Counting(d, trace));
  }

  // ---------------------------------------------------------------- asking later

  /** The pulses of the d - 1 seconds before second `now`. */
  function WindowAt(d: nat, trace: seq<nat>, now: nat): set<nat> {
    set i: nat | i < |trace| && now < trace[i] + d && trace[i] < now
  }

  /** All pulses went to one slot. */
  predicate OneResidue(d: nat, trace: seq<nat>)
    requires d > 0
  {
    forall i: nat :: i < |trace| ==> trace[i] % d == trace[|trace| - 1] % d
  }

  /** The last pulse outside the current slot is never cleared. */
  lemma {:induction false} LastElsewhereCounts(d: nat, trace: seq<nat>, i: nat)
    requires d > 0 && i < |trace| && Slot(d, trace[i]) != Latest(d, trace)
    ensures Counting(d, trace) != {}
    decreases |trace| - i
  {
    if m: nat :| i < m < |trace| && Slot(d, trace[m]) != Latest(d, trace) {
      LastElsewhereCounts(d, trace, m);
    } else {
      assert forall m :: i < m < |trace| ==> Slots(d, trace)[m] == Latest(d, trace);
      assert !ClearedIn(Slots(d, trace), i);
      assert i in Counting(d, trace);
    }
  }

  lemma NothingCountsIff(d: nat, trace: seq<nat>)
    requires d > 0 && 60 % d == 0
    ensures Counting(d, trace) == {} <==> OneResidue(d, trace)
  {
    forall i: nat | i < |trace|
      ensures Slot(d, trace[i]) == trace[i] % d
      ensures Slot(d, trace[i]) != Latest(d, trace) ==> Counting(d, trace) != {}
    {
      SlotIsResidue(d, trace[i]);
      if Slot(d, trace[i]) != Latest(d, trace) { LastElsewhereCounts(d, trace, i); }
    }
    if OneResidue(d, trace) { assert Counting(d, trace) == {}; }
  }

  /** The clock moves on and the ring does not. Asked in the second of the last pulse, the monitor counts
      exactly the pulses of the previous d - 1 seconds if and only if every older pulsed second has been
      overwritten; asked later, if and only if a whole window has passed and all pulses went to one slot. */
  lemma ExactAtIff(d: nat, trace: seq<nat>, now: nat)
    requires d >= 5 && 60 % d == 0 && Ordered(trace) && trace != [] && trace[|trace| - 1] <= now
    ensures var last := trace[|trace| - 1];
            Counting(d, trace) == WindowAt(d, trace, now) <==>
              if now == last then Refreshed(d, trace) else last + d <= now && OneResidue(d, trace)
  {
    var n, w, c := |trace| - 1, WindowAt(d, trace, now), Counting(d, trace);
    if now == trace[n] {
      assert w == Window(d, trace);
      ExactIffRefreshed(d, trace);
      ExactIffNoStale(d, trace);
      if w != c && |w| == |c| {
        var x :| x in c && x !in w;
        ProperSubsetSmaller(w, c, x);
      }
    } else if now < trace[n] + d {
      assert n in w && n !in c;
    } else {
      assert w == {};
      NothingCountsIff(d, trace);
    }
  }

  lemma ProperSubsetSmaller(a: set<nat>, b: set<nat>, x: nat)
    requires a <= b && x in b && x !in a
    ensures |a| < |b|
  {
    SubsetSize(a, b - {x});
  }

  lemma {:induction false} SubsetSize(a: set<nat>, b: set<nat>)
    requires a <= b
    ensures |a| <= |b|
  {
    if a != {} {
      var x :| x in a;
      SubsetSize(a - {x}, b - {x});
    }
  }

  /** No second between the first and the last pulse is silent. */
  ghost predicate Gapless(trace: seq<nat>) {
    forall s: nat :: trace != [] && trace[0] <= s <= trace[|trace| - 1] ==> s in trace
  }

  lemma FirstOf(trace: seq<nat>, s: nat) returns (m: nat)
    requires s in trace
    ensures m < |trace| && trace[m] == s && forall j :: 0 <= j < m ==> trace[j] != s
  {
    m := 0;
    while trace[m] != s
      invariant m < |trace| && s in trace[m..]
      invariant forall j :: 0 <= j < m ==> trace[j] != s
      decreases |trace| - m
    {
      m := m + 1;
    }
  }

  lemma GaplessReset(d: nat, trace: seq<nat>, i: nat)
    requires d >= 5 && 60 % d == 0 && Ordered(trace) && Gapless(trace)
    requires i < |trace| && trace[i] + d <= trace[|trace| - 1]
    ensures ResetAfter(d, trace, i)
  {
    var s := trace[i] + d;
    var m := FirstOf(trace, s);
    assert trace[0] <= trace[i];
    assert trace[i] <= trace[m - 1] <= s;
    assert s - 1 in trace;
    var k :| 0 <= k < |trace| && trace[k] == s - 1;
    assert k < m - 1 ==> trace[k] <= trace[m - 1];
    assert trace[m - 1] == s - 1;
    SlotIsResidue(d, s);
    SlotIsResidue(d, trace[i]);
    PlusWindow(d, trace[i]);
    if Slot(d, s - 1) == Slot(d, s) { SlotsApart(d, s - 1, s); }
  }

  lemma PlusWindow(d: nat, a: nat)
    requires d > 0
    ensures (a + d) % d == a % d
  {
    assert a + d == d * (a / d + 1) + a % d;
    RemainderIs(a + d, d, a / d + 1, a % d);
  }

  lemma GaplessExact(d: nat, trace: seq<nat>)
    requires d >= 5 && 60 % d == 0 && Ordered(trace) && Gapless(trace)
    ensures |Counting(d, trace)| == |Window(d, trace)|
  {
    forall i: nat | i < |trace| && trace[i] + d <= trace[|trace| - 1] && Slot(d, trace[i]) != Latest(d, trace)
      ensures ResetAfter(d, trace, i)
    {
      GaplessReset(d, trace, i);
    }
    ExactIffNoStale(d, trace);
  }

  /** For every ordered trace without a silent second, the reported rate is the exact average, rounded
      down, over the previous d - 1 seconds (as long as that many pulses fit in 31 bits). */
  lemma GaplessRateExact(d: nat, trace: seq<nat>)
    requires d >= 5 && 60 % d == 0 && Ordered(trace) && Gapless(trace)
    requires |Window(d, trace)| < TWO31
    ensures TruncDiv(Wrap32(|Counting(d, trace)|), d - 1) == |Window(d, trace)| / (d - 1)
  {
    GaplessExact(d, trace);
    WrapSmall(|Window(d, trace)|);
  }

  // ---------------------------------------------------------------- windows of a minute and more

  /** A window above a minute has the slots of a minute: it counts the same pulses as a window of 60. */
  lemma LongWindowIsMinute(d: nat, trace: seq<nat>)
    requires d >= 60
    ensures Counting(d, trace) == Counting(60, trace)
  {
    forall i: nat | i < |trace|
      ensures Slot(d, trace[i]) == Slot(60, trace[i])
    {
      LongSlot(d, trace[i]);
      LongSlot(60, trace[i]);
    }
    assert Slots(d, trace) == Slots(60, trace);
  }

  lemma LongSlot(d: nat, t: nat)
    requires d >= 60
    ensures Slot(d, t) == t % 60
  {
    RemainderIs(t % 60, d, 0, t % 60);
  }

  /** Without a silent second such a window reports the pulses of the last minute spread over d - 1
      seconds: too few as soon as any pulse of the window is a minute old. */
  lemma LongWindowDilutes(d: nat, trace: seq<nat>)
    requires d >= 60 && Ordered(trace) && Gapless(trace)
    ensures |Counting(d, trace)| == |Window(60, trace)| <= |Window(d, trace)|
    ensures |Counting(d, trace)| == |Window(d, trace)| <==>
              !exists i: nat :: i < |trace| && trace[i] + 60 <= trace[|trace| - 1] < trace[i] + d
  {
    LongWindowIsMinute(d, trace);
    GaplessExact(60, trace);
    assert Window(60, trace) <= Window(d, trace);
    SubsetSize(Window(60, trace), Window(d, trace));
    if i: nat :| i < |trace| && trace[i] + 60 <= trace[|trace| - 1] < trace[i] + d {
      assert i in Window(d, trace) && i !in Window(60, trace);
      ProperSubsetSmaller(Window(60, trace), Window(d, trace), i);
    } else {
      assert Window(60, trace) == Window(d, trace);
    }
  }

  /** After six silent seconds the counter of the old second is still there: four pulses, none of them in
      the window, are reported as one per second. */
  lemma SilenceMisleads()
    ensures var trace := [0, 0, 0, 0, 7];
            Ordered(trace) && Window(5, trace) == {} && TruncDiv(Wrap32(|Counting(5, trace)|), 4) == 1
  {
    SilenceCounts([0, 0, 0, 0, 7]);
    WrapSmall(4);
  }

  lemma SilenceCounts(trace: seq<nat>)
    requires trace == [0, 0, 0, 0, 7]
    ensures Counting(5, trace) == {0, 1, 2, 3}
  {
    assert Slot(5, 0) == 0 && Slot(5, 7) == 2;
    var slots := Slots(5, trace);
    assert slots == [0, 0, 0, 0, 2];
    assert forall i: nat :: i < 4 ==> !ClearedIn(slots, i);
  }
}
