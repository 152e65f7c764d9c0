/** The blocking queue of broker/queue/sync_queue.go as a state machine: any number of calls, each a
    thread that takes the lock, and poppers that sleep on the condition variable. One move runs one
    thread to its next lock or condition operation, so a sequence of moves is an interleaving. */
module SyncQueue {
  import opened Base

  datatype Call = Pop | TryPop | Push(v: Message) | Close

  datatype Pc =
    | PopLock | PopTest | PopSleep | PopWoken | PopTake | PopUnlock(r: Option<Message>) | PopDone(r: Option<Message>)
    | TryLock | TryHold | TryUnlock(r: Option<Message>, ok: bool) | TryDone(r: Option<Message>, ok: bool)
    | PushLock(v: Message) | PushHold(v: Message) | PushSignal | PushUnlock | PushDone
    | CloseLock | CloseHold | CloseSignal | CloseUnlock | CloseDone

  /** `accepted` and `taken` are logs: what push added, and who removed what, in lock order. */
  datatype State = State(
    lock: Option<nat>,
    buffer: seq<Message>,
    closed: bool,
    pc: map<nat, Pc>,
    accepted: seq<Message>,
    taken: seq<(nat, Message)>)

  const INITIAL: State := State(None, [], false, map[], [], [])

  /** A call enters, or thread `t` goes on; `wake` is the sleeper a signal picks. */
  datatype Action = Enter(t: nat, call: Call) | Go(t: nat, wake: nat)

  function Entry(call: Call): Pc {
    match call
    case Pop => PopLock
    case TryPop => TryLock
    case Push(v) => PushLock(v)
    case Close => CloseLock
  }

  predicate Asleep(s: State, t: nat) { t in s.pc && s.pc[t].PopSleep? }

  function Sleepers(s: State): set<nat> { set t | t in s.pc && s.pc[t].PopSleep? }

  function At(s: State, t: nat, pc: Pc): State { s.(pc := s.pc[t := pc]) }

  function Acquire(s: State, t: nat, pc: Pc): State {
    if s.lock.Some? then s else At(s, t, pc).(lock := Some(t))
  }

  function Release(s: State, t: nat, pc: Pc): State { At(s, t, pc).(lock := None) }

  /** Cond.Signal wakes one sleeper if there is any. */
  function Signal(s: State, t: nat, wake: nat, pc: Pc): State {
    if Sleepers(s) == {} then At(s, t, pc)
    else if Asleep(s, wake) then At(At(s, wake, PopWoken), t, pc)
    else s
  }

  function Take(s: State, t: nat, pc: Pc): State
    requires s.buffer != []
  {
    At(s, t, pc).(buffer := s.buffer[1..], taken := s.taken + [(t, s.buffer[0])])
  }

  function Move(s: State, a: Action): State {
    match a
    case Enter(t, call) => if t in s.pc then s else At(s, t, Entry(call))
    case Go(t, wake) => if t in s.pc then Advance(s, t, wake) else s
  }

  function Advance(s: State, t: nat, wake: nat): State
    requires t in s.pc
  {
    match s.pc[t]
    case PopLock => Acquire(s, t, PopTest)
    case PopTest =>
      if s.buffer == [] && !s.closed then Release(s, t, PopSleep) else At(s, t, PopTake)
    case PopSleep => s
    case PopWoken => Acquire(s, t, PopTest)
    case PopTake =>
      if s.buffer != [] then Take(s, t, PopUnlock(Some(s.buffer[0]))) else At(s, t, PopUnlock(None))
    case PopUnlock(r) => Release(s, t, PopDone(r))
    case TryLock => Acquire(s, t, TryHold)
    case TryHold =>
      if s.buffer != [] then Take(s, t, TryUnlock(Some(s.buffer[0]), true))
      else At(s, t, TryUnlock(None, s.closed))
    case TryUnlock(r, ok) => Release(s, t, TryDone(r, ok))
    case PushLock(v) => Acquire(s, t, PushHold(v))
    case PushHold(v) =>
      if s.closed then At(s, t, PushUnlock)
      else At(s, t, PushSignal).(buffer := s.buffer + [v], accepted := s.accepted + [v])
    case PushSignal => Signal(s, t, wake, PushUnlock)
    case PushUnlock => Release(s, t, PushDone)
    case CloseLock => Acquire(s, t, CloseHold)
    case CloseHold => if s.closed then At(s, t, CloseUnlock) else At(s, t, CloseSignal).(closed := true)
    case CloseSignal => Signal(s, t, wake, CloseUnlock)
    case CloseUnlock => Release(s, t, CloseDone)
    case _ => s
  }

  function Exec(s: State, acts: seq<Action>): State
    decreases |acts|
  {
    if acts == [] then s else Move(Exec(s, acts[..|acts| - 1]), acts[|acts| - 1])
  }

  // ---------------------------------------------------------------- mutual exclusion

  predicate Holding(pc: Pc) {
    || pc.PopTest? || pc.PopTake? || pc.PopUnlock? || pc.TryHold? || pc.TryUnlock?
    || pc.PushHold? || pc.PushSignal? || pc.PushUnlock? || pc.CloseHold? || pc.CloseSignal? || pc.CloseUnlock?
  }

  /** The lock is held by exactly the thread inside its critical section. */
  predicate Exclusive(s: State) {
    && (s.lock.Some? ==> s.lock.value in s.pc)
    && forall t :: t in s.pc ==> (Holding(s.pc[t]) <==> s.lock == Some(t))
  }

  predicate Signals(pc: Pc) { pc.PushSignal? || pc.CloseSignal? }

  /** Apart from a signal, a move changes the position of its own thread only. */
  lemma StepPc(s: State, t: nat, wake: nat)
    requires t in s.pc && !Signals(s.pc[t])
    ensures var s' := Move(s, Go(t, wake));
            t in s'.pc && s'.pc == s.pc[t := s'.pc[t]]
  {
    assert s.pc == s.pc[t := s.pc[t]];
  }

  lemma StepLock(s: State, t: nat, wake: nat)
    requires t in s.pc && !Signals(s.pc[t]) && (Holding(s.pc[t]) <==> s.lock == Some(t))
    ensures var s' := Move(s, Go(t, wake));
            && t in s'.pc && (Holding(s'.pc[t]) <==> s'.lock == Some(t))
            && (s'.lock == s.lock || (s.lock == None && s'.lock == Some(t)) || (s.lock == Some(t) && s'.lock == None))
  {
  }

  lemma MoveExclusive(s: State, a: Action)
    requires Exclusive(s)
    ensures Exclusive(Move(s, a))
  {
    if a.Go? && a.t in s.pc && !Signals(s.pc[a.t]) {
      StepPc(s, a.t, a.wake);
      StepLock(s, a.t, a.wake);
    }
  }

  // ---------------------------------------------------------------- no lost wakeup

  /** Threads that will still look at the buffer or still wake someone who will. */
  predicate Credit(pc: Pc) { pc.PopWoken? || pc.PopTest? || pc.PopTake? || pc.PushSignal? }

  function Credits(s: State): set<nat> { set t | t in s.pc && Credit(s.pc[t]) }

  predicate NoLostWakeup(s: State) { Sleepers(s) != {} ==> |s.buffer| <= |Credits(s)| }

  lemma CreditsAt(s: State, t: nat, pc: Pc)
    ensures Credits(At(s, t, pc)) == if Credit(pc) then Credits(s) + {t} else Credits(s) - {t}
    ensures Sleepers(At(s, t, pc)) == if pc.PopSleep? then Sleepers(s) + {t} else Sleepers(s) - {t}
  {
  }

  lemma SignalNoLostWakeup(s: State, t: nat, wake: nat, pc: Pc)
    requires NoLostWakeup(s) && t in Credits(s) && !Credit(pc) && !pc.PopSleep?
    ensures NoLostWakeup(Signal(s, t, wake, pc))
  {
    if Sleepers(s) == {} {
      CreditsAt(s, t, pc);
    } else if Asleep(s, wake) {
      CreditsAt(s, wake, PopWoken);
      CreditsAt(At(s, wake, PopWoken), t, pc);
    }
  }

  lemma CloseSignalNoLostWakeup(s: State, t: nat, wake: nat, pc: Pc)
    requires NoLostWakeup(s) && t in s.pc && s.pc[t].CloseSignal? && !Credit(pc) && !pc.PopSleep?
    ensures NoLostWakeup(Signal(s, t, wake, pc))
  {
    CreditsAt(s, t, pc);
    if Asleep(s, wake) {
      CreditsAt(s, wake, PopWoken);
      CreditsAt(At(s, wake, PopWoken), t, pc);
    }
  }

  function Weight(pc: Pc): nat { if Credit(pc) then 1 else 0 }

  /** A move that adds an item gains a credit, and a credit is only given up with an item or when none is left. */
  lemma StepBalance(s: State, t: nat, wake: nat)
    requires t in s.pc && !Signals(s.pc[t])
    ensures var s' := Move(s, Go(t, wake));
            && t in s'.pc
            && (s'.buffer == [] || |s'.buffer| - |s.buffer| <= Weight(s'.pc[t]) - Weight(s.pc[t]))
            && (s'.pc[t].PopSleep? ==> s.pc[t].PopSleep? || s'.buffer == [])
  {
  }

  lemma StepNoLostWakeup(s: State, t: nat, wake: nat)
    requires t in s.pc && !Signals(s.pc[t]) && NoLostWakeup(s)
    ensures NoLostWakeup(Move(s, Go(t, wake)))
  {
    var s' := Move(s, Go(t, wake));
    StepPc(s, t, wake);
    StepBalance(s, t, wake);
    CreditsAt(s, t, s'.pc[t]);
    assert Credits(s') == Credits(At(s, t, s'.pc[t])) && Sleepers(s') == Sleepers(At(s, t, s'.pc[t]));
    assert t in Credits(s) <==> Credit(s.pc[t]);
  }

  lemma MoveNoLostWakeup(s: State, a: Action)
    requires NoLostWakeup(s)
    ensures NoLostWakeup(Move(s, a))
  {
    match a
    case Enter(t, call) => CreditsAt(s, t, Entry(call));
    case Go(t, wake) =>
      if t in s.pc {
        if s.pc[t].PushSignal? {
          SignalNoLostWakeup(s, t, wake, PushUnlock);
        } else if s.pc[t].CloseSignal? {
          CloseSignalNoLostWakeup(s, t, wake, CloseUnlock);
        } else {
          StepNoLostWakeup(s, t, wake);
        }
      }
  }

  lemma {:induction false} RunInvariant(acts: seq<Action>)
    ensures var s := Exec(INITIAL, acts);
            Exclusive(s) && NoLostWakeup(s) && Linear(s) && Delivered(s)
  {
    if acts != [] {
      var n := |acts| - 1;
      RunInvariant(acts[..n]);
      var s := Exec(INITIAL, acts[..n]);
      MoveExclusive(s, acts[n]);
      MoveNoLostWakeup(s, acts[n]);
      MoveLinear(s, acts[n]);
      MoveDelivered(s, acts[n]);
    }
  }

  /** In every interleaving, when the lock is free and some popper sleeps, there are no more buffered
      items than poppers already woken. */
  lemma SleepersAreCovered(acts: seq<Action>)
    ensures var s := Exec(INITIAL, acts);
            s.lock.None? && Sleepers(s) != {} ==> |s.buffer| <= |set t | t in s.pc && s.pc[t].PopWoken?|
  {
    RunInvariant(acts);
    var s := Exec(INITIAL, acts);
    if s.lock.None? {
      assert Credits(s) == set t | t in s.pc && s.pc[t].PopWoken?;
    }
  }

  predicate Done(pc: Pc) { pc.PopDone? || pc.TryDone? || pc.PushDone? || pc.CloseDone? }

  /** No thread can take a step of its own. */
  ghost predicate Stuck(s: State) { forall t, wake :: Move(s, Go(t, wake)) == s }

  lemma SignalMoves(s: State, t: nat, pc: Pc)
    requires t in s.pc && !s.pc[t].PopSleep? && s.pc[t] != pc
    ensures exists wake :: Signal(s, t, wake, pc).pc != s.pc
  {
    if Sleepers(s) == {} {
      assert Signal(s, t, 0, pc).pc[t] == pc;
    } else {
      var w :| w in Sleepers(s);
      assert Signal(s, t, w, pc).pc[t] == pc;
    }
  }

  lemma HolderMoves(s: State, t: nat)
    requires t in s.pc && Holding(s.pc[t])
    ensures exists wake :: Move(s, Go(t, wake)).pc != s.pc
  {
    if s.pc[t].PushSignal? || s.pc[t].CloseSignal? {
      var pc := if s.pc[t].PushSignal? then PushUnlock else CloseUnlock;
      SignalMoves(s, t, pc);
      var w :| Signal(s, t, w, pc).pc != s.pc;
      assert Move(s, Go(t, w)).pc != s.pc;
    } else {
      assert Move(s, Go(t, 0)).pc[t] != s.pc[t];
    }
  }

  /** When nothing can move, every call has returned or is a sleeping pop, and nobody sleeps
      while an item is left. */
  lemma StuckMeansServed(acts: seq<Action>)
    requires Stuck(Exec(INITIAL, acts))
    ensures var s := Exec(INITIAL, acts);
            && (forall t :: t in s.pc ==> Done(s.pc[t]) || Asleep(s, t))
            && (Sleepers(s) != {} ==> s.buffer == [])
  {
    RunInvariant(acts);
    SleepersAreCovered(acts);
    var s := Exec(INITIAL, acts);
    forall t | t in s.pc
      ensures !Holding(s.pc[t])
    {
      if Holding(s.pc[t]) { HolderMoves(s, t); }
    }
    assert s.lock.None?;
    forall t | t in s.pc
      ensures Done(s.pc[t]) || Asleep(s, t)
    {
      assert Move(s, Go(t, 0)) == s;
      assert Acquire(s, t, PopTest).lock == Some(t);
    }
    assert (set t | t in s.pc && s.pc[t].PopWoken?) == {};
  }

  // ---------------------------------------------------------------- first in, first out

  function Items(taken: seq<(nat, Message)>): seq<Message> { seq(|taken|, i requires 0 <= i < |taken| => taken[i].1) }

  /** Accepted items are the removed ones in lock order followed by the buffer; a popper about to take
      finds an item unless the queue is closed; an empty answer means closed and drained. */
  predicate Linear(s: State) {
    && s.accepted == Items(s.taken) + s.buffer
    && (forall t :: t in s.pc ==>
          && (s.pc[t].PopTake? ==> s.buffer != [] || s.closed)
          && (EmptyAnswer(s.pc[t]) ==> s.closed && s.buffer == []))
  }

  predicate EmptyAnswer(pc: Pc) {
    || (pc.PopUnlock? && pc.r.None?) || (pc.PopDone? && pc.r.None?)
    || (pc.TryUnlock? && pc.r.None? && pc.ok) || (pc.TryDone? && pc.r.None? && pc.ok)
  }

  lemma ItemsSnoc(taken: seq<(nat, Message)>, t: nat, v: Message)
    ensures Items(taken + [(t, v)]) == Items(taken) + [v]
  {
  }

  /** The moves that touch the buffer, the flag or the logs. */
  predicate Touches(pc: Pc) { pc.PopTake? || pc.TryHold? || pc.PushHold? || pc.CloseHold? }

  predicate Quiet(s: State, a: Action) { a.Go? && a.t in s.pc ==> !Touches(s.pc[a.t]) }

  lemma QuietData(s: State, a: Action)
    requires Quiet(s, a)
    ensures var s' := Move(s, a);
            s'.buffer == s.buffer && s'.closed == s.closed && s'.accepted == s.accepted && s'.taken == s.taken
  {
  }

  /** What a position says about the answer it carries is the same before and after. */
  predicate SameAnswer(s: State, before: Option<Pc>, after: Pc) {
    && Answer(after) == (if before.Some? then Answer(before.value) else None)
    && (EmptyAnswer(after) ==> before.Some? && EmptyAnswer(before.value))
    && (after.PopTake? ==> s.buffer != [] || s.closed || (before.Some? && before.value.PopTake?))
  }

  function PcOf(s: State, t: nat): Option<Pc> { if t in s.pc then Some(s.pc[t]) else None }

  lemma OwnAnswer(s: State, t: nat, wake: nat)
    requires t in s.pc && !Touches(s.pc[t]) && !Signals(s.pc[t])
    ensures t in Move(s, Go(t, wake)).pc && SameAnswer(s, Some(s.pc[t]), Move(s, Go(t, wake)).pc[t])
  {
  }

  lemma SignalAnswer(s: State, t: nat, wake: nat, pc: Pc, u: nat)
    requires t in s.pc && Signals(s.pc[t]) && (pc.PushUnlock? || pc.CloseUnlock?) && u in Signal(s, t, wake, pc).pc
    ensures SameAnswer(s, PcOf(s, u), Signal(s, t, wake, pc).pc[u])
  {
  }

  lemma QuietAnswers(s: State, a: Action, t: nat)
    requires Quiet(s, a) && t in Move(s, a).pc
    ensures SameAnswer(s, PcOf(s, t), Move(s, a).pc[t])
  {
    if a.Go? && a.t in s.pc {
      if s.pc[a.t].PushSignal? {
        SignalAnswer(s, a.t, a.wake, PushUnlock, t);
      } else if s.pc[a.t].CloseSignal? {
        SignalAnswer(s, a.t, a.wake, CloseUnlock, t);
      } else {
        StepPc(s, a.t, a.wake);
        OwnAnswer(s, a.t, a.wake);
      }
    }
  }

  lemma KeysGrow(s: State, a: Action)
    ensures s.pc.Keys <= Move(s, a).pc.Keys
  {
  }

  lemma TakeLinear(s: State, t: nat, pc: Pc)
    requires Exclusive(s) && Linear(s) && t in s.pc && Holding(s.pc[t]) && s.buffer != []
    requires !EmptyAnswer(pc) && !pc.PopTake?
    ensures Linear(Take(s, t, pc))
  {
    ItemsSnoc(s.taken, t, s.buffer[0]);
    assert s.buffer == [s.buffer[0]] + s.buffer[1..];
  }

  lemma PushLinear(s: State, t: nat, v: Message)
    requires Exclusive(s) && Linear(s) && t in s.pc && s.pc[t].PushHold? && !s.closed
    ensures Linear(At(s, t, PushSignal).(buffer := s.buffer + [v], accepted := s.accepted + [v]))
  {
    assert Items(s.taken) + (s.buffer + [v]) == Items(s.taken) + s.buffer + [v];
  }

  lemma MoveLinear(s: State, a: Action)
    requires Exclusive(s) && Linear(s)
    ensures Linear(Move(s, a))
  {
    if Quiet(s, a) {
      QuietData(s, a);
      forall t | t in Move(s, a).pc {
        QuietAnswers(s, a, t);
      }
    } else {
      var t := a.t;
      match s.pc[t]
      case PopTake => if s.buffer != [] { TakeLinear(s, t, PopUnlock(Some(s.buffer[0]))); }
      case TryHold => if s.buffer != [] { TakeLinear(s, t, TryUnlock(Some(s.buffer[0]), true)); }
      case PushHold(v) => if !s.closed { PushLinear(s, t, v); }
      case CloseHold =>
    }
  }

  function Answer(pc: Pc): Option<Message> {
    match pc
    case PopUnlock(r) => r
    case PopDone(r) => r
    case TryUnlock(r, _) => r
    case TryDone(r, _) => r
    case _ => None
  }

  /** Every removed item went to one call, as its answer, and a call that answers an item removed it. */
  predicate Delivered(s: State) {
    && (forall i, j :: 0 <= i < j < |s.taken| ==> s.taken[i].0 != s.taken[j].0)
    && (forall i :: 0 <= i < |s.taken| ==> s.taken[i].0 in s.pc && Answer(s.pc[s.taken[i].0]) == Some(s.taken[i].1))
    && (forall t :: t in s.pc && Answer(s.pc[t]).Some? ==> Logged(s, t))
  }

  predicate Logged(s: State, t: nat) { exists i :: 0 <= i < |s.taken| && s.taken[i].0 == t }

  lemma TakeDelivered(s: State, t: nat, pc: Pc)
    requires Delivered(s) && t in s.pc && Answer(s.pc[t]).None? && s.buffer != [] && Answer(pc) == Some(s.buffer[0])
    ensures Delivered(Take(s, t, pc))
  {
    var s' := Take(s, t, pc);
    forall u | u in s'.pc && Answer(s'.pc[u]).Some?
      ensures Logged(s', u)
    {
      if u == t {
        assert s'.taken[|s.taken|].0 == t;
      } else {
        assert Logged(s, u);
        var i :| 0 <= i < |s.taken| && s.taken[i].0 == u;
        assert s'.taken[i].0 == u;
      }
    }
  }

  lemma QuietDelivered(s: State, a: Action)
    requires Delivered(s) && Quiet(s, a)
    ensures Delivered(Move(s, a))
  {
    var s' := Move(s, a);
    QuietData(s, a);
    KeysGrow(s, a);
    forall i | 0 <= i < |s.taken|
      ensures s.taken[i].0 in s'.pc && Answer(s'.pc[s.taken[i].0]) == Some(s.taken[i].1)
    {
      QuietAnswers(s, a, s.taken[i].0);
    }
    forall u | u in s'.pc && Answer(s'.pc[u]).Some?
      ensures Logged(s', u)
    {
      QuietAnswers(s, a, u);
      assert Logged(s, u);
    }
  }

  /** A thread that moves on without an answer changes nothing here. */
  lemma SilentDelivered(s: State, r: State, t: nat)
    requires Delivered(s) && t in s.pc && Answer(s.pc[t]).None?
    requires t in r.pc && r.pc == s.pc[t := r.pc[t]] && Answer(r.pc[t]).None? && r.taken == s.taken
    ensures Delivered(r)
  {
    forall u | u in r.pc && Answer(r.pc[u]).Some?
      ensures Logged(r, u)
    {
      assert Logged(s, u);
    }
  }

  lemma MoveDelivered(s: State, a: Action)
    requires Delivered(s)
    ensures Delivered(Move(s, a))
  {
    if Quiet(s, a) {
      QuietDelivered(s, a);
    } else {
      TouchDelivered(s, a.t, a.wake);
    }
  }

  lemma TouchDelivered(s: State, t: nat, wake: nat)
    requires Delivered(s) && !Quiet(s, Go(t, wake))
    ensures Delivered(Move(s, Go(t, wake)))
  {
    match s.pc[t]
    case PopTake =>
      if s.buffer != [] { TakeDelivered(s, t, PopUnlock(Some(s.buffer[0]))); }
      else { SilentDelivered(s, Move(s, Go(t, wake)), t); }
    case TryHold =>
      if s.buffer != [] { TakeDelivered(s, t, TryUnlock(Some(s.buffer[0]), true)); }
      else { SilentDelivered(s, Move(s, Go(t, wake)), t); }
    case PushHold(_) => SilentDelivered(s, Move(s, Go(t, wake)), t);
    case CloseHold => SilentDelivered(s, Move(s, Go(t, wake)), t);
  }

  /** FIFO linearisation of every interleaving, with the meaning of an empty answer. */
  lemma Linearised(acts: seq<Action>)
    ensures var s := Exec(INITIAL, acts);
            && s.accepted == Items(s.taken) + s.buffer
            && (forall t :: t in s.pc && s.pc[t].PopDone? && s.pc[t].r.None? ==> s.closed && s.buffer == [])
            && (forall t :: t in s.pc && s.pc[t].TryDone? && s.pc[t].r.None? && s.pc[t].ok ==> s.closed && s.buffer == [])
  {
    RunInvariant(acts);
  }

  // ---------------------------------------------------------------- close

  /** Closed, with the closing signal already spent. */
  predicate Settled(s: State) {
    s.closed && forall t :: t in s.pc ==> !s.pc[t].PushSignal? && !s.pc[t].CloseSignal?
  }

  lemma SettledMove(s: State, a: Action)
    requires Settled(s)
    ensures Settled(Move(s, a)) && Sleepers(Move(s, a)) == Sleepers(s)
  {
    if a.Go? && a.t in s.pc {
      StepPc(s, a.t, a.wake);
      CreditsAt(s, a.t, Move(s, a).pc[a.t]);
      assert Sleepers(Move(s, a)) == Sleepers(At(s, a.t, Move(s, a).pc[a.t]));
    }
  }

  lemma {:induction false} SettledForever(s: State, acts: seq<Action>)
    requires Settled(s)
    ensures Settled(Exec(s, acts)) && Sleepers(Exec(s, acts)) == Sleepers(s)
    decreases |acts|
  {
    if acts != [] {
      SettledForever(s, acts[..|acts| - 1]);
      var r := Exec(s, acts[..|acts| - 1]);
      var a := acts[|acts| - 1];
      SettledMove(r, a);
    }
  }

  /** close signals once: of the poppers asleep when it does, all are released, in every continuation,
      if and only if there is at most one. */
  lemma CloseReleasesAllIff(acts: seq<Action>, t: nat, wake: nat, later: seq<Action>)
    requires var s := Exec(INITIAL, acts);
             && t in s.pc && s.pc[t].CloseSignal?
             && (Sleepers(s) == {} || Asleep(s, wake))
    ensures var s := Exec(INITIAL, acts);
            var after := Exec(Move(s, Go(t, wake)), later);
            && Sleepers(after) == Sleepers(s) - {wake}
            && (Sleepers(after) == {} <==> |Sleepers(s)| <= 1)
  {
    RunInvariant(acts);
    var s := Exec(INITIAL, acts);
    var s' := Move(s, Go(t, wake));
    RunClosing(acts);
    CloseSettles(s, t, wake);
    SettledForever(s', later);
    assert |Sleepers(s) - {wake}| == if wake in Sleepers(s) then |Sleepers(s)| - 1 else |Sleepers(s)|;
  }

  lemma CloseSettles(s: State, t: nat, wake: nat)
    requires Exclusive(s) && Closing(s) && t in s.pc && s.pc[t].CloseSignal? && (Sleepers(s) == {} || Asleep(s, wake))
    ensures var s' := Move(s, Go(t, wake)); Settled(s') && Sleepers(s') == Sleepers(s) - {wake}
  {
    assert forall u :: u in s.pc && u != t ==> !Holding(s.pc[u]);
  }

  predicate Closing(s: State) { forall t :: t in s.pc && s.pc[t].CloseSignal? ==> s.closed }

  lemma MoveClosing(s: State, a: Action)
    requires Closing(s)
    ensures Closing(Move(s, a))
  {
  }

  lemma {:induction false} RunClosing(acts: seq<Action>)
    ensures Closing(Exec(INITIAL, acts))
  {
    if acts != [] {
      RunClosing(acts[..|acts| - 1]);
      MoveClosing(Exec(INITIAL, acts[..|acts| - 1]), acts[|acts| - 1]);
    }
  }

  // ---------------------------------------------------------------- a stranded popper

  lemma {:induction false} ExecConcat(s: State, first: seq<Action>, second: seq<Action>)
    ensures Exec(s, first + second) == Exec(Exec(s, first), second)
    decreases |second|
  {
    if second == [] {
      assert first + second == first;
    } else {
      var n := |second| - 1;
      ExecConcat(s, first, second[..n]);
      assert (first + second)[..|first + second| - 1] == first + second[..n];
    }
  }

  /** A whole call up to its second stop: lock, then the first look at the queue. */
  function Begin(t: nat, call: Call): seq<Action> { [Enter(t, call)] + [Go(t, 0)] + [Go(t, 0)] }

  lemma ExecSnoc(s: State, acts: seq<Action>, a: Action)
    ensures Exec(s, acts + [a]) == Move(Exec(s, acts), a)
  {
    assert (acts + [a])[..|acts|] == acts;
  }

  lemma BeginMoves(s: State, t: nat, call: Call)
    ensures Exec(s, Begin(t, call)) == Move(Move(Move(s, Enter(t, call)), Go(t, 0)), Go(t, 0))
  {
    assert [] + [Enter(t, call)] == [Enter(t, call)];
    ExecSnoc(s, [], Enter(t, call));
    ExecSnoc(s, [Enter(t, call)], Go(t, 0));
    ExecSnoc(s, [Enter(t, call)] + [Go(t, 0)], Go(t, 0));
  }

  predicate Idle(s: State, t: nat) { s.lock.None? && s.buffer == [] && !s.closed && t !in s.pc }

  lemma PopSleeps(s: State, t: nat)
    requires Idle(s, t)
    ensures Exec(s, Begin(t, Pop)) == At(s, t, PopSleep)
  {
    BeginMoves(s, t, Pop);
    assert s.pc[t := PopLock][t := PopTest][t := PopSleep] == s.pc[t := PopSleep];
  }

  lemma CloseSignals(s: State, t: nat)
    requires Idle(s, t)
    ensures Exec(s, Begin(t, Close)) == At(s, t, CloseSignal).(lock := Some(t), closed := true)
  {
    BeginMoves(s, t, Close);
    assert s.pc[t := CloseLock][t := CloseHold][t := CloseSignal] == s.pc[t := CloseSignal];
  }

  /** Two poppers go to sleep on an empty queue and a third thread closes it: whichever popper is woken,
      the other one sleeps on in every continuation. */
  lemma CloseStrandsSecondSleeper(wake: nat, later: seq<Action>)
    requires wake == 1 || wake == 2
    ensures var acts := Begin(1, Pop) + Begin(2, Pop) + Begin(3, Close);
            Sleepers(Exec(Move(Exec(INITIAL, acts), Go(3, wake)), later)) == {3 - wake}
  {
    TwoSleepers();
    CloseReleasesAllIff(Begin(1, Pop) + Begin(2, Pop) + Begin(3, Close), 3, wake, later);
  }

  lemma TwoSleepers()
    ensures var s := Exec(INITIAL, Begin(1, Pop) + Begin(2, Pop) + Begin(3, Close));
            Sleepers(s) == {1, 2} && 3 in s.pc && s.pc[3].CloseSignal?
  {
    var s1, s2 := At(INITIAL, 1, PopSleep), At(At(INITIAL, 1, PopSleep), 2, PopSleep);
    PopSleeps(INITIAL, 1);
    PopSleeps(s1, 2);
    CloseSignals(s2, 3);
    ExecConcat(INITIAL, Begin(1, Pop), Begin(2, Pop));
    ExecConcat(INITIAL, Begin(1, Pop) + Begin(2, Pop), Begin(3, Close));
  }
}
