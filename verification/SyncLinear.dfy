/** The blocking queue is linearisable: every call takes effect once, between its start and its return, and
    in the order of these effects it behaves as a queue that one thread uses on its own. */
module SyncLinear {
  import opened Base
  import opened SyncQueue

  // ---------------------------------------------------------------- the queue of a single thread

  /** The effect of call `call` of thread `t`. */
  datatype Effect = Effect(t: nat, call: Call)

  /** What pop and tryPop return; pop has no flag. */
  datatype Answered = Popped(r: Option<Message>) | Tried(r: Option<Message>, ok: bool)

  datatype Sequential = Sequential(items: seq<Message>, closed: bool, answers: map<nat, Answered>)

  function Oldest(q: Sequential): Option<Message> { if q.items == [] then None else Some(q.items[0]) }

  function Rest(q: Sequential): seq<Message> { if q.items == [] then [] else q.items[1..] }

  function Apply(q: Sequential, e: Effect): Sequential {
    match e.call
    case Push(v) => if q.closed then q else q.(items := q.items + [v])
    case Close => q.(closed := true)
    case Pop => Sequential(Rest(q), q.closed, q.answers[e.t := Popped(Oldest(q))])
    case TryPop => Sequential(Rest(q), q.closed, q.answers[e.t := Tried(Oldest(q), q.items != [] || q.closed)])
  }

  function ApplyAll(effects: seq<Effect>): Sequential {
    if effects == [] then Sequential([], false, map[])
    else Apply(ApplyAll(effects[..|effects| - 1]), effects[|effects| - 1])
  }

  /** The items pushed before the first close. */
  function Offered(effects: seq<Effect>): seq<Message> {
    if effects == [] then []
    else
      var n := |effects| - 1;
      if effects[n].call.Push? && !ClosedIn(effects[..n]) then Offered(effects[..n]) + [effects[n].call.v]
      else Offered(effects[..n])
  }

  predicate ClosedIn(effects: seq<Effect>) { exists i :: 0 <= i < |effects| && effects[i].call.Close? }

  // ---------------------------------------------------------------- effects of an interleaving

  /** The calls that have been made. */
  function Entered(acts: seq<Action>): map<nat, Call> {
    if acts == [] then map[]
    else
      var before, a := Entered(acts[..|acts| - 1]), acts[|acts| - 1];
      if a.Enter? && a.t !in before then before[a.t := a.call] else before
  }

  /** The moves in which a call takes effect. */
  function EffectOf(s: State, a: Action): seq<Effect> {
    if a.Enter? || a.t !in s.pc then []
    else
      match s.pc[a.t]
      case PopTake => [Effect(a.t, Pop)]
      case TryHold => [Effect(a.t, TryPop)]
      case PushHold(v) => [Effect(a.t, Push(v))]
      case CloseHold => [Effect(a.t, Close)]
      case _ => []
  }

  function Effects(acts: seq<Action>): seq<Effect> {
    if acts == [] then []
    else
      var before := acts[..|acts| - 1];
      Effects(before) + EffectOf(Exec(INITIAL, before), acts[|acts| - 1])
  }

  /** The call has taken effect. */
  predicate Past(pc: Pc) {
    || pc.PopUnlock? || pc.PopDone? || pc.TryUnlock? || pc.TryDone?
    || pc.PushSignal? || pc.PushUnlock? || pc.PushDone? || pc.CloseSignal? || pc.CloseUnlock? || pc.CloseDone?
  }

  /** The position is one of this call. */
  predicate Within(pc: Pc, call: Call) {
    match call
    case Pop => pc.PopLock? || pc.PopTest? || pc.PopSleep? || pc.PopWoken? || pc.PopTake? || pc.PopUnlock? || pc.PopDone?
    case TryPop => pc.TryLock? || pc.TryHold? || pc.TryUnlock? || pc.TryDone?
    case Push(v) => pc == PushLock(v) || pc == PushHold(v) || pc.PushSignal? || pc.PushUnlock? || pc.PushDone?
    case Close => pc.CloseLock? || pc.CloseHold? || pc.CloseSignal? || pc.CloseUnlock? || pc.CloseDone?
  }

  // ---------------------------------------------------------------- every call takes effect once

  /** Thread by thread: the call is under way, and it has taken effect exactly when it is past its effect. */
  predicate Once(s: State, calls: map<nat, Call>, effects: seq<Effect>) {
    && s.pc.Keys == calls.Keys
    && (forall t :: t in s.pc ==> Within(s.pc[t], calls[t]))
    && (forall i :: 0 <= i < |effects| ==>
          effects[i].t in s.pc && Past(s.pc[effects[i].t]) && effects[i].call == calls[effects[i].t])
    && (forall i, j :: 0 <= i < j < |effects| ==> effects[i].t != effects[j].t)
    && (forall t :: t in s.pc && Past(s.pc[t]) ==> HasEffect(effects, t))
  }

  predicate HasEffect(effects: seq<Effect>, t: nat) { exists i :: 0 <= i < |effects| && effects[i].t == t }

  /** What a move of thread `t` does to its own position. */
  lemma OwnThread(s: State, t: nat, wake: nat, call: Call)
    requires t in s.pc && Within(s.pc[t], call) && !Signals(s.pc[t])
    ensures var s' := Move(s, Go(t, wake));
            && t in s'.pc && Within(s'.pc[t], call)
            && (Past(s'.pc[t]) <==> Past(s.pc[t]) || Touches(s.pc[t]))
  {
  }

  lemma OwnEffect(s: State, t: nat, wake: nat, call: Call)
    requires t in s.pc && Within(s.pc[t], call)
    ensures EffectOf(s, Go(t, wake)) == if Touches(s.pc[t]) then [Effect(t, call)] else []
    ensures Touches(s.pc[t]) ==> !Past(s.pc[t])
  {
  }

  /** A signal moves its own thread behind it and a sleeper out of its sleep. */
  lemma SignalThread(s: State, t: nat, wake: nat, pc: Pc, u: nat)
    requires t in s.pc && Signals(s.pc[t]) && (pc.PushUnlock? || pc.CloseUnlock?) && u in s.pc
    ensures var s' := Signal(s, t, wake, pc);
            && u in s'.pc
            && (s'.pc[u] == s.pc[u] || (u == t && s'.pc[u] == pc) || (s.pc[u].PopSleep? && s'.pc[u].PopWoken?))
  {
  }

  lemma SignalWithin(s: State, t: nat, wake: nat, u: nat, call: Call)
    requires t in s.pc && Signals(s.pc[t]) && u in s.pc && Within(s.pc[u], call)
    ensures var s' := Move(s, Go(t, wake));
            u in s'.pc && Within(s'.pc[u], call) && (Past(s'.pc[u]) <==> Past(s.pc[u]))
  {
    SignalThread(s, t, wake, if s.pc[t].PushSignal? then PushUnlock else CloseUnlock, u);
  }

  /** What a move does to the position of thread `u`. */
  lemma MoveThread(s: State, a: Action, u: nat, call: Call)
    requires u in s.pc && Within(s.pc[u], call)
    ensures var s', mine := Move(s, a), a.Go? && a.t == u && Touches(s.pc[u]);
            u in s'.pc && Within(s'.pc[u], call) && (Past(s'.pc[u]) <==> Past(s.pc[u]) || mine)
  {
    if a.Go? && a.t in s.pc {
      if Signals(s.pc[a.t]) {
        SignalWithin(s, a.t, a.wake, u, call);
      } else {
        StepPc(s, a.t, a.wake);
        if a.t == u { OwnThread(s, u, a.wake, call); }
      }
    }
  }

  lemma MoveKeys(s: State, a: Action)
    ensures Move(s, a).pc.Keys == s.pc.Keys + if a.Enter? then {a.t} else {}
    ensures a.Enter? && a.t !in s.pc ==> Move(s, a).pc[a.t] == Entry(a.call)
  {
    if a.Go? && a.t in s.pc && !Signals(s.pc[a.t]) { StepPc(s, a.t, a.wake); }
  }

  lemma HasEffectSnoc(effects: seq<Effect>, more: seq<Effect>, t: nat)
    requires |more| <= 1
    ensures HasEffect(effects + more, t) <==> HasEffect(effects, t) || (more != [] && more[0].t == t)
  {
    var all := effects + more;
    if HasEffect(effects, t) {
      var i :| 0 <= i < |effects| && effects[i].t == t;
      assert all[i].t == t;
    }
    if more != [] && more[0].t == t { assert all[|effects|].t == t; }
  }

  function Joined(calls: map<nat, Call>, a: Action): map<nat, Call> {
    if a.Enter? && a.t !in calls then calls[a.t := a.call] else calls
  }

  lemma NoEffectOnce(s: State, a: Action, calls: map<nat, Call>, effects: seq<Effect>)
    requires Once(s, calls, effects) && (a.Go? && a.t in s.pc ==> !Touches(s.pc[a.t]))
    ensures Once(Move(s, a), Joined(calls, a), effects)
  {
    MoveKeys(s, a);
    forall u | u in s.pc
      ensures u in Move(s, a).pc && Within(Move(s, a).pc[u], calls[u])
      ensures Past(Move(s, a).pc[u]) <==> Past(s.pc[u])
    {
      MoveThread(s, a, u, calls[u]);
    }
    OnceStays(s, Move(s, a), calls, Joined(calls, a), effects);
  }

  lemma OnceStays(s: State, s': State, calls: map<nat, Call>, calls': map<nat, Call>, effects: seq<Effect>)
    requires Once(s, calls, effects) && s'.pc.Keys == calls'.Keys && calls.Keys <= calls'.Keys
    requires forall u :: u in s.pc ==>
               Within(s'.pc[u], calls[u]) && (Past(s'.pc[u]) <==> Past(s.pc[u])) && calls'[u] == calls[u]
    requires forall u :: u in s'.pc && u !in s.pc ==> Within(s'.pc[u], calls'[u]) && !Past(s'.pc[u])
    ensures Once(s', calls', effects)
  {
  }

  lemma EffectOnce(s: State, t: nat, wake: nat, calls: map<nat, Call>, effects: seq<Effect>)
    requires Once(s, calls, effects) && t in s.pc && Touches(s.pc[t])
    ensures Once(Move(s, Go(t, wake)), calls, effects + [Effect(t, calls[t])])
  {
    var s' := Move(s, Go(t, wake));
    StepPc(s, t, wake);
    OwnThread(s, t, wake, calls[t]);
    OwnEffect(s, t, wake, calls[t]);
    OnceMore(s, s', t, s'.pc[t], calls, effects);
  }

  lemma OnceMore(s: State, s': State, t: nat, pc: Pc, calls: map<nat, Call>, effects: seq<Effect>)
    requires Once(s, calls, effects) && t in s.pc && !Past(s.pc[t])
    requires s'.pc == s.pc[t := pc] && Within(pc, calls[t]) && Past(pc)
    ensures Once(s', calls, effects + [Effect(t, calls[t])])
  {
    var more := [Effect(t, calls[t])];
    forall u | u in s'.pc && Past(s'.pc[u])
      ensures HasEffect(effects + more, u)
    {
      HasEffectSnoc(effects, more, u);
    }
  }

  lemma MoveOnce(s: State, a: Action, calls: map<nat, Call>, effects: seq<Effect>)
    requires Once(s, calls, effects)
    ensures Once(Move(s, a), Joined(calls, a), effects + EffectOf(s, a))
  {
    if a.Go? && a.t in s.pc && Touches(s.pc[a.t]) {
      OwnEffect(s, a.t, a.wake, calls[a.t]);
      EffectOnce(s, a.t, a.wake, calls, effects);
    } else {
      NoEffectOnce(s, a, calls, effects);
      assert effects + [] == effects;
    }
  }

  // ---------------------------------------------------------------- the effects in order

  /** What a position says that its call returns. */
  function AnswerOf(pc: Pc): Option<Answered> {
    match pc
    case PopUnlock(r) => Some(Popped(r))
    case PopDone(r) => Some(Popped(r))
    case TryUnlock(r, ok) => Some(Tried(r, ok))
    case TryDone(r, ok) => Some(Tried(r, ok))
    case _ => None
  }

  function AnswerIn(q: Sequential, t: nat): Option<Answered> { if t in q.answers then Some(q.answers[t]) else None }

  /** Buffer, flag and answers are those of the sequential queue. */
  predicate Refines(s: State, q: Sequential) {
    && s.buffer == q.items && s.closed == q.closed
    && (forall t :: t in s.pc ==> AnswerIn(q, t) == AnswerOf(s.pc[t]))
    && q.answers.Keys <= s.pc.Keys
  }

  lemma OwnAnswerStays(s: State, t: nat, wake: nat)
    requires t in s.pc && !Touches(s.pc[t]) && !Signals(s.pc[t])
    ensures t in Move(s, Go(t, wake)).pc && AnswerOf(Move(s, Go(t, wake)).pc[t]) == AnswerOf(s.pc[t])
  {
  }

  lemma AnswerStays(s: State, a: Action, u: nat)
    requires Quiet(s, a) && u in Move(s, a).pc
    ensures AnswerOf(Move(s, a).pc[u]) == if u in s.pc then AnswerOf(s.pc[u]) else None
  {
    MoveKeys(s, a);
    if a.Go? && a.t in s.pc {
      if Signals(s.pc[a.t]) {
        SignalThread(s, a.t, a.wake, if s.pc[a.t].PushSignal? then PushUnlock else CloseUnlock, u);
      } else {
        StepPc(s, a.t, a.wake);
        OwnAnswerStays(s, a.t, a.wake);
      }
    }
  }

  /** A move without an effect changes neither data nor answers. */
  lemma QuietRefines(s: State, a: Action, q: Sequential)
    requires Refines(s, q) && Quiet(s, a)
    ensures Refines(Move(s, a), q)
  {
    QuietData(s, a);
    MoveKeys(s, a);
    forall u | u in Move(s, a).pc
      ensures AnswerOf(Move(s, a).pc[u]) == if u in s.pc then AnswerOf(s.pc[u]) else None
    {
      AnswerStays(s, a, u);
    }
  }

  lemma EffectRefines(s: State, a: Action, q: Sequential)
    requires Refines(s, q) && !Quiet(s, a)
    ensures Refines(Move(s, a), Apply(q, EffectOf(s, a)[0]))
  {
    StepPc(s, a.t, a.wake);
  }

  lemma {:induction false} ClosedIs(effects: seq<Effect>)
    ensures ApplyAll(effects).closed <==> ClosedIn(effects)
  {
    if effects != [] {
      var n := |effects| - 1;
      ClosedIs(effects[..n]);
      assert ClosedIn(effects) <==> ClosedIn(effects[..n]) || effects[n].call.Close?;
    }
  }

  lemma OfferedSnoc(effects: seq<Effect>, e: Effect)
    ensures Offered(effects + [e]) ==
            Offered(effects) + if e.call.Push? && !ClosedIn(effects) then [e.call.v] else []
  {
    assert (effects + [e])[..|effects|] == effects;
  }

  /** What a move adds to the items accepted. */
  lemma AcceptedStep(s: State, a: Action)
    ensures var more := EffectOf(s, a);
            Move(s, a).accepted == s.accepted + if more != [] && more[0].call.Push? && !s.closed then [more[0].call.v] else []
  {
  }

  lemma ApplySnoc(effects: seq<Effect>, e: Effect)
    ensures ApplyAll(effects + [e]) == Apply(ApplyAll(effects), e)
  {
    assert (effects + [e])[..|effects|] == effects;
  }

  /** State, calls and effects belong together. */
  ghost predicate Linear(s: State, calls: map<nat, Call>, effects: seq<Effect>) {
    Once(s, calls, effects) && Refines(s, ApplyAll(effects)) && s.accepted == Offered(effects)
  }

  lemma QuietEffects(s: State, a: Action)
    ensures |EffectOf(s, a)| <= 1 && (EffectOf(s, a) == [] <==> Quiet(s, a))
  {
  }

  lemma MoveLinearisable(s: State, a: Action, calls: map<nat, Call>, effects: seq<Effect>)
    requires Linear(s, calls, effects)
    ensures Linear(Move(s, a), Joined(calls, a), effects + EffectOf(s, a))
  {
    var more := EffectOf(s, a);
    MoveOnce(s, a, calls, effects);
    QuietEffects(s, a);
    AcceptedStep(s, a);
    ClosedIs(effects);
    if Quiet(s, a) {
      QuietRefines(s, a, ApplyAll(effects));
      assert effects + more == effects;
    } else {
      var e := more[0];
      assert more == [e];
      EffectRefines(s, a, ApplyAll(effects));
      ApplySnoc(effects, e);
      OfferedSnoc(effects, e);
    }
  }

  /** Linearisability, for any number of threads and every interleaving: every call takes effect exactly once,
      while it is under way, as the call it is; buffer, flag and every answer are those of a queue that one
      thread uses, given the effects in their order; and the items accepted are exactly those pushed before the
      first close. */
  lemma {:induction false} Linearisable(acts: seq<Action>)
    ensures var s, effects := Exec(INITIAL, acts), Effects(acts);
            && Once(s, Entered(acts), effects)
            && Refines(s, ApplyAll(effects))
            && s.accepted == Offered(effects)
  {
    if acts != [] {
      var n := |acts| - 1;
      Linearisable(acts[..n]);
      MoveLinearisable(Exec(INITIAL, acts[..n]), acts[n], Entered(acts[..n]), Effects(acts[..n]));
    }
  }

  // ---------------------------------------------------------------- answers in their place

  predicate DistinctThreads(effects: seq<Effect>) {
    forall i, j :: 0 <= i < j < |effects| ==> effects[i].t != effects[j].t
  }

  /** No later effect touches the answer of an earlier one. */
  lemma {:induction false} AnswerKept(effects: seq<Effect>, i: nat)
    requires i < |effects| && DistinctThreads(effects)
    ensures AnswerIn(ApplyAll(effects), effects[i].t) == AnswerIn(Apply(ApplyAll(effects[..i]), effects[i]), effects[i].t)
    decreases |effects|
  {
    var n := |effects| - 1;
    var front, last := effects[..n], effects[n];
    if i < n {
      AnswerKept(front, i);
      assert front[..i] == effects[..i] && front[i] == effects[i];
      OthersAnswer(ApplyAll(front), last, effects[i].t);
    }
  }

  lemma OthersAnswer(q: Sequential, e: Effect, t: nat)
    requires e.t != t
    ensures AnswerIn(Apply(q, e), t) == AnswerIn(q, t)
  {
  }

  /** A pop takes effect on an open queue only if there is an item. */
  ghost predicate PopsWait(effects: seq<Effect>) {
    forall i :: 0 <= i < |effects| && effects[i].call.Pop? ==> PopReady(ApplyAll(effects[..i]))
  }

  predicate PopReady(q: Sequential) { q.items != [] || q.closed }

  lemma PopsWaitSnoc(effects: seq<Effect>, e: Effect)
    requires PopsWait(effects) && (e.call.Pop? ==> PopReady(ApplyAll(effects)))
    ensures PopsWait(effects + [e])
  {
    var all := effects + [e];
    forall i | 0 <= i < |all| && all[i].call.Pop?
      ensures PopReady(ApplyAll(all[..i]))
    {
      if i < |effects| {
        assert all[..i] == effects[..i];
      } else {
        assert all[..i] == effects;
      }
    }
  }

  lemma {:induction false} PopsAlwaysWait(acts: seq<Action>)
    ensures PopsWait(Effects(acts))
  {
    if acts != [] {
      var n := |acts| - 1;
      var s, a, effects := Exec(INITIAL, acts[..n]), acts[n], Effects(acts[..n]);
      PopsAlwaysWait(acts[..n]);
      Linearisable(acts[..n]);
      RunInvariant(acts[..n]);
      QuietEffects(s, a);
      if Quiet(s, a) {
        assert effects + EffectOf(s, a) == effects;
      } else {
        PopsWaitSnoc(effects, EffectOf(s, a)[0]);
        assert EffectOf(s, a) == [EffectOf(s, a)[0]];
      }
    }
  }

  /** Every answer, in its place in the order of effects: a pop returns the oldest item, or nothing if the queue
      has been closed and is empty; a tryPop returns the oldest item and ok, and on an empty queue nothing, with
      ok if and only if a close came before it. */
  lemma AnswersInPlace(acts: seq<Action>, i: nat)
    requires i < |Effects(acts)|
    ensures var s, effects := Exec(INITIAL, acts), Effects(acts);
            var e, q := effects[i], ApplyAll(effects[..i]);
            && e.t in s.pc
            && (e.call.Pop? ==> AnswerOf(s.pc[e.t]) == Some(Popped(Oldest(q))) && (q.items == [] ==> ClosedIn(effects[..i])))
            && (e.call.TryPop? ==>
                  AnswerOf(s.pc[e.t]) == Some(Tried(Oldest(q), q.items != [] || ClosedIn(effects[..i]))))
  {
    var effects := Effects(acts);
    Linearisable(acts);
    PopsAlwaysWait(acts);
    AnswerKept(effects, i);
    ClosedIs(effects[..i]);
  }
}
