/** The rule engine as a value: products with an executor, each with its rules; and the flat table from
    (product, rule) that it stands for. The registry is asked through `Registry`. */
module RuleModel {
  import opened Base

  datatype Status = Idle | Started | Stoped | Other(name: Text)

  /** A rule as the executor keeps it. Only createRule gives it a pipeline (executor.go:129, 152-154). */
  datatype Rule = Rule(status: Status, piped: bool)

  datatype Record = Record(status: Status, supported: bool)

  /** The answers of the registry and of the message bus: known products, products whose event topic can
      be subscribed, and the stored rules. */
  datatype Registry = Registry(products: set<Text>, topics: set<Text>, rules: map<(Text, Text), Record>)

  datatype Kind = Create | Remove | Update | Start | Stop | Unrecognised

  datatype Action = Dispatch(kind: Kind, product: Text, rule: Text) | Clean

  type Rules = map<Text, Rule>

  type Engine = map<Text, Rules>

  // ---------------------------------------------------------------- one executor

  datatype Done<T> = Done(state: T, ok: bool)

  predicate Installable(reg: Registry, product: Text, rule: Text) {
    (product, rule) in reg.rules && reg.rules[(product, rule)].supported
  }

  function OnRules(rules: Rules, reg: Registry, kind: Kind, product: Text, rule: Text): Done<Rules> {
    match kind
    case Create =>
      if rule !in rules && Installable(reg, product, rule) then
        Done(rules[rule := Rule(reg.rules[(product, rule)].status, true)], true)
      else Done(rules, false)
    case Remove => if rule in rules then Done(rules - {rule}, true) else Done(rules, false)
    case Update =>
      if (product, rule) in reg.rules && rule in rules then
        Done(rules[rule := Rule(reg.rules[(product, rule)].status, false)], true)
      else Done(rules, false)
    case Start => if rule in rules then Done(rules[rule := rules[rule].(status := Started)], true) else Done(rules, false)
    case Stop => if rule in rules then Done(rules[rule := rules[rule].(status := Stoped)], true) else Done(rules, false)
    case Unrecognised => Done(rules, false)
  }

  // ---------------------------------------------------------------- the engine

  predicate Reachable(reg: Registry, product: Text) { product in reg.products && product in reg.topics }

  function Dispatched(e: Engine, reg: Registry, kind: Kind, product: Text, rule: Text): Done<Engine> {
    if product !in e && (kind != Create || !Reachable(reg, product)) then Done(e, false)
    else
      var rules := if product in e then e[product] else map[];
      var d := OnRules(rules, reg, kind, product, rule);
      Done(e[product := d.state], d.ok)
  }

  function Cleaned(e: Engine): Engine { map p | p in e && |e[p]| > 0 :: e[p] }

  function Step(e: Engine, reg: Registry, a: Action): Done<Engine> {
    match a
    case Dispatch(kind, product, rule) => Dispatched(e, reg, kind, product, rule)
    case Clean => Done(Cleaned(e), true)
  }

  function Run(reg: Registry, h: seq<Action>): Engine {
    if h == [] then map[] else Step(Run(reg, h[..|h| - 1]), reg, h[|h| - 1]).state
  }

  /** Success or failure of every dispatched action, in order. */
  function Answers(reg: Registry, h: seq<Action>): seq<bool> {
    if h == [] then []
    else
      var n := |h| - 1;
      if h[n].Clean? then Answers(reg, h[..n])
      else Answers(reg, h[..n]) + [Step(Run(reg, h[..n]), reg, h[n]).ok]
  }

  function Lookup(e: Engine, product: Text, rule: Text): Option<Rule> {
    if product in e && rule in e[product] then Some(e[product][rule]) else None
  }

  // ---------------------------------------------------------------- the flat table

  type Table = map<(Text, Text), Rule>

  /** What an action does to the flat table: no executors, no cleaning. */
  function FlatStep(t: Table, reg: Registry, kind: Kind, product: Text, rule: Text): Done<Table> {
    var key := (product, rule);
    match kind
    case Create =>
      if Reachable(reg, product) && key !in t && Installable(reg, product, rule) then
        Done(t[key := Rule(reg.rules[key].status, true)], true)
      else Done(t, false)
    case Remove => if key in t then Done(t - {key}, true) else Done(t, false)
    case Update =>
      if key in t && key in reg.rules then Done(t[key := Rule(reg.rules[key].status, false)], true) else Done(t, false)
    case Start => if key in t then Done(t[key := t[key].(status := Started)], true) else Done(t, false)
    case Stop => if key in t then Done(t[key := t[key].(status := Stoped)], true) else Done(t, false)
    case Unrecognised => Done(t, false)
  }

  function FlatNext(t: Table, reg: Registry, a: Action): Done<Table> {
    if a.Clean? then Done(t, true) else FlatStep(t, reg, a.kind, a.product, a.rule)
  }

  function FlatRun(reg: Registry, h: seq<Action>): Table {
    if h == [] then map[] else FlatNext(FlatRun(reg, h[..|h| - 1]), reg, h[|h| - 1]).state
  }

  function FlatAnswers(reg: Registry, h: seq<Action>): seq<bool> {
    if h == [] then []
    else
      var n := |h| - 1;
      if h[n].Clean? then FlatAnswers(reg, h[..n])
      else FlatAnswers(reg, h[..n]) + [FlatNext(FlatRun(reg, h[..n]), reg, h[n]).ok]
  }

  /** The engine stands for the table, and only reachable products have an executor. */
  ghost predicate Refines(e: Engine, t: Table, reg: Registry) {
    && (forall p :: p in e ==> Reachable(reg, p))
    && (forall p: Text, r: Text :: Matches(e, t, p, r))
  }

  predicate Matches(e: Engine, t: Table, p: Text, r: Text) {
    Lookup(e, p, r) == if (p, r) in t then Some(t[(p, r)]) else None
  }

  lemma DispatchRefines(e: Engine, t: Table, reg: Registry, kind: Kind, product: Text, rule: Text)
    requires Refines(e, t, reg)
    ensures Refines(Dispatched(e, reg, kind, product, rule).state, FlatStep(t, reg, kind, product, rule).state, reg)
    ensures Dispatched(e, reg, kind, product, rule).ok == FlatStep(t, reg, kind, product, rule).ok
  {
    assert Matches(e, t, product, rule);
    var e', t' := Dispatched(e, reg, kind, product, rule).state, FlatStep(t, reg, kind, product, rule).state;
    forall p: Text, r: Text
      ensures Matches(e', t', p, r)
    {
      assert Matches(e, t, p, r);
    }
  }

  lemma CleanRefines(e: Engine, t: Table, reg: Registry)
    requires Refines(e, t, reg)
    ensures Refines(Cleaned(e), t, reg)
  {
    forall p: Text, r: Text
      ensures Matches(Cleaned(e), t, p, r)
    {
      assert Matches(e, t, p, r);
    }
  }

  /** With stable answers, the engine with its executors and its cleaner is the flat table: the same
      successes and failures, the same rules with the same status, after every history. */
  lemma {:induction false} EngineRefinesTable(reg: Registry, h: seq<Action>)
    ensures Refines(Run(reg, h), FlatRun(reg, h), reg)
    ensures Answers(reg, h) == FlatAnswers(reg, h)
  {
    if h != [] {
      var n := |h| - 1;
      EngineRefinesTable(reg, h[..n]);
      var e, t := Run(reg, h[..n]), FlatRun(reg, h[..n]);
      if h[n].Clean? {
        CleanRefines(e, t, reg);
      } else {
        DispatchRefines(e, t, reg, h[n].kind, h[n].product, h[n].rule);
      }
    }
  }

  lemma FlatCongruent(reg: Registry, g: seq<Action>, h: seq<Action>)
    requires g != [] && h != [] && g[|g| - 1] == h[|h| - 1]
    requires FlatRun(reg, g[..|g| - 1]) == FlatRun(reg, h[..|h| - 1])
    requires FlatAnswers(reg, g[..|g| - 1]) == FlatAnswers(reg, h[..|h| - 1])
    ensures FlatRun(reg, g) == FlatRun(reg, h) && FlatAnswers(reg, g) == FlatAnswers(reg, h)
  {
  }

  lemma {:induction false} FlatIgnoresClean(reg: Registry, before: seq<Action>, after: seq<Action>)
    ensures FlatRun(reg, before + [Clean] + after) == FlatRun(reg, before + after)
    ensures FlatAnswers(reg, before + [Clean] + after) == FlatAnswers(reg, before + after)
    decreases |after|
  {
    var h1, h2 := before + [Clean] + after, before + after;
    if after == [] {
      assert h1[..|h1| - 1] == before && h2 == before;
    } else {
      var a := after[..|after| - 1];
      FlatIgnoresClean(reg, before, a);
      assert h1[..|h1| - 1] == before + [Clean] + a && h2[..|h2| - 1] == before + a;
      assert h1[|h1| - 1] == h2[|h2| - 1];
      FlatCongruent(reg, h1, h2);
    }
  }

  /** A run of the cleaner inserted anywhere changes no later answer and no status. */
  lemma CleanIsInvisible(reg: Registry, before: seq<Action>, after: seq<Action>, product: Text, rule: Text)
    ensures Answers(reg, before + [Clean] + after) == Answers(reg, before + after)
    ensures Lookup(Run(reg, before + [Clean] + after), product, rule) == Lookup(Run(reg, before + after), product, rule)
  {
    EngineRefinesTable(reg, before + [Clean] + after);
    EngineRefinesTable(reg, before + after);
    FlatIgnoresClean(reg, before, after);
    var t := FlatRun(reg, before + after);
    assert Matches(Run(reg, before + [Clean] + after), t, product, rule);
    assert Matches(Run(reg, before + after), t, product, rule);
  }

  // ---------------------------------------------------------------- one rule on its own

  predicate About(a: Action, kind: Kind, product: Text, rule: Text) { a == Dispatch(kind, product, rule) }

  /** The rule is in the engine: it was created, from a known product and a supported record, and has not been
      removed since. */
  predicate Present(reg: Registry, h: seq<Action>, product: Text, rule: Text) {
    h != [] &&
    var before, a := Present(reg, h[..|h| - 1], product, rule), h[|h| - 1];
    !About(a, Remove, product, rule) &&
    (before || (About(a, Create, product, rule) && Reachable(reg, product) && Installable(reg, product, rule)))
  }

  /** The actions that give the rule a status, and which one. */
  function Given(reg: Registry, h: seq<Action>, product: Text, rule: Text): Option<Status>
    requires h != []
  {
    var a, there := h[|h| - 1], Present(reg, h[..|h| - 1], product, rule);
    if About(a, Start, product, rule) then Some(Started)
    else if About(a, Stop, product, rule) then Some(Stoped)
    else if (product, rule) in reg.rules && (About(a, Update, product, rule) || (About(a, Create, product, rule) && !there))
    then Some(reg.rules[(product, rule)].status)
    else None
  }

  /** The status that was given last. */
  function StatusOf(reg: Registry, h: seq<Action>, product: Text, rule: Text): Status {
    if h == [] then Idle
    else
      var given := Given(reg, h, product, rule);
      if given.Some? then given.value else StatusOf(reg, h[..|h| - 1], product, rule)
  }

  /** Each rule by itself, whatever happens to the others. */
  lemma {:induction false} RuleIs(reg: Registry, h: seq<Action>, product: Text, rule: Text)
    ensures (product, rule) in FlatRun(reg, h) <==> Present(reg, h, product, rule)
    ensures Present(reg, h, product, rule) ==> FlatRun(reg, h)[(product, rule)].status == StatusOf(reg, h, product, rule)
  {
    if h != [] { RuleIs(reg, h[..|h| - 1], product, rule); }
  }

  /** Create succeeds for a new rule that can be installed, Update for one that is there and still in the registry,
      and Remove, Start and Stop for one that is there. */
  lemma AnswerIs(reg: Registry, h: seq<Action>, kind: Kind, product: Text, rule: Text)
    ensures var there := Present(reg, h, product, rule);
            FlatStep(FlatRun(reg, h), reg, kind, product, rule).ok <==>
              match kind
              case Create => !there && Reachable(reg, product) && Installable(reg, product, rule)
              case Update => there && (product, rule) in reg.rules
              case Unrecognised => false
              case _ => there
  {
    RuleIs(reg, h, product, rule);
  }

  // ---------------------------------------------------------------- execution

  /** The i-th action is this one, for this rule, and it succeeds. */
  ghost predicate Succeeds(reg: Registry, h: seq<Action>, i: nat, kind: Kind, product: Text, rule: Text) {
    && i < |h| && h[i] == Dispatch(kind, product, rule)
    && FlatStep(FlatRun(reg, h[..i]), reg, kind, product, rule).ok
  }

  ghost predicate UpdatedAt(reg: Registry, h: seq<Action>, i: nat, product: Text, rule: Text) {
    && Succeeds(reg, h, i, Update, product, rule)
    && forall j: nat {:trigger Succeeds(reg, h, j, Create, product, rule)} ::
         i < j < |h| ==> !Succeeds(reg, h, j, Create, product, rule)
  }

  /** Some Update of the rule succeeded, and no Create of it has succeeded since. */
  ghost predicate Updated(reg: Registry, h: seq<Action>, product: Text, rule: Text) {
    exists i: nat {:trigger UpdatedAt(reg, h, i, product, rule)} :: i < |h| && UpdatedAt(reg, h, i, product, rule)
  }

  lemma SucceedsBefore(reg: Registry, h: seq<Action>, i: nat, kind: Kind, product: Text, rule: Text)
    requires h != [] && i < |h| - 1
    ensures Succeeds(reg, h, i, kind, product, rule) <==> Succeeds(reg, h[..|h| - 1], i, kind, product, rule)
  {
    assert h[..|h| - 1][..i] == h[..i];
  }

  lemma UpdatedBefore(reg: Registry, h: seq<Action>, i: nat, product: Text, rule: Text)
    requires h != [] && i < |h| - 1
    ensures UpdatedAt(reg, h, i, product, rule) <==>
              UpdatedAt(reg, h[..|h| - 1], i, product, rule) && !Succeeds(reg, h, |h| - 1, Create, product, rule)
  {
    var n, before := |h| - 1, h[..|h| - 1];
    SucceedsBefore(reg, h, i, Update, product, rule);
    if UpdatedAt(reg, h, i, product, rule) {
      forall j: nat | i < j < n
        ensures !Succeeds(reg, before, j, Create, product, rule)
      {
        SucceedsBefore(reg, h, j, Create, product, rule);
      }
    }
    if UpdatedAt(reg, before, i, product, rule) {
      forall j: nat | i < j < n
        ensures !Succeeds(reg, h, j, Create, product, rule)
      {
        SucceedsBefore(reg, h, j, Create, product, rule);
      }
    }
  }

  /** How the last action bears on it. */
  lemma UpdatedStep(reg: Registry, h: seq<Action>, product: Text, rule: Text)
    requires h != []
    ensures var n := |h| - 1;
            Updated(reg, h, product, rule) <==>
              || Succeeds(reg, h, n, Update, product, rule)
              || (Updated(reg, h[..n], product, rule) && !Succeeds(reg, h, n, Create, product, rule))
  {
    var n := |h| - 1;
    if Updated(reg, h, product, rule) {
      var i: nat :| i < |h| && UpdatedAt(reg, h, i, product, rule);
      if i < n { UpdatedBefore(reg, h, i, product, rule); }
    }
    if Succeeds(reg, h, n, Update, product, rule) {
      assert UpdatedAt(reg, h, n, product, rule);
    } else if Updated(reg, h[..n], product, rule) && !Succeeds(reg, h, n, Create, product, rule) {
      var i: nat :| i < n && UpdatedAt(reg, h[..n], i, product, rule);
      UpdatedBefore(reg, h, i, product, rule);
    }
  }

  /** A rule in the engine lacks its pipeline if and only if an Update installed it. */
  lemma {:induction false} PipelineLostIffUpdated(reg: Registry, h: seq<Action>, product: Text, rule: Text)
    requires (product, rule) in FlatRun(reg, h)
    ensures FlatRun(reg, h)[(product, rule)].piped <==> !Updated(reg, h, product, rule)
  {
    if h != [] {
      var n := |h| - 1;
      UpdatedStep(reg, h, product, rule);
      if (product, rule) in FlatRun(reg, h[..n]) {
        PipelineLostIffUpdated(reg, h[..n], product, rule);
      }
    }
  }

  /** The rules of a product that an event is fed to. */
  function Fed(rules: Rules): set<Text> { set r | r in rules && rules[r].status == Started }

  /** Feeding a started rule without a pipeline is a run-time error. */
  predicate Explodes(rules: Rules) { exists r :: r in rules && rules[r].status == Started && !rules[r].piped }

  /** An event makes the executor of a product fail if and only if some rule of it is started whose last
      installation was an Update. */
  lemma ExecuteFailsIff(reg: Registry, h: seq<Action>, product: Text)
    requires product in Run(reg, h)
    ensures Explodes(Run(reg, h)[product]) <==>
              exists r :: (product, r) in FlatRun(reg, h) && FlatRun(reg, h)[(product, r)].status == Started
                          && Updated(reg, h, product, r)
  {
    EngineRefinesTable(reg, h);
    var rules, t := Run(reg, h)[product], FlatRun(reg, h);
    if Explodes(rules) {
      var r :| r in rules && rules[r].status == Started && !rules[r].piped;
      assert Matches(Run(reg, h), t, product, r);
      PipelineLostIffUpdated(reg, h, product, r);
    }
    if r :| (product, r) in t && t[(product, r)].status == Started && Updated(reg, h, product, r) {
      assert Matches(Run(reg, h), t, product, r);
      PipelineLostIffUpdated(reg, h, product, r);
      assert r in rules;
    }
  }

  lemma NeverUpdated(reg: Registry, h: seq<Action>, product: Text, rule: Text)
    requires forall i :: 0 <= i < |h| && h[i].Dispatch? ==> h[i].kind != Update
    ensures !Updated(reg, h, product, rule)
  {
  }

  /** Without updates an event is fed to exactly the rules whose status in the table is started. */
  lemma ExecuteFeedsStarted(reg: Registry, h: seq<Action>, product: Text, rule: Text)
    requires product in Run(reg, h)
    requires forall i :: 0 <= i < |h| && h[i].Dispatch? ==> h[i].kind != Update
    ensures !Explodes(Run(reg, h)[product])
    ensures rule in Fed(Run(reg, h)[product]) <==>
              (product, rule) in FlatRun(reg, h) && FlatRun(reg, h)[(product, rule)].status == Started
  {
    EngineRefinesTable(reg, h);
    assert Matches(Run(reg, h), FlatRun(reg, h), product, rule);
    ExecuteFailsIff(reg, h, product);
    forall r
      ensures !Updated(reg, h, product, r)
    {
      NeverUpdated(reg, h, product, r);
    }
  }
}
