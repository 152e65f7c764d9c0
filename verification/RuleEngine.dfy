/** The objects of whaler/engine: executors with their rules, and the engine that creates, drives and
    cleans them. The registry answers the same throughout. */
module RuleEngines {
  import opened Base
  import opened RuleModel

  class RuleExecutor {
    const productId: Text
    var rules: map<Text, Rule>
    var started: bool

    constructor (productId: Text)
      ensures this.productId == productId && rules == map[] && !started
    {
      this.productId := productId;
      rules, started := map[], false;
    }

    /** Subscribes to the event topic of the product. */
    method StartUp(reg: Registry) returns (ok: bool)
      modifies this`started
      ensures ok <==> old(started) || productId in reg.topics
      ensures started == (old(started) || ok)
    {
      if !started {
        if productId !in reg.topics {
          return false;
        }
        started := true;
      }
      return true;
    }

    method ShutDown()
      modifies this`started
      ensures !started
    {
      started := false;
    }

    method CreateRule(reg: Registry, rule: Text) returns (ok: bool)
      modifies this`rules
      ensures Done(rules, ok) == OnRules(old(rules), reg, Create, productId, rule)
    {
      if rule !in rules {
        if (productId, rule) in reg.rules && reg.rules[(productId, rule)].supported {
          rules := rules[rule := Rule(reg.rules[(productId, rule)].status, true)];
          return true;
        }
      }
      return false;
    }

    method RemoveRule(reg: Registry, rule: Text) returns (ok: bool)
      modifies this`rules
      ensures Done(rules, ok) == OnRules(old(rules), reg, Remove, productId, rule)
    {
      if rule in rules {
        rules := rules - {rule};
        return true;
      }
      return false;
    }

    method UpdateRule(reg: Registry, rule: Text) returns (ok: bool)
      modifies this`rules
      ensures Done(rules, ok) == OnRules(old(rules), reg, Update, productId, rule)
    {
      if (productId, rule) in reg.rules {
        if rule in rules {
          rules := rules[rule := Rule(reg.rules[(productId, rule)].status, false)];
          return true;
        }
      }
      return false;
    }

    method StartRule(reg: Registry, rule: Text) returns (ok: bool)
      modifies this
      ensures started == (old(started) || productId in reg.topics)
      ensures started ==> Done(rules, ok) == OnRules(old(rules), reg, RuleModel.Start, productId, rule)
      ensures !started ==> !ok && rules == old(rules)
    {
      if !started {
        var up := StartUp(reg);
        if !up {
          return false;
        }
      }
      if rule in rules {
        rules := rules[rule := rules[rule].(status := Started)];
        return true;
      }
      return false;
    }

    method StopRule(reg: Registry, rule: Text) returns (ok: bool)
      modifies this`rules
      ensures Done(rules, ok) == OnRules(old(rules), reg, Stop, productId, rule)
    {
      if rule in rules {
        rules := rules[rule := rules[rule].(status := Stoped)];
        return true;
      }
      return false;
    }

    /** Feeds an event to the started rules, in any order. `panicked` marks a rule without a pipeline. */
    method Execute() returns (fed: set<Text>, panicked: bool)
      ensures panicked <==> Explodes(rules)
      ensures !panicked ==> fed == Fed(rules)
    {
      fed := {};
      var todo := rules.Keys;
      while todo != {}
        invariant todo <= rules.Keys
        invariant fed == set r | r in rules && r !in todo && rules[r].status == Started
        invariant forall r :: r in fed ==> rules[r].piped
        decreases todo
      {
        var r :| r in todo;
        todo := todo - {r};
        if rules[r].status == Started {
          if !rules[r].piped {
            return fed, true;
          }
          fed := fed + {r};
        }
      }
      panicked := false;
    }
  }

  class RuleEngine {
    const registry: Registry
    var executors: map<Text, RuleExecutor>
    ghost var table: Engine
    ghost var history: seq<Action>

    /** Every executor in the map is started, serves its own product, and holds what the table says. */
    ghost predicate ExecutorOk(p: Text)
      reads this`executors, this`table, executors.Values
    {
      && (p in executors <==> p in table)
      && (p in executors ==> executors[p].productId == p && executors[p].started && executors[p].rules == table[p])
    }

    ghost predicate Synced()
      reads this`executors, this`table, executors.Values
    {
      forall p: Text {:trigger ExecutorOk(p)} :: ExecutorOk(p)
    }

    ghost predicate Valid()
      reads this, executors.Values
    {
      Synced() && table == Run(registry, history)
    }

    constructor (registry: Registry)
      ensures Valid() && this.registry == registry && history == [] && executors == map[]
    {
      this.registry := registry;
      executors, table, history := map[], map[], [];
    }

    /** Performs the action as the model says; the answer is the same as the flat table's. */
    method DispatchRule(kind: Kind, product: Text, rule: Text) returns (ok: bool)
      requires Valid()
      modifies this, executors.Values
      ensures Valid() && history == old(history) + [Dispatch(kind, product, rule)]
      ensures ok == FlatStep(FlatRun(registry, old(history)), registry, kind, product, rule).ok
    {
      EngineRefinesTable(registry, history);
      DispatchRefines(table, FlatRun(registry, history), registry, kind, product, rule);
      ok := Perform(kind, product, rule);
      ghost var a := Dispatch(kind, product, rule);
      assert (history + [a])[..|history|] == history;
      history := history + [a];
    }

    method Perform(kind: Kind, product: Text, rule: Text) returns (ok: bool)
      requires Synced()
      modifies this`executors, this`table, executors.Values
      ensures Synced() && Done(table, ok) == Dispatched(old(table), registry, kind, product, rule)
    {
      assert ExecutorOk(product);
      if kind == Create && product !in executors {
        if product !in registry.products {
          return false;
        }
        var executor := new RuleExecutor(product);
        var up := executor.StartUp(registry);
        if !up {
          return false;
        }
        Install(executor);
        ok := Forward(executor, Create, rule);
        assert old(table)[product := map[]][product := table[product]] == old(table)[product := table[product]];
      } else if product in executors {
        ok := Forward(executors[product], kind, rule);
      } else {
        return false;
      }
    }

    /** Puts a new executor into the map. */
    method Install(executor: RuleExecutor)
      requires Synced() && executor.started && executor.productId !in executors
      modifies this`executors, this`table
      ensures Synced() && table == old(table)[executor.productId := executor.rules]
      ensures executors == old(executors)[executor.productId := executor]
    {
      executors := executors[executor.productId := executor];
      table := table[executor.productId := executor.rules];
      forall p: Text
        ensures ExecutorOk(p)
      {
        assert old(ExecutorOk(p));
      }
    }

    /** Hands the action to the executor of the product. */
    method Forward(executor: RuleExecutor, kind: Kind, rule: Text) returns (ok: bool)
      requires Synced() && executor.productId in executors && executors[executor.productId] == executor
      modifies executor, this`table
      ensures Synced()
      ensures executor.productId in old(table)
      ensures var d := OnRules(old(table)[executor.productId], registry, kind, executor.productId, rule);
              table == old(table)[executor.productId := d.state] && ok == d.ok
    {
      assert ExecutorOk(executor.productId);
      ok := Apply(executor, kind, rule);
      table := table[executor.productId := executor.rules];
      forall p: Text
        ensures ExecutorOk(p)
      {
        assert old(ExecutorOk(p));
      }
    }

    method Apply(executor: RuleExecutor, kind: Kind, rule: Text) returns (ok: bool)
      requires executor.started
      modifies executor
      ensures executor.started
      ensures Done(executor.rules, ok) == OnRules(old(executor.rules), registry, kind, executor.productId, rule)
    {
      match kind {
        case Create => ok := executor.CreateRule(registry, rule);
        case Remove => ok := executor.RemoveRule(registry, rule);
        case Update => ok := executor.UpdateRule(registry, rule);
        case Start => ok := executor.StartRule(registry, rule);
        case Stop => ok := executor.StopRule(registry, rule);
        case Unrecognised => ok := false;
      }
    }

    /** Stops and drops the executors without rules. */
    method CleanExecutors()
      requires Valid()
      modifies this, executors.Values
      ensures Valid() && history == old(history) + [Clean]
    {
      Sweep();
      assert (history + [Clean])[..|history|] == history;
      history := history + [Clean];
    }

    method Sweep()
      requires Synced()
      modifies this`executors, this`table, executors.Values
      ensures Synced() && table == Cleaned(old(table))
    {
      var todo := executors.Keys;
      ghost var before := table;
      forall p: Text
        ensures p in table <==> p in todo
      {
        assert ExecutorOk(p);
      }
      while todo != {}
        invariant Synced() && todo <= executors.Keys && executors.Values <= old(executors.Values)
        invariant forall p :: p in table <==> p in before && (p in todo || |before[p]| > 0)
        invariant forall p :: p in table ==> table[p] == before[p]
        decreases todo
      {
        var p :| p in todo;
        assert ExecutorOk(p);
        todo := todo - {p};
        if |executors[p].rules| == 0 {
          Retire(p);
        }
      }
    }

    method Retire(p: Text)
      requires Synced() && p in executors
      modifies this`executors, this`table, executors[p]
      ensures Synced() && executors == old(executors) - {p} && table == old(table) - {p}
    {
      assert ExecutorOk(p);
      executors[p].ShutDown();
      executors := executors - {p};
      table := table - {p};
      forall q: Text
        ensures ExecutorOk(q)
      {
        assert old(ExecutorOk(q));
      }
    }
  }
}
