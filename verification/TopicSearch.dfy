/** Publishing: which node searchNode may return, over every order in which Go may
    enumerate a node's children, and who receives the message. */
module TopicSearch {
  import opened Base
  import opened Topics
  import opened TopicModel

  ghost predicate HasChildren(paths: set<Path>, at: Path) { exists l: Text :: at + [l] in paths }

  predicate Descends(levels: Path, k: Text) { levels != [] && (k == levels[0] || k == PLUS) }

  ghost predicate Eligible(paths: set<Path>, at: Path, levels: Path, k: Text) {
    at + [k] in paths && (Descends(levels, k) || (k == HASH && HasChildren(paths, at + [k])))
  }

  /** The search may end in `r`: the first eligible child in the iteration order is followed and
      no other is tried; without one the search fails. */
  ghost predicate Outcome(paths: set<Path>, at: Path, levels: Path, r: Option<Path>)
    decreases |levels|, 1
  {
    || (r.None? && forall k :: !Eligible(paths, at, levels, k))
    || (exists k :: Eligible(paths, at, levels, k) && Takes(paths, at, levels, k, r))
  }

  ghost predicate Takes(paths: set<Path>, at: Path, levels: Path, k: Text, r: Option<Path>)
    decreases |levels|, 0
  {
    if Descends(levels, k) && |levels| > 1 then Outcome(paths, at + [k], levels[1..], r)
    else r == Some(at + [k])
  }

  lemma {:induction false} OutcomeExists(paths: set<Path>, at: Path, levels: Path)
    ensures exists r :: Outcome(paths, at, levels, r)
    decreases |levels|
  {
    if k :| Eligible(paths, at, levels, k) {
      if Descends(levels, k) && |levels| > 1 {
        OutcomeExists(paths, at + [k], levels[1..]);
        var r :| Outcome(paths, at + [k], levels[1..], r);
        assert Takes(paths, at, levels, k, r);
        assert Outcome(paths, at, levels, r);
      } else {
        assert Takes(paths, at, levels, k, Some(at + [k]));
        assert Outcome(paths, at, levels, Some(at + [k]));
      }
    } else {
      assert Outcome(paths, at, levels, None);
    }
  }

  lemma {:induction false} OutcomeBelow(paths: set<Path>, at: Path, levels: Path, r: Option<Path>)
    requires Outcome(paths, at, levels, r) && r.Some?
    ensures r.value in paths
    ensures |at| < |r.value| && at == r.value[..|at|]
    ensures Matches(r.value[|at|..], levels)
    decreases |levels|
  {
    var k :| Eligible(paths, at, levels, k) && Takes(paths, at, levels, k, r);
    var below := at + [k];
    if Descends(levels, k) && |levels| > 1 {
      OutcomeBelow(paths, below, levels[1..], r);
      var f := r.value[|at|..];
      assert r.value[|below|..] == f[1..];
      assert f[0] == k by { assert r.value[..|below|][|at|] == k; }
      assert r.value[..|at|] == r.value[..|below|][..|at|];
    } else {
      assert r.value[|at|..] == [k];
    }
  }

  /** Whatever the iteration order, a node that is returned has a path matching the published topic. */
  lemma SearchSound(paths: set<Path>, levels: Path, r: Option<Path>)
    requires Outcome(paths, [], levels, r) && r.Some?
    ensures r.value in paths && Matches(r.value, levels)
  {
    OutcomeBelow(paths, [], levels, r);
    assert r.value[0..] == r.value;
  }

  /** A walk down from `at` that the search can make and end: every step but the last takes the next level or
      "+", and the last one takes the last level or "+", or a "#" that has children. */
  ghost predicate Leads(paths: set<Path>, at: Path, levels: Path, f: Path) {
    && 0 < |f| <= |levels| && at + f in paths
    && (forall i :: 0 <= i < |f| - 1 ==> f[i] == levels[i] || f[i] == PLUS)
    && Stops(paths, at + f, levels[|f| - 1..], f[|f| - 1])
  }

  ghost predicate Stops(paths: set<Path>, p: Path, levels: Path, k: Text) {
    if Descends(levels, k) then |levels| == 1 else k == HASH && HasChildren(paths, p)
  }

  lemma LeadsStep(paths: set<Path>, at: Path, levels: Path, f: Path)
    requires |f| > 1 && |levels| > 1
    ensures Leads(paths, at, levels, f) <==> Descends(levels, f[0]) && Leads(paths, at + [f[0]], levels[1..], f[1..])
  {
    var rest, g := levels[1..], f[1..];
    assert at + f == at + [f[0]] + g;
    if |f| <= |levels| { assert levels[|f| - 1..] == rest[|g| - 1..]; }
    if Descends(levels, f[0]) && Leads(paths, at + [f[0]], rest, g) {
      forall i | 0 <= i < |f| - 1
        ensures f[i] == levels[i] || f[i] == PLUS
      {
        if i > 0 { assert g[i - 1] == rest[i - 1] || g[i - 1] == PLUS; }
      }
    }
  }

  /** Some iteration order ends at a node if and only if a walk leads there. */
  lemma {:induction false} OutcomeIffLeads(paths: set<Path>, at: Path, levels: Path, f: Path)
    requires Closed(paths) && levels != []
    ensures Outcome(paths, at, levels, Some(at + f)) <==> Leads(paths, at, levels, f)
    decreases |levels|
  {
    if Outcome(paths, at, levels, Some(at + f)) { OutcomeLeads(paths, at, levels, f); }
    if Leads(paths, at, levels, f) { LeadsOutcome(paths, at, levels, f); }
  }

  lemma {:induction false} OutcomeLeads(paths: set<Path>, at: Path, levels: Path, f: Path)
    requires levels != [] && Outcome(paths, at, levels, Some(at + f))
    ensures Leads(paths, at, levels, f)
    decreases |levels|
  {
    var k :| Eligible(paths, at, levels, k) && Takes(paths, at, levels, k, Some(at + f));
    if Descends(levels, k) && |levels| > 1 {
      OutcomeBelow(paths, at + [k], levels[1..], Some(at + f));
      assert (at + f)[|at|] == k && |f| > 1;
      assert at + f == at + [k] + f[1..];
      OutcomeLeads(paths, at + [k], levels[1..], f[1..]);
      LeadsStep(paths, at, levels, f);
    } else {
      assert f == (at + f)[|at|..] == (at + [k])[|at|..] == [k];
    }
  }

  lemma {:induction false} LeadsOutcome(paths: set<Path>, at: Path, levels: Path, f: Path)
    requires Closed(paths) && Leads(paths, at, levels, f)
    ensures Outcome(paths, at, levels, Some(at + f))
    decreases |levels|
  {
    var k := f[0];
    PrefixIn(paths, at + f, |at| + 1);
    assert (at + f)[..|at| + 1] == at + [k];
    if |f| > 1 {
      LeadsStep(paths, at, levels, f);
      LeadsOutcome(paths, at + [k], levels[1..], f[1..]);
      assert at + f == at + [k] + f[1..];
    } else {
      assert f == [k];
    }
    assert Eligible(paths, at, levels, k) && Takes(paths, at, levels, k, Some(at + f));
  }

  /** No step of the exact walk has a rival: neither a "+" sibling nor a "#" sibling with children. */
  ghost predicate Unrivalled(paths: set<Path>, at: Path, levels: Path) {
    forall i :: 0 <= i < |levels| ==> NoRival(paths, at + levels[..i], levels[i])
  }

  ghost predicate NoRival(paths: set<Path>, at: Path, level: Text) {
    && (level == PLUS || at + [PLUS] !in paths)
    && (level == HASH || at + [HASH] !in paths || !HasChildren(paths, at + [HASH]))
  }

  lemma UnrivalledStep(paths: set<Path>, at: Path, levels: Path)
    requires levels != []
    ensures Unrivalled(paths, at, levels) <==>
              NoRival(paths, at, levels[0]) && Unrivalled(paths, at + [levels[0]], levels[1..])
  {
    var below, rest := at + [levels[0]], levels[1..];
    assert at + levels[..0] == at;
    forall i | 0 <= i < |rest|
      ensures below + rest[..i] == at + levels[..i + 1]
    {
      assert levels[..i + 1] == [levels[0]] + rest[..i];
    }
    if NoRival(paths, at, levels[0]) && Unrivalled(paths, below, rest) {
      forall i | 0 <= i < |levels|
        ensures NoRival(paths, at + levels[..i], levels[i])
      {
        if i > 0 {
          assert NoRival(paths, below + rest[..i - 1], rest[i - 1]);
        }
      }
    }
    if Unrivalled(paths, at, levels) {
      forall i | 0 <= i < |rest|
        ensures NoRival(paths, below + rest[..i], rest[i])
      {
        assert NoRival(paths, at + levels[..i + 1], levels[i + 1]);
      }
    }
  }

  function ExactHit(paths: set<Path>, p: Path): Option<Path> { if p in paths then Some(p) else None }

  /** Without rivals every iteration order gives the exact level-by-level walk, hit or miss. */
  lemma {:induction false} UnrivalledIsExact(paths: set<Path>, at: Path, levels: Path, r: Option<Path>)
    requires Closed(paths) && levels != [] && Unrivalled(paths, at, levels)
    requires Outcome(paths, at, levels, r)
    ensures r == ExactHit(paths, at + levels)
    decreases |levels|
  {
    UnrivalledStep(paths, at, levels);
    var below, rest := at + [levels[0]], levels[1..];
    assert at + levels == below + rest;
    assert at + levels in paths ==> Eligible(paths, at, levels, levels[0]) by {
      if at + levels in paths {
        PrefixIn(paths, at + levels, |below|);
        assert (at + levels)[..|below|] == below;
      }
    }
    if k :| Eligible(paths, at, levels, k) && Takes(paths, at, levels, k, r) {
      assert k == levels[0];
      if |levels| > 1 {
        UnrivalledIsExact(paths, below, rest, r);
      } else {
        assert at + levels == below;
      }
    }
  }

  lemma {:induction false} RivalMisleads(paths: set<Path>, at: Path, levels: Path)
    requires Closed(paths) && at + levels in paths && !Unrivalled(paths, at, levels)
    ensures exists r :: Outcome(paths, at, levels, r) && r != Some(at + levels)
    decreases |levels|
  {
    UnrivalledStep(paths, at, levels);
    var below, rest := at + [levels[0]], levels[1..];
    if !NoRival(paths, at, levels[0]) {
      var k := if levels[0] != PLUS && at + [PLUS] in paths then PLUS else HASH;
      assert Eligible(paths, at, levels, k);
      if Descends(levels, k) && |levels| > 1 {
        OutcomeExists(paths, at + [k], rest);
        var r :| Outcome(paths, at + [k], rest, r);
        if r.Some? { OutcomeBelow(paths, at + [k], rest, r); }
        assert Takes(paths, at, levels, k, r);
        assert Outcome(paths, at, levels, r);
        assert (at + levels)[..|at| + 1][|at|] != (at + [k])[|at|];
      } else {
        assert Takes(paths, at, levels, k, Some(at + [k]));
        assert Outcome(paths, at, levels, Some(at + [k]));
        assert (at + [k])[|at|] != (at + levels)[|at|];
      }
    } else {
      assert at + levels == below + rest;
      RivalMisleads(paths, below, rest);
      var r :| Outcome(paths, below, rest, r) && r != Some(below + rest);
      PrefixIn(paths, at + levels, |below|);
      assert (at + levels)[..|below|] == below;
      assert Eligible(paths, at, levels, levels[0]);
      assert Takes(paths, at, levels, levels[0], r);
      assert Outcome(paths, at, levels, r);
    }
  }

  /** A topic with a node of its own is found under every iteration order if and only if no
      rival "+" child or non-empty "#" child stands beside its path. */
  lemma ExactIffUnrivalled(paths: set<Path>, levels: Path)
    requires Closed(paths) && levels != [] && levels in paths
    ensures (forall r :: Outcome(paths, [], levels, r) ==> r == Some(levels)) <==> Unrivalled(paths, [], levels)
  {
    assert [] + levels == levels;
    if Unrivalled(paths, [], levels) {
      forall r | Outcome(paths, [], levels, r)
        ensures r == Some(levels)
      {
        UnrivalledIsExact(paths, [], levels, r);
      }
    } else {
      RivalMisleads(paths, [], levels);
    }
  }

  /** With "a" and "+" both in the tree, a publish on "a" may end at "+" and miss "a". */
  lemma RivalExample(a: Text)
    requires !IsWildcard(a)
    ensures var paths := {[], [a], [PLUS]};
            Closed(paths) && Outcome(paths, [], [a], Some([a])) && Outcome(paths, [], [a], Some([PLUS]))
  {
    var paths := {[], [a], [PLUS]};
    forall p: Path, l: Text | p + [l] in paths
      ensures p in paths
    {
      assert |p + [l]| == 1;
      assert p == [];
    }
    assert [] + [a] == [a] && [] + [PLUS] == [PLUS];
    assert Eligible(paths, [], [a], a) && Takes(paths, [], [a], a, Some([a]));
    assert Eligible(paths, [], [a], PLUS) && Takes(paths, [], [a], PLUS, Some([PLUS]));
  }

  // ---------------------------------------------------------------- delivery

  /** The subscriptions addMessage serves when the search ends in `r`. */
  function Served(t: Tree, r: Option<Path>): map<Text, Subscription> {
    if r.Some? && r.value in t.subs then t.subs[r.value] else map[]
  }

  predicate FiltersWildcardFree(history: seq<Op>) {
    forall i :: 0 <= i < |history| && history[i].Subscribe? ==> WildcardFree(Split(history[i].sub.topic))
  }

  lemma {:induction false} RunWildcardFree(history: seq<Op>, p: Path)
    requires FiltersWildcardFree(history) && p in Run(history).subs
    ensures WildcardFree(p)
  {
    if history != [] {
      var n := |history| - 1;
      if p in Run(history[..n]).subs {
        RunWildcardFree(history[..n], p);
      } else {
        assert history[n].Subscribe?;
      }
    }
  }

  lemma UnrivalledWhenWildcardFree(history: seq<Op>, levels: Path)
    requires FiltersWildcardFree(history)
    ensures Unrivalled(Run(history).subs.Keys, [], levels)
  {
    var paths := Run(history).subs.Keys;
    forall i, k | 0 <= i < |levels| && IsWildcard(k)
      ensures levels[..i] + [k] !in paths
    {
      var q := levels[..i] + [k];
      if q in paths {
        assert q[i] == k;
        RunWildcardFree(history, q);
      }
    }
    forall i | 0 <= i < |levels|
      ensures NoRival(paths, [] + levels[..i], levels[i])
    {
      assert [] + levels[..i] == levels[..i];
    }
  }

  /** Publishing after any history in which the topic has no rival reaches exactly the clients whose
      last operation on exactly that topic was a subscribe, each through that subscription. */
  lemma DeliveryExact(history: seq<Op>, topic: Text, r: Option<Path>, client: Text)
    requires Unrivalled(Run(history).subs.Keys, [], Split(topic))
    requires Outcome(Run(history).subs.Keys, [], Split(topic), r)
    ensures client in Served(Run(history), r) <==> LastOn(history, client, topic).Some?
    ensures client in Served(Run(history), r) ==>
              Served(Run(history), r)[client] == LastOn(history, client, topic).value
  {
    RunSound(history);
    UnrivalledIsExact(Run(history).subs.Keys, [], Split(topic), r);
    assert [] + Split(topic) == Split(topic);
    HistoryRefines(history, client, topic);
  }

  /** Whatever the iteration order, exactly the clients subscribed on the topic are served, each through its own
      subscription. */
  ghost predicate ServesSubscribers(history: seq<Op>, topic: Text) {
    forall r, c {:trigger ServedRightly(history, topic, r, c)} ::
      Outcome(Run(history).subs.Keys, [], Split(topic), r) ==> ServedRightly(history, topic, r, c)
  }

  predicate ServedRightly(history: seq<Op>, topic: Text, r: Option<Path>, client: Text) {
    var served := Served(Run(history), r);
    (if client in served then Some(served[client]) else None) == LastOn(history, client, topic)
  }

  /** When that is so, for every topic after every history: on a topic that somebody is subscribed on, if and
      only if the topic has no rival; on any other, if and only if no walk leads to a subscription. */
  lemma ServesIff(history: seq<Op>, topic: Text)
    ensures ServesSubscribers(history, topic) <==>
              if exists c :: LastOn(history, c, topic).Some? then Unrivalled(Run(history).subs.Keys, [], Split(topic))
              else NoWalkServes(Run(history), Split(topic))
  {
    if c :| LastOn(history, c, topic).Some? {
      ServesIffUnrivalled(history, topic, c);
    } else {
      ServesNobodyIff(history, topic);
    }
  }

  ghost predicate NoWalkServes(t: Tree, levels: Path) {
    forall f: Path :: Leads(t.subs.Keys, [], levels, f) ==> Served(t, Some(f)) == map[]
  }

  lemma ServesNobodyIff(history: seq<Op>, topic: Text)
    requires forall c :: LastOn(history, c, topic).None?
    ensures ServesSubscribers(history, topic) <==> NoWalkServes(Run(history), Split(topic))
  {
    var t, levels := Run(history), Split(topic);
    RunSound(history);
    if ServesSubscribers(history, topic) {
      forall f: Path | Leads(t.subs.Keys, [], levels, f)
        ensures Served(t, Some(f)) == map[]
      {
        assert [] + f == f;
        OutcomeIffLeads(t.subs.Keys, [], levels, f);
        forall c
          ensures c !in Served(t, Some(f))
        {
          assert ServedRightly(history, topic, Some(f), c);
        }
      }
    } else {
      var r, c :| Outcome(t.subs.Keys, [], levels, r) && !ServedRightly(history, topic, r, c);
      assert LastOn(history, c, topic).None? && c in Served(t, r);
      assert [] + r.value == r.value;
      OutcomeIffLeads(t.subs.Keys, [], levels, r.value);
    }
  }

  lemma ServesIffUnrivalled(history: seq<Op>, topic: Text, client: Text)
    requires LastOn(history, client, topic).Some?
    ensures ServesSubscribers(history, topic) <==> Unrivalled(Run(history).subs.Keys, [], Split(topic))
  {
    var paths := Run(history).subs.Keys;
    if Unrivalled(paths, [], Split(topic)) {
      forall r, c | Outcome(paths, [], Split(topic), r)
        ensures ServedRightly(history, topic, r, c)
      {
        DeliveryExact(history, topic, r, c);
      }
    } else {
      RunSound(history);
      HistoryRefines(history, client, topic);
      assert [] + Split(topic) == Split(topic);
      RivalMisleads(paths, [], Split(topic));
      var r :| Outcome(paths, [], Split(topic), r) && r != Some(Split(topic));
      ElsewhereWrong(history, topic, r, client);
      assert !ServedRightly(history, topic, r, client);
    }
  }

  /** A search that ends elsewhere does not serve a client its subscription on the topic. */
  lemma ElsewhereWrong(history: seq<Op>, topic: Text, r: Option<Path>, client: Text)
    requires LastOn(history, client, topic).Some? && r != Some(Split(topic))
    ensures !ServedRightly(history, topic, r, client)
  {
    RunSound(history);
    HistoryRefines(history, client, topic);
    var t := Run(history);
    if client in Served(t, r) {
      assert Holds(t, r.value, client) && Placed(t, r.value, client);
      assert Placed(t, Split(topic), client);
    }
  }

  lemma DeliveryWildcardFree(history: seq<Op>, topic: Text, r: Option<Path>, client: Text)
    requires FiltersWildcardFree(history)
    requires Outcome(Run(history).subs.Keys, [], Split(topic), r)
    ensures client in Served(Run(history), r) <==> LastOn(history, client, topic).Some?
    ensures client in Served(Run(history), r) ==>
              Served(Run(history), r)[client] == LastOn(history, client, topic).value
  {
    UnrivalledWhenWildcardFree(history, Split(topic));
    DeliveryExact(history, topic, r, client);
  }
}
