/** The topic tree as a value: a map from paths to the subscriptions stored there, and the
    per-client topic index. The heap trie in TopicTree refines it; the laws about whole
    histories are proved here. */
module TopicModel {
  import opened Base
  import opened Topics
  import opened Queues

  datatype Subscription = Subscription(clientId: Text, topic: Text, qos: nat, queue: MessageQueue, retain: bool)

  datatype Tree = Tree(subs: map<Path, map<Text, Subscription>>, index: map<Text, seq<Text>>)

  const EMPTY: Tree := Tree(map[[] := map[]], map[])

  predicate Holds(t: Tree, p: Path, c: Text) { p in t.subs && c in t.subs[p] }

  predicate IsLive(t: Tree, client: Text, topic: Text) { Holds(t, Split(topic), client) }

  function IndexOf(t: Tree, client: Text): seq<Text> {
    if client in t.index then t.index[client] else []
  }

  // ---------------------------------------------------------------- operations

  function Prefixes(p: Path): set<Path> { set k | 0 <= k <= |p| :: p[..k] }

  /** The nodes addNode makes on the way down to `p`. */
  function Grown(subs: map<Path, map<Text, Subscription>>, p: Path): map<Path, map<Text, Subscription>> {
    map q | q in subs.Keys + Prefixes(p) :: if q in subs then subs[q] else map[]
  }

  function Added(t: Tree, sub: Subscription): Tree {
    var p := Split(sub.topic);
    var grown := Grown(t.subs, p);
    assert p[..|p|] == p;
    Tree(grown[p := grown[p][sub.clientId := sub]],
         t.index[sub.clientId := IndexOf(t, sub.clientId) + [sub.topic]])
  }

  function FirstAt(list: seq<Text>, topic: Text): (i: nat)
    ensures i <= |list|
    ensures forall k :: 0 <= k < i ==> list[k] != topic
    ensures i < |list| ==> list[i] == topic
  {
    if list == [] || list[0] == topic then 0 else 1 + FirstAt(list[1..], topic)
  }

  /** The in-place shift: the slice keeps its length, so the last entry stays behind twice. */
  function ShiftedOut(list: seq<Text>, topic: Text): (r: seq<Text>)
    ensures |r| == |list|
    ensures FirstAt(list, topic) < |list| ==>
              forall j :: 0 <= j < |r| ==> r[j] == list[if j < FirstAt(list, topic) then j else Min(j + 1, |list| - 1)]
  {
    var f := FirstAt(list, topic);
    if f == |list| then list
    else seq(|list|, j requires 0 <= j < |list| => if j < f then list[j] else list[Min(j + 1, |list| - 1)])
  }

  lemma FirstAtIs(list: seq<Text>, topic: Text, i: nat)
    requires i < |list| && list[i] == topic && forall k :: 0 <= k < i ==> list[k] != topic
    ensures FirstAt(list, topic) == i
  {
  }

  lemma ShiftAt(list: seq<Text>, topic: Text, i: nat)
    requires i < |list| && list[i] == topic && forall k :: 0 <= k < i ==> list[k] != topic
    ensures ShiftedOut(list, topic) == list[..i] + list[i + 1..] + [list[|list| - 1]]
  {
    FirstAtIs(list, topic, i);
    var r, shifted := ShiftedOut(list, topic), list[..i] + list[i + 1..] + [list[|list| - 1]];
    assert |r| == |shifted|;
    forall j | 0 <= j < |r|
      ensures r[j] == shifted[j]
    {
      if j < i {
      } else if j < |list| - 1 {
        assert shifted[j] == list[i + 1..][j - i];
      }
    }
  }

  lemma NotThere(list: seq<Text>, topic: Text)
    requires forall k :: 0 <= k < |list| ==> list[k] != topic
    ensures ShiftedOut(list, topic) == list
  {
    assert FirstAt(list, topic) == |list|;
  }

  function Removed(t: Tree, client: Text, topic: Text): Tree {
    if !IsLive(t, client, topic) then t
    else
      var p := Split(topic);
      Tree(t.subs[p := t.subs[p] - {client}],
           if client in t.index then t.index[client := ShiftedOut(t.index[client], topic)] else t.index)
  }

  datatype Op = Subscribe(sub: Subscription) | Unsubscribe(client: Text, topic: Text)

  function Apply(t: Tree, op: Op): Tree {
    match op
    case Subscribe(sub) => Added(t, sub)
    case Unsubscribe(client, topic) => Removed(t, client, topic)
  }

  function Run(history: seq<Op>): Tree {
    if history == [] then EMPTY else Apply(Run(history[..|history| - 1]), history[|history| - 1])
  }

  lemma RunSnoc(history: seq<Op>, op: Op)
    ensures Run(history + [op]) == Apply(Run(history), op)
  {
    assert (history + [op])[..|history|] == history;
  }

  lemma GrownNil(subs: map<Path, map<Text, Subscription>>)
    requires [] in subs
    ensures Grown(subs, []) == subs
  {
    var none: Path := [];
    assert none[..0] == none;
  }

  lemma {:induction false} GrownSnoc(subs: map<Path, map<Text, Subscription>>, p: Path, i: nat)
    requires i < |p|
    ensures var grown := Grown(subs, p[..i]);
            Grown(subs, p[..i + 1]) == if p[..i + 1] in grown then grown else grown[p[..i + 1] := map[]]
  {
    assert forall k :: 0 <= k <= i ==> p[..i][..k] == p[..k];
    assert forall k :: 0 <= k <= i + 1 ==> p[..i + 1][..k] == p[..k];
    forall q: Path
      ensures q in Prefixes(p[..i + 1]) <==> q in Prefixes(p[..i]) || q == p[..i + 1]
    {
      if q in Prefixes(p[..i + 1]) {
        var k :| 0 <= k <= i + 1 && q == p[..i + 1][..k];
        assert k <= i ==> q == p[..i][..k];
      }
      if q in Prefixes(p[..i]) {
        var k :| 0 <= k <= i && q == p[..i][..k];
        assert q == p[..i + 1][..k];
      }
      assert p[..i + 1] == p[..i + 1][..i + 1];
    }
  }

  /** The queue a subscription holds is its own client's (session_manager.go:184-199). */
  predicate QueuesOwned(history: seq<Op>) {
    forall i :: 0 <= i < |history| && history[i].Subscribe? ==> history[i].sub.queue.clientId == history[i].sub.clientId
  }

  lemma {:induction false} RunQueuesOwned(history: seq<Op>, p: Path, c: Text)
    requires QueuesOwned(history) && Holds(Run(history), p, c)
    ensures Run(history).subs[p][c].queue.clientId == c
  {
    if history != [] {
      var n := |history| - 1;
      if Holds(Run(history[..n]), p, c) {
        RunQueuesOwned(history[..n], p, c);
      }
    }
  }

  // ---------------------------------------------------------------- what a history means

  /** The subscription a client holds on exactly this topic: that of its last operation on it. */
  function LastOn(history: seq<Op>, client: Text, topic: Text): Option<Subscription> {
    if history == [] then None
    else
      match history[|history| - 1]
      case Subscribe(sub) =>
        if sub.clientId == client && sub.topic == topic then Some(sub)
        else LastOn(history[..|history| - 1], client, topic)
      case Unsubscribe(c, t) =>
        if c == client && t == topic then None
        else LastOn(history[..|history| - 1], client, topic)
  }

  /** The tree refines the flat table from (client, topic) to the last operation. */
  lemma {:induction false} HistoryRefines(history: seq<Op>, client: Text, topic: Text)
    ensures IsLive(Run(history), client, topic) <==> LastOn(history, client, topic).Some?
    ensures IsLive(Run(history), client, topic) ==>
              Run(history).subs[Split(topic)][client] == LastOn(history, client, topic).value
  {
    if history != [] {
      var before := history[..|history| - 1];
      HistoryRefines(before, client, topic);
      match history[|history| - 1]
      case Subscribe(sub) =>
        if Split(sub.topic) == Split(topic) { SplitInjective(sub.topic, topic); }
      case Unsubscribe(c, t) =>
        if Split(t) == Split(topic) { SplitInjective(t, topic); }
    }
  }

  // ---------------------------------------------------------------- well-formed trees

  ghost predicate Closed(paths: set<Path>) {
    && [] in paths
    && forall p: Path, l: Text {:trigger p + [l]} :: p + [l] in paths ==> p in paths
  }

  lemma {:induction false} PrefixIn(paths: set<Path>, p: Path, k: nat)
    requires Closed(paths) && p in paths && k <= |p|
    ensures p[..k] in paths
    decreases |p|
  {
    if k < |p| {
      assert p == p[..|p| - 1] + [p[|p| - 1]];
      PrefixIn(paths, p[..|p| - 1], k);
      assert p[..|p| - 1][..k] == p[..k];
    } else {
      assert p[..k] == p;
    }
  }

  lemma GrownClosed(subs: map<Path, map<Text, Subscription>>, p: Path)
    requires Closed(subs.Keys)
    ensures Closed(Grown(subs, p).Keys)
  {
    forall q: Path, l: Text | q + [l] in Grown(subs, p)
      ensures q in Grown(subs, p)
    {
      if q + [l] !in subs {
        var k: nat :| k <= |p| && q + [l] == p[..k];
        assert q == p[..k - 1] by { assert q == (q + [l])[..|q|]; }
      }
    }
  }

  /** What every reachable tree satisfies: paths are prefix closed, every subscription sits at
      its own topic under its own client, and every live topic is in the client's index. */
  ghost predicate Sound(t: Tree) {
    && Closed(t.subs.Keys)
    && t.subs[[]] == map[]
    && (forall p, c :: Holds(t, p, c) ==> Placed(t, p, c))
  }

  predicate Placed(t: Tree, p: Path, c: Text)
    requires Holds(t, p, c)
  {
    var sub := t.subs[p][c];
    sub.clientId == c && Split(sub.topic) == p && sub.topic in IndexOf(t, c)
  }

  lemma AddedSound(t: Tree, sub: Subscription)
    requires Sound(t)
    ensures Sound(Added(t, sub))
  {
    var p := Split(sub.topic);
    GrownClosed(t.subs, p);
    assert p[..|p|] == p;
    var r := Added(t, sub);
    assert r.subs.Keys == Grown(t.subs, p).Keys;
    forall q, c | Holds(r, q, c)
      ensures Placed(r, q, c)
    {
      if q != p || c != sub.clientId {
        assert Holds(t, q, c);
      }
    }
  }

  /** Shifting one entry out loses no other entry. */
  lemma ShiftedOutKeeps(list: seq<Text>, topic: Text, other: Text)
    requires other in list && other != topic
    ensures other in ShiftedOut(list, topic)
  {
    var i := FirstAt(list, topic);
    var k :| 0 <= k < |list| && list[k] == other;
    if i < |list| {
      var r := ShiftedOut(list, topic);
      assert if k < i then r[k] == other else r[k - 1] == other;
    }
  }

  lemma RemovedSound(t: Tree, client: Text, topic: Text)
    requires Sound(t)
    ensures Sound(Removed(t, client, topic))
  {
    if IsLive(t, client, topic) {
      var r := Removed(t, client, topic);
      assert r.subs.Keys == t.subs.Keys;
      forall p, c | Holds(r, p, c)
        ensures Placed(r, p, c)
      {
        assert Holds(t, p, c);
        if c == client {
          ShiftedOutKeeps(t.index[client], topic, r.subs[p][c].topic);
        }
      }
    }
  }

  lemma {:induction false} RunSound(history: seq<Op>)
    ensures Sound(Run(history))
  {
    if history != [] {
      var before := history[..|history| - 1];
      RunSound(before);
      match history[|history| - 1]
      case Subscribe(sub) => AddedSound(Run(before), sub);
      case Unsubscribe(c, t) => RemovedSound(Run(before), c, t);
    }
  }

  /** Every live subscription appears in the client's index, whatever happened before. */
  lemma LiveIsIndexed(history: seq<Op>, client: Text, topic: Text)
    requires IsLive(Run(history), client, topic)
    ensures topic in IndexOf(Run(history), client)
  {
    RunSound(history);
    var t := Run(history);
    SplitInjective(t.subs[Split(topic)][client].topic, topic);
  }
}
