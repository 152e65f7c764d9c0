/** Destroying a transient session. The handler walks the client's topic index while every
    removal shifts that same array (broker/sessionmgr/session_manager.go:169-172). */
module SessionDestroy {
  import opened Base
  import opened Topics
  import opened TopicModel

  lemma RemovedIndexLength(t: Tree, client: Text, topic: Text)
    ensures |IndexOf(Removed(t, client, topic), client)| == |IndexOf(t, client)|
  {
  }

  /** The handler's loop from position `i`, reading the live index. */
  function DestroyFrom(t: Tree, client: Text, i: nat): Tree
    requires i <= |IndexOf(t, client)|
    decreases |IndexOf(t, client)| - i
  {
    if i == |IndexOf(t, client)| then t
    else
      RemovedIndexLength(t, client, IndexOf(t, client)[i]);
      DestroyFrom(Removed(t, client, IndexOf(t, client)[i]), client, i + 1)
  }

  /** The loop takes subscriptions of this client away and touches nothing else: what is left is
      unchanged, and other clients keep everything. */
  lemma {:induction false} DestroyKeepsRest(t: Tree, client: Text, i: nat, p: Path, c: Text)
    requires i <= |IndexOf(t, client)|
    ensures var r := DestroyFrom(t, client, i);
            && (Holds(r, p, c) ==> Holds(t, p, c) && r.subs[p][c] == t.subs[p][c])
            && (c != client ==> (Holds(r, p, c) <==> Holds(t, p, c)))
    decreases |IndexOf(t, client)| - i
  {
    if i < |IndexOf(t, client)| {
      var topic := IndexOf(t, client)[i];
      RemovedIndexLength(t, client, topic);
      RemovedKeepsRest(t, client, topic, p, c);
      DestroyKeepsRest(Removed(t, client, topic), client, i + 1, p, c);
    }
  }

  lemma RemovedKeepsRest(t: Tree, client: Text, topic: Text, p: Path, c: Text)
    ensures var r := Removed(t, client, topic);
            && (Holds(r, p, c) ==> Holds(t, p, c) && r.subs[p][c] == t.subs[p][c])
            && (c != client ==> (Holds(r, p, c) <==> Holds(t, p, c)))
  {
  }

  /** The same in terms of the histories before and after the loop. */
  lemma DestroyedHistory(before: seq<Op>, after: seq<Op>, client: Text, c: Text, topic: Text)
    requires Run(after) == DestroyFrom(Run(before), client, 0)
    ensures LastOn(after, c, topic).Some? ==> LastOn(after, c, topic) == LastOn(before, c, topic)
    ensures c != client ==> LastOn(after, c, topic) == LastOn(before, c, topic)
    ensures LastOn(after, client, topic).Some? <==> Survives(Run(before), client, topic)
  {
    HistoryRefines(before, c, topic);
    HistoryRefines(after, c, topic);
    DestroyKeepsRest(Run(before), client, 0, Split(topic), c);
    HistoryRefines(after, client, topic);
    DestroyLeavesExactly(before, client, topic);
  }

  /** The same loop over a copy of the index taken before it starts. */
  function DestroyEach(t: Tree, client: Text, topics: seq<Text>): Tree
    decreases |topics|
  {
    if topics == [] then t else DestroyEach(Removed(t, client, topics[0]), client, topics[1..])
  }

  function LiveTopics(t: Tree, client: Text): set<Text> {
    set topic | topic in IndexOf(t, client) && IsLive(t, client, topic)
  }

  lemma LiveIsLive(t: Tree, client: Text, topic: Text)
    requires Sound(t)
    ensures IsLive(t, client, topic) <==> topic in LiveTopics(t, client)
  {
    if IsLive(t, client, topic) {
      assert Placed(t, Split(topic), client);
      SplitInjective(t.subs[Split(topic)][client].topic, topic);
    }
  }

  lemma RemovedLive(t: Tree, client: Text, topic: Text, other: Text)
    ensures IsLive(Removed(t, client, topic), client, other) <==> IsLive(t, client, other) && other != topic
  {
    if Split(other) == Split(topic) { SplitInjective(other, topic); }
  }

  lemma RemovedLiveTopics(t: Tree, client: Text, topic: Text)
    requires Sound(t)
    ensures LiveTopics(Removed(t, client, topic), client) == LiveTopics(t, client) - {topic}
  {
    RemovedSound(t, client, topic);
    forall other: Text
      ensures other in LiveTopics(Removed(t, client, topic), client) <==> other in LiveTopics(t, client) - {topic}
    {
      RemovedLive(t, client, topic, other);
      LiveIsLive(t, client, other);
      LiveIsLive(Removed(t, client, topic), client, other);
    }
  }

  lemma {:induction false} SnapshotLeaves(t: Tree, client: Text, topics: seq<Text>)
    requires Sound(t)
    ensures Sound(DestroyEach(t, client, topics))
    ensures LiveTopics(DestroyEach(t, client, topics), client)
            == set topic | topic in LiveTopics(t, client) && topic !in topics
    decreases |topics|
  {
    if topics != [] {
      RemovedSound(t, client, topics[0]);
      RemovedLiveTopics(t, client, topics[0]);
      SnapshotLeaves(Removed(t, client, topics[0]), client, topics[1..]);
      assert topics == [topics[0]] + topics[1..];
    }
  }

  /** Over a snapshot of the index, nothing of the client survives, in every reachable tree. */
  lemma SnapshotClears(history: seq<Op>, client: Text, topic: Text)
    ensures var t := Run(history);
            !IsLive(DestroyEach(t, client, IndexOf(t, client)), client, topic)
  {
    var t := Run(history);
    RunSound(history);
    SnapshotLeaves(t, client, IndexOf(t, client));
    LiveIsLive(DestroyEach(t, client, IndexOf(t, client)), client, topic);
  }

  // ---------------------------------------------------------------- the loop over the shared array

  /** The loop reduced to the array and the set of live topics. */
  function Survivors(list: seq<Text>, live: set<Text>, i: nat): set<Text>
    requires i <= |list|
    decreases |list| - i
  {
    if i == |list| then live
    else if list[i] in live then Survivors(ShiftedOut(list, list[i]), live - {list[i]}, i + 1)
    else Survivors(list, live, i + 1)
  }

  lemma {:induction false} DestroySurvivors(t: Tree, client: Text, i: nat)
    requires Sound(t) && i <= |IndexOf(t, client)|
    ensures Sound(DestroyFrom(t, client, i))
    ensures LiveTopics(DestroyFrom(t, client, i), client)
            == Survivors(IndexOf(t, client), LiveTopics(t, client), i)
    decreases |IndexOf(t, client)| - i
  {
    var list := IndexOf(t, client);
    if i < |list| {
      var r := Removed(t, client, list[i]);
      RemovedSound(t, client, list[i]);
      RemovedLiveTopics(t, client, list[i]);
      LiveIsLive(t, client, list[i]);
      RemovedIndexLength(t, client, list[i]);
      DestroySurvivors(r, client, i + 1);
      if list[i] !in LiveTopics(t, client) {
        assert r == t;
      }
    }
  }

  /** The topics the loop gets to, read off the array as it was before: a live entry is removed
      and hides its successor, a dead entry is passed over. */
  function Reached(list: seq<Text>, live: set<Text>, p: nat): set<Text>
    decreases |list| - p
  {
    if p >= |list| then {}
    else if list[p] in live then {list[p]} + Reached(list, live - {list[p]}, p + 2)
    else Reached(list, live, p + 1)
  }

  /** After `k` removals the array from position `i` on is the original one, `k` places further. */
  ghost predicate ShiftedBy(original: seq<Text>, list: seq<Text>, i: nat, k: nat) {
    && |list| == |original|
    && forall j :: i <= j < |list| ==> list[j] == original[Min(j + k, |list| - 1)]
  }

  lemma ShiftedOutAt(list: seq<Text>, topic: Text, i: nat, j: nat)
    requires i < j < |list| && list[i] == topic
    ensures ShiftedOut(list, topic)[j] == list[Min(j + 1, |list| - 1)]
  {
    assert FirstAt(list, topic) <= i;
  }

  lemma ShiftedByNext(original: seq<Text>, list: seq<Text>, r: seq<Text>, i: nat, k: nat)
    requires i < |list| == |r| && ShiftedBy(original, list, i, k)
    requires forall j :: i < j < |r| ==> r[j] == list[Min(j + 1, |list| - 1)]
    ensures ShiftedBy(original, r, i + 1, k + 1)
  {
  }

  lemma ShiftStep(original: seq<Text>, list: seq<Text>, i: nat, k: nat)
    requires i < |list| && ShiftedBy(original, list, i, k)
    ensures ShiftedBy(original, ShiftedOut(list, list[i]), i + 1, k + 1)
  {
    var r := ShiftedOut(list, list[i]);
    forall j | i < j < |r|
      ensures r[j] == list[Min(j + 1, |list| - 1)]
    {
      ShiftedOutAt(list, list[i], i, j);
    }
    ShiftedByNext(original, list, r, i, k);
  }

  lemma {:induction false} SurvivorsFrom(original: seq<Text>, list: seq<Text>, live: set<Text>, i: nat, k: nat)
    requires i < |list| && ShiftedBy(original, list, i, k)
    ensures Survivors(list, live, i)
            == live - Reached(original, live, i + k) - {original[|original| - 1]}
    decreases |list| - i
  {
    var n := |list|;
    var last := original[n - 1];
    var topic := list[i];
    if topic in live {
      ShiftStep(original, list, i, k);
      if i + 1 < n {
        SurvivorsFrom(original, ShiftedOut(list, topic), live - {topic}, i + 1, k + 1);
      }
    } else if i + 1 < n {
      SurvivorsFrom(original, list, live, i + 1, k);
    }
  }

  /** A live topic that the shifting walk skips and that is not the last entry of the index. */
  predicate Survives(t: Tree, client: Text, topic: Text) {
    var list, live := IndexOf(t, client), LiveTopics(t, client);
    topic in live && topic !in Reached(list, live, 0) && topic != list[|list| - 1]
  }

  /** What the handler leaves behind, exactly: the live topics it never gets to. The last entry
      is always reached, because the shift keeps copying it. */
  lemma DestroyLeavesExactly(history: seq<Op>, client: Text, topic: Text)
    ensures IsLive(DestroyFrom(Run(history), client, 0), client, topic) <==> Survives(Run(history), client, topic)
  {
    var t := Run(history);
    var list := IndexOf(t, client);
    RunSound(history);
    DestroySurvivors(t, client, 0);
    LiveIsLive(DestroyFrom(t, client, 0), client, topic);
    if list != [] {
      SurvivorsFrom(list, list, LiveTopics(t, client), 0, 0);
    }
  }

  lemma {:induction false} ReachedDistinct(list: seq<Text>, live: set<Text>, p: nat)
    requires forall i, j :: 0 <= i < j < |list| ==> list[i] != list[j]
    requires forall i :: p <= i < |list| ==> list[i] in live
    ensures forall i :: p <= i < |list| ==> (list[i] in Reached(list, live, p) <==> (i - p) % 2 == 0)
    decreases |list| - p
  {
    if p < |list| {
      forall i | p + 2 <= i < |list|
        ensures list[i] in live - {list[p]}
      {
      }
      ReachedDistinct(list, live - {list[p]}, p + 2);
      ReachedWithin(list, live - {list[p]}, p + 2);
    }
  }

  lemma {:induction false} ReachedWithin(list: seq<Text>, live: set<Text>, p: nat)
    ensures forall topic :: topic in Reached(list, live, p) ==> topic in live && topic in list[Min(p, |list|)..]
    decreases |list| - p
  {
    if p < |list| {
      if list[p] in live {
        ReachedWithin(list, live - {list[p]}, p + 2);
      } else {
        ReachedWithin(list, live, p + 1);
      }
    }
  }

  /** The client's index lists distinct topics, all of them live. */
  ghost predicate Tidy(t: Tree, client: Text) {
    var list := IndexOf(t, client);
    && (forall i, j :: 0 <= i < j < |list| ==> list[i] != list[j])
    && (forall i :: 0 <= i < |list| ==> IsLive(t, client, list[i]))
  }

  lemma TidySurvivor(history: seq<Op>, client: Text, i: nat)
    requires Tidy(Run(history), client) && i < |IndexOf(Run(history), client)|
    ensures var t, list := Run(history), IndexOf(Run(history), client);
            IsLive(DestroyFrom(t, client, 0), client, list[i]) <==> i % 2 == 1 && i != |list| - 1
  {
    var t := Run(history);
    var list := IndexOf(t, client);
    ReachedDistinct(list, LiveTopics(t, client), 0);
    DestroyLeavesExactly(history, client, list[i]);
  }

  /** The handler clears the tree of a client with a tidy index if and only if it lists at most
      two topics; otherwise every second topic except the last stays subscribed. */
  lemma DestroyClearsIffAtMostTwo(history: seq<Op>, client: Text)
    requires Tidy(Run(history), client)
    ensures (forall topic :: !IsLive(DestroyFrom(Run(history), client, 0), client, topic))
            <==> |IndexOf(Run(history), client)| <= 2
  {
    var t := Run(history);
    var list := IndexOf(t, client);
    var after := DestroyFrom(t, client, 0);
    if |list| > 2 {
      TidySurvivor(history, client, 1);
      assert IsLive(after, client, list[1]);
    } else {
      forall topic: Text
        ensures !IsLive(after, client, topic)
      {
        DestroyLeavesExactly(history, client, topic);
        if topic in list {
          var i :| 0 <= i < |list| && list[i] == topic;
          TidySurvivor(history, client, i);
        }
      }
    }
  }

  lemma AddedKeepsLive(t: Tree, sub: Subscription, client: Text, topic: Text)
    requires IsLive(t, client, topic) || (client == sub.clientId && topic == sub.topic)
    ensures IsLive(Added(t, sub), client, topic)
  {
  }

  function Three(x: Subscription, y: Subscription, z: Subscription): seq<Op> {
    [Subscribe(x)] + [Subscribe(y)] + [Subscribe(z)]
  }

  lemma IndexGrows(history: seq<Op>, sub: Subscription, list: seq<Text>)
    requires IndexOf(Run(history), sub.clientId) == list
    ensures IndexOf(Run(history + [Subscribe(sub)]), sub.clientId) == list + [sub.topic]
  {
    RunSnoc(history, Subscribe(sub));
  }

  lemma LiveGrows(history: seq<Op>, sub: Subscription, topic: Text)
    requires IsLive(Run(history), sub.clientId, topic) || topic == sub.topic
    ensures IsLive(Run(history + [Subscribe(sub)]), sub.clientId, topic)
  {
    RunSnoc(history, Subscribe(sub));
    AddedKeepsLive(Run(history), sub, sub.clientId, topic);
  }

  lemma ThreeIndexed(x: Subscription, y: Subscription, z: Subscription)
    requires x.clientId == y.clientId == z.clientId
    ensures IndexOf(Run(Three(x, y, z)), x.clientId) == [x.topic, y.topic, z.topic]
  {
    assert [] + [Subscribe(x)] == [Subscribe(x)];
    IndexGrows([], x, []);
    IndexGrows([Subscribe(x)], y, [x.topic]);
    IndexGrows([Subscribe(x)] + [Subscribe(y)], z, [x.topic, y.topic]);
  }

  lemma ThreeLive(x: Subscription, y: Subscription, z: Subscription, topic: Text)
    requires x.clientId == y.clientId == z.clientId && topic in [x.topic, y.topic, z.topic]
    ensures IsLive(Run(Three(x, y, z)), x.clientId, topic)
  {
    assert [] + [Subscribe(x)] == [Subscribe(x)];
    if topic == x.topic { LiveGrows([], x, topic); }
    if topic != z.topic { LiveGrows([Subscribe(x)], y, topic); }
    LiveGrows([Subscribe(x)] + [Subscribe(y)], z, topic);
  }

  lemma ThreeTidy(x: Subscription, y: Subscription, z: Subscription)
    requires x.clientId == y.clientId == z.clientId
    requires x.topic != y.topic && y.topic != z.topic && x.topic != z.topic
    ensures Tidy(Run(Three(x, y, z)), x.clientId)
  {
    ThreeIndexed(x, y, z);
    forall topic | topic in [x.topic, y.topic, z.topic]
      ensures IsLive(Run(Three(x, y, z)), x.clientId, topic)
    {
      ThreeLive(x, y, z, topic);
    }
  }

  /** Three subscriptions and a disconnect: the middle one is still in the tree. */
  lemma DestroyThreeLeavesMiddle(x: Subscription, y: Subscription, z: Subscription)
    requires x.clientId == y.clientId == z.clientId
    requires x.topic != y.topic && y.topic != z.topic && x.topic != z.topic
    ensures IsLive(DestroyFrom(Run(Three(x, y, z)), x.clientId, 0), x.clientId, y.topic)
  {
    ThreeTidy(x, y, z);
    ThreeIndexed(x, y, z);
    TidySurvivor(Three(x, y, z), x.clientId, 1);
  }
}
