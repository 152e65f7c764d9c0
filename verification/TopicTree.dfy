/** The heap trie of broker/sessionmgr/topic_tree_simple.go. A ghost map from paths to nodes
    carries the shape; View() is the value that TopicModel reasons about. */
module TopicTree {
  import opened Base
  import opened Topics
  import opened Queues
  import opened TopicModel
  import opened TopicSearch

  class TopicNode {
    const level: Text
    ghost const path: Path  // where the node hangs; the root, at [], has no subscription map
    var children: map<Text, TopicNode>
    var subs: map<Text, Subscription>

    constructor (level: Text, ghost path: Path)
      ensures this.level == level && this.path == path
      ensures children == map[] && subs == map[]
    {
      this.level, this.path := level, path;
      children, subs := map[], map[];
    }
  }

  /** A child link leads to the node of the longer path, */
  ghost predicate Down(nodes: map<Path, TopicNode>, kids: map<Path, map<Text, TopicNode>>, p: Path, l: Text) {
    p in nodes && p in kids && l in kids[p] ==> p + [l] in nodes && nodes[p + [l]] == kids[p][l]
  }

  /** and a path with a node is linked from its parent. */
  ghost predicate Up(nodes: map<Path, TopicNode>, kids: map<Path, map<Text, TopicNode>>, p: Path, l: Text) {
    p + [l] in nodes ==> p in nodes && p in kids && l in kids[p]
  }

  ghost predicate Linked(nodes: map<Path, TopicNode>, kids: map<Path, map<Text, TopicNode>>) {
    && (forall p: Path, l: Text {:trigger Down(nodes, kids, p, l)} :: Down(nodes, kids, p, l))
    && (forall p: Path, l: Text {:trigger Up(nodes, kids, p, l)} :: Up(nodes, kids, p, l))
  }

  lemma LinkedClosed(nodes: map<Path, TopicNode>, kids: map<Path, map<Text, TopicNode>>)
    requires Linked(nodes, kids)
    ensures [] in nodes ==> Closed(nodes.Keys)
  {
    forall p: Path, l: Text | p + [l] in nodes.Keys
      ensures p in nodes.Keys
    {
      assert Up(nodes, kids, p, l);
    }
  }

  lemma SnocInjective(p: Path, l: Text, q: Path, m: Text)
    requires p + [l] == q + [m]
    ensures p == q && l == m
  {
    assert p == (p + [l])[..|p|] && q == (q + [m])[..|q|];
    assert (p + [l])[|p|] == l && (q + [m])[|q|] == m;
  }

  lemma LinkedGrows(nodes: map<Path, TopicNode>, kids: map<Path, map<Text, TopicNode>>, at: Path, level: Text, n: TopicNode)
    requires Linked(nodes, kids) && at in nodes && at in kids && level !in kids[at]
    ensures at + [level] !in nodes
    ensures Linked(nodes[at + [level] := n], kids[at := kids[at][level := n]][at + [level] := map[]])
  {
    var below := at + [level];
    var nodes', kids' := nodes[below := n], kids[at := kids[at][level := n]][below := map[]];
    assert |below| > |at|;
    assert below !in nodes by { assert Up(nodes, kids, at, level); }
    forall p: Path, l: Text
      ensures Up(nodes', kids', p, l) && Down(nodes', kids', p, l)
    {
      assert Up(nodes, kids, p, l) && Down(nodes, kids, p, l);
      if p + [l] == below { SnocInjective(p, l, at, level); }
    }
  }

  class SimpleTopicTree {
    const root: TopicNode
    var topics: map<Text, seq<Text>>
    ghost var nodes: map<Path, TopicNode>
    ghost var kids: map<Path, map<Text, TopicNode>>
    ghost var subs: map<Path, map<Text, Subscription>>
    ghost var history: seq<Op>

    /** `kids` and `subs` are what the node at `p` holds, and no other path leads to it. */
    ghost predicate NodeOk(p: Path)
      reads this`nodes, this`kids, this`subs, nodes.Values
    {
      && (p in nodes <==> p in subs)
      && (p in nodes ==>
            p in kids && nodes[p].path == p && nodes[p].children == kids[p] && nodes[p].subs == subs[p])
    }

    ghost predicate Synced()
      reads this`nodes, this`kids, this`subs, nodes.Values
    {
      forall p: Path {:trigger NodeOk(p)} :: NodeOk(p)
    }

    /** The nodes form a tree below the root. */
    ghost predicate Shape()
      reads this`nodes, this`kids, this`subs, nodes.Values
    {
      [] in nodes && nodes[[]] == root && Linked(nodes, kids) && Synced()
    }

    ghost function View(): Tree
      reads this
    {
      Tree(subs, topics)
    }

    /** The tree is what its history says. */
    ghost predicate Valid()
      reads this, nodes.Values
    {
      Shape() && View() == Run(history) && QueuesOwned(history)
    }

    constructor ()
      ensures Valid() && history == [] && fresh(nodes.Values)
    {
      root := new TopicNode([114, 111, 111, 116], []);
      topics := map[];
      history := [];
      kids, subs := map[[] := map[]], map[[] := map[]];
      new;
      nodes := map[[] := root];
    }

    method AddNode(ghost at: Path, node: TopicNode, level: Text) returns (n: TopicNode)
      requires Shape() && at in nodes && nodes[at] == node
      modifies this`nodes, this`kids, this`subs, node`children
      ensures Shape()
      ensures at + [level] in nodes && nodes[at + [level]] == n
      ensures forall p :: p in nodes ==> nodes[p] in old(nodes.Values) || fresh(nodes[p])
      ensures subs == if at + [level] in old(subs) then old(subs) else old(subs)[at + [level] := map[]]
    {
      assert NodeOk(at);
      assert NodeOk(at + [level]);
      assert Up(nodes, kids, at, level) && Down(nodes, kids, at, level);
      if level !in node.children {
        NewChild(at, node, level);
        assert NodeOk(at) && Down(nodes, kids, at, level);
      }
      n := node.children[level];
    }

    method NewChild(ghost at: Path, node: TopicNode, level: Text)
      requires Shape() && at in nodes && nodes[at] == node && level !in node.children
      modifies this`nodes, this`kids, this`subs, node`children
      ensures Shape()
      ensures at + [level] !in old(nodes) && at + [level] in nodes && at in nodes
      ensures fresh(nodes[at + [level]]) && nodes == old(nodes)[at + [level] := nodes[at + [level]]]
      ensures subs == old(subs)[at + [level] := map[]]
      ensures level in node.children
    {
      assert NodeOk(at) && Up(nodes, kids, at, level);
      var n := new TopicNode(level, at + [level]);
      LinkedGrows(nodes, kids, at, level, n);
      node.children := node.children[level := n];
      kids := kids[at := node.children][at + [level] := map[]];
      subs := subs[at + [level] := map[]];
      nodes := nodes[at + [level] := n];
      forall p: Path
        ensures NodeOk(p)
      {
        assert old(NodeOk(p));
      }
    }

    /** The addNode loop: makes every missing node down to the last level. */
    method MakePath(levels: Path) returns (node: TopicNode)
      requires Shape()
      modifies this`nodes, this`kids, this`subs, nodes.Values`children
      ensures Shape() && fresh(nodes.Values - old(nodes.Values))
      ensures levels in nodes && nodes[levels] == node
      ensures subs == Grown(old(subs), levels)
    {
      node := root;
      var i := 0;
      assert levels[..0] == [];
      assert NodeOk([]);
      GrownNil(subs);
      while i < |levels|
        invariant 0 <= i <= |levels|
        invariant Shape() && fresh(nodes.Values - old(nodes.Values))
        invariant levels[..i] in nodes && nodes[levels[..i]] == node
        invariant subs == Grown(old(subs), levels[..i])
      {
        assert levels[..i + 1] == levels[..i] + [levels[i]];
        GrownSnoc(old(subs), levels, i);
        node := AddNode(levels[..i], node, levels[i]);
        i := i + 1;
      }
      assert levels[..i] == levels;
    }

    method AddSubscription(sub: Subscription)
      requires Valid() && sub.queue.clientId == sub.clientId
      modifies this, nodes.Values
      ensures Valid()
      ensures history == old(history) + [Subscribe(sub)]
      ensures fresh(nodes.Values - old(nodes.Values))
    {
      Insert(sub);
      RunSnoc(history, Subscribe(sub));
      history := history + [Subscribe(sub)];
    }

    method Insert(sub: Subscription)
      requires Shape()
      modifies this`nodes, this`kids, this`subs, this`topics, nodes.Values
      ensures Shape() && fresh(nodes.Values - old(nodes.Values))
      ensures View() == Added(old(View()), sub)
    {
      var levels := Split(sub.topic);
      var node := MakePath(levels);
      Attach(levels, node, sub);
    }

    /** Stores the subscription at its node and appends the topic to the client's index. */
    method Attach(ghost at: Path, node: TopicNode, sub: Subscription)
      requires Shape() && at in nodes && nodes[at] == node
      modifies this`topics, this`subs, node`subs
      ensures Synced()
      ensures at in old(subs) && subs == old(subs)[at := old(subs)[at][sub.clientId := sub]]
      ensures topics == old(topics)[sub.clientId := IndexOf(old(View()), sub.clientId) + [sub.topic]]
    {
      assert NodeOk(at);
      node.subs := node.subs[sub.clientId := sub];
      subs := subs[at := node.subs];
      if sub.clientId !in topics {
        assert [sub.topic] == [] + [sub.topic];
        topics := topics[sub.clientId := [sub.topic]];
      } else {
        topics := topics[sub.clientId := topics[sub.clientId] + [sub.topic]];
      }
      forall p: Path
        ensures NodeOk(p)
      {
        assert old(NodeOk(p));
      }
    }

    /** The findNode walk shared by removeSubscription and getSubscription. */
    method Walk(levels: Path) returns (node: TopicNode?)
      requires Shape()
      ensures node != null <==> levels in nodes
      ensures node != null ==> node == nodes[levels]
    {
      node := root;
      var i := 0;
      assert levels[..0] == [];
      while i < |levels|
        invariant 0 <= i <= |levels|
        invariant node != null && levels[..i] in nodes && node == nodes[levels[..i]]
      {
        assert levels[..i + 1] == levels[..i] + [levels[i]];
        assert NodeOk(levels[..i]);
        if levels[i] !in node.children {
          assert Up(nodes, kids, levels[..i], levels[i]);
          if levels in nodes {
            LinkedClosed(nodes, kids);
            PrefixIn(nodes.Keys, levels, i + 1);
          }
          return null;
        }
        assert Down(nodes, kids, levels[..i], levels[i]);
        node := node.children[levels[i]];
        i := i + 1;
      }
      assert levels[..i] == levels;
    }

    method GetSubscription(clientId: Text, topic: Text) returns (r: Result<Subscription>)
      requires Valid()
      ensures r.Ok? <==> LastOn(history, clientId, topic).Some?
      ensures r.Ok? ==> r.value == LastOn(history, clientId, topic).value
    {
      HistoryRefines(history, clientId, topic);
      var node := Walk(Split(topic));
      assert NodeOk(Split(topic));
      if node == null || clientId !in node.subs {
        return Err;
      }
      r := Ok(node.subs[clientId]);
    }

    method RemoveSubscription(clientId: Text, topic: Text) returns (ok: bool)
      requires Valid()
      modifies this, nodes.Values
      ensures Valid() && nodes == old(nodes)
      ensures history == old(history) + [Unsubscribe(clientId, topic)]
      ensures ok <==> LastOn(old(history), clientId, topic).Some?
    {
      HistoryRefines(history, clientId, topic);
      ok := Detach(clientId, topic);
      RunSnoc(history, Unsubscribe(clientId, topic));
      history := history + [Unsubscribe(clientId, topic)];
    }

    method Detach(clientId: Text, topic: Text) returns (ok: bool)
      requires Shape()
      modifies this`topics, this`subs, nodes.Values`subs
      ensures Shape()
      ensures View() == Removed(old(View()), clientId, topic)
      ensures ok <==> IsLive(old(View()), clientId, topic)
    {
      var node := Walk(Split(topic));
      assert NodeOk(Split(topic));
      if node == null || clientId !in node.subs {
        return false;
      }
      node.subs := node.subs - {clientId};
      subs := subs[Split(topic) := node.subs];
      if clientId in topics {
        ShiftIndex(clientId, topic);
      }
      forall p: Path
        ensures NodeOk(p)
      {
        assert old(NodeOk(p));
      }
      return true;
    }

    /** The scan over the index slice and the in-place append; the slice keeps its length. */
    method ShiftIndex(clientId: Text, topic: Text)
      requires clientId in topics
      modifies this`topics
      ensures topics == old(topics)[clientId := ShiftedOut(old(topics)[clientId], topic)]
    {
      var list := topics[clientId];
      var i := 0;
      while i < |list|
        invariant 0 <= i <= |list| && topics == old(topics)
        invariant forall k :: 0 <= k < i ==> list[k] != topic
      {
        if list[i] == topic {
          ShiftAt(list, topic, i);
          topics := topics[clientId := list[..i] + list[i + 1..] + [list[|list| - 1]]];
          return;
        }
        i := i + 1;
      }
      NotThere(list, topic);
    }

    /** Enumerates the children in an arbitrary order and follows the first one that fits. */
    method SearchNode(ghost at: Path, node: TopicNode, levels: Path, setRetain: bool)
      returns (r: TopicNode?, ghost found: Option<Path>)
      requires Shape() && at in nodes && nodes[at] == node
      ensures Outcome(nodes.Keys, at, levels, found)
      ensures found.Some? <==> r != null
      ensures found.Some? ==> found.value in nodes && r == nodes[found.value]
      decreases |levels|
    {
      assert NodeOk(at);
      var todo := node.children.Keys;
      while todo != {}
        invariant todo <= node.children.Keys
        invariant forall k :: k in node.children && k !in todo ==> !Eligible(nodes.Keys, at, levels, k)
        decreases todo
      {
        var k :| k in todo;
        todo := todo - {k};
        var v := node.children[k];
        assert NodeOk(at) && Down(nodes, kids, at, k) && NodeOk(at + [k]);
        var sr := setRetain;
        if |levels| != 0 && (k == levels[0] || k == PLUS) {
          if k == PLUS {
            sr := false;
          }
          assert Eligible(nodes.Keys, at, levels, k);
          if |levels[1..]| == 0 {
            r, found := v, Some(at + [k]);
          } else {
            r, found := SearchNode(at + [k], v, levels[1..], sr);
          }
          assert Takes(nodes.Keys, at, levels, k, found);
          return;
        } else if k == HASH && |v.children| > 0 {
          assert HasChildren(nodes.Keys, at + [k]) by {
            var l :| l in v.children.Keys;
            assert Down(nodes, kids, at + [k], l);
            assert at + [k] + [l] in nodes;
          }
          r, found := v, Some(at + [k]);
          assert Takes(nodes.Keys, at, levels, k, found);
          return;
        }
        assert !Eligible(nodes.Keys, at, levels, k) by {
          if k == HASH {
            forall l: Text
              ensures at + [k] + [l] !in nodes
            {
              assert Up(nodes, kids, at + [k], l);
            }
          }
        }
      }
      forall k
        ensures !Eligible(nodes.Keys, at, levels, k)
      {
        assert Up(nodes, kids, at, k);
      }
      r, found := null, None;
    }

    ghost function Queues(): set<MessageQueue>
      reads this, nodes.Values
    {
      set p, c | p in nodes && c in nodes[p].subs :: nodes[p].subs[c].queue
    }

    /** Publishes a message. `found` is the node the search happened to reach; each queue held there
        gets one copy, every other queue stays as it was. */
    method AddMessage(clientId: Text, msg: Message) returns (ghost found: Option<Path>)
      requires Valid()
      modifies Queues()
      ensures Valid() && history == old(history)
      ensures Outcome(Run(history).subs.Keys, [], Split(msg.topic), found)
      ensures var served := Served(Run(history), found);
              forall q: MessageQueue :: q in old(Queues()) ==>
                && q.closed == old(q.closed)
                && q.buffer == if Serves(served, q) && !q.closed then
                                 old(q.buffer) + [msg.(qos := served[q.clientId].qos, dup := false)]
                               else old(q.buffer)
    {
      var node;
      node, found := SearchNode([], root, Split(msg.topic), true);
      forall p: Path
        ensures p in nodes <==> p in subs
      {
        assert NodeOk(p);
      }
      assert nodes.Keys == subs.Keys;
      if node != null {
        assert NodeOk(found.value);
        ghost var served := Served(Run(history), found);
        assert node.subs == served;
        forall c | c in served
          ensures served[c].queue.clientId == c
        {
          RunQueuesOwned(history, found.value, c);
        }
        Deliver(node.subs, msg);
      }
    }
  }

  predicate Serves(served: map<Text, Subscription>, q: MessageQueue) {
    q.clientId in served && served[q.clientId].queue == q
  }

  /** The loop over the subscriptions of one node, in any order. */
  method Deliver(subs: map<Text, Subscription>, msg: Message)
    requires forall c :: c in subs ==> subs[c].queue.clientId == c
    modifies set c | c in subs :: subs[c].queue
    ensures forall c :: c in subs ==>
              && subs[c].queue.closed == old(subs[c].queue.closed)
              && subs[c].queue.buffer == old(subs[c].queue.buffer) +
                   if old(subs[c].queue.closed) then [] else [msg.(qos := subs[c].qos, dup := false)]
  {
    var todo := subs.Keys;
    while todo != {}
      invariant todo <= subs.Keys
      invariant forall c :: c in subs ==> subs[c].queue.closed == old(subs[c].queue.closed)
      invariant forall c :: c in subs ==>
                  subs[c].queue.buffer == old(subs[c].queue.buffer) +
                    if c in todo || old(subs[c].queue.closed) then [] else [msg.(qos := subs[c].qos, dup := false)]
      decreases todo
    {
      var c :| c in todo;
      todo := todo - {c};
      var sub := subs[c];
      sub.queue.Pushback(Message(msg.topic, msg.packetId, msg.direction, msg.state, sub.qos, false,
                                 msg.retain, msg.payload, msg.time));
    }
  }
}
