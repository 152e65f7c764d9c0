/** The event handlers of broker/sessionmgr/session_manager.go over the topic tree. The registry of
    queues kept by the queue service appears here as the map `queues`. */
module SessionManagers {
  import opened Base
  import opened Topics
  import opened Queues
  import opened TopicModel
  import opened TopicSearch
  import opened TopicTree
  import opened SessionDestroy

  datatype Event =
    | SessionDestroyed(brokerId: Text, clientId: Text)
    | TopicSubscribe(brokerId: Text, clientId: Text, persistent: bool, topic: Text, qos: nat)
    | TopicUnsubscribe(brokerId: Text, clientId: Text, persistent: bool, topic: Text)
    | TopicPublish(brokerId: Text, clientId: Text, topic: Text, qos: nat, payload: seq<byte>, retain: bool)

  class SessionManager {
    const brokerId: Text
    const tree: SimpleTopicTree
    var sessions: map<Text, bool>  // client identifier to whether the session is persistent
    var queues: map<Text, MessageQueue>

    ghost predicate Valid()
      reads this, tree, tree.nodes.Values
    {
      tree.Valid() && forall c :: c in queues ==> queues[c].clientId == c
    }

    constructor (brokerId: Text)
      ensures Valid() && this.brokerId == brokerId && sessions == map[] && queues == map[]
      ensures fresh(tree) && tree.history == [] && fresh(tree.nodes.Values)
    {
      this.brokerId := brokerId;
      tree := new SimpleTopicTree();
      sessions, queues := map[], map[];
    }

    method RegisterSession(clientId: Text, persistent: bool) returns (ok: bool)
      modifies this`sessions
      ensures ok <==> clientId !in old(sessions)
      ensures sessions == if ok then old(sessions)[clientId := persistent] else old(sessions)
    {
      if clientId in sessions {
        return false;
      }
      sessions := sessions[clientId := persistent];
      return true;
    }

    method RemoveSession(clientId: Text) returns (ok: bool)
      modifies this`sessions
      ensures ok <==> clientId in old(sessions)
      ensures sessions == old(sessions) - {clientId}
    {
      if clientId !in sessions {
        return false;
      }
      sessions := sessions - {clientId};
      return true;
    }

    /** Events of other brokers count only for persistent sessions. */
    predicate Accepts(e: Event) {
      match e
      case TopicSubscribe(b, _, persistent, _, _) => b == brokerId || persistent
      case TopicUnsubscribe(b, _, persistent, _) => b == brokerId || persistent
      case _ => true
    }

    method OnTopicSubscribe(e: Event)
      requires Valid() && e.TopicSubscribe?
      modifies tree, tree.nodes.Values
      ensures Valid() && fresh(tree.nodes.Values - old(tree.nodes.Values))
      ensures tree.history ==
                if Accepts(e) && e.clientId in queues then
                  old(tree.history) + [Subscribe(Subscription(e.clientId, e.topic, e.qos, queues[e.clientId], false))]
                else old(tree.history)
    {
      if e.brokerId != brokerId && e.persistent {
        if e.clientId in queues {
          tree.AddSubscription(Subscription(e.clientId, e.topic, e.qos, queues[e.clientId], false));
        }
      } else if e.brokerId == brokerId {
        if e.clientId in queues {
          tree.AddSubscription(Subscription(e.clientId, e.topic, e.qos, queues[e.clientId], false));
        }
      }
    }

    method OnTopicUnsubscribe(e: Event)
      requires Valid() && e.TopicUnsubscribe?
      modifies tree, tree.nodes.Values
      ensures Valid() && tree.nodes == old(tree.nodes)
      ensures tree.history == if Accepts(e) then old(tree.history) + [Unsubscribe(e.clientId, e.topic)]
                              else old(tree.history)
    {
      var concerned := false;
      if e.brokerId != brokerId && e.persistent {
        concerned := true;
      } else if e.brokerId == brokerId {
        concerned := true;
      }
      if concerned {
        var _ := tree.RemoveSubscription(e.clientId, e.topic);
      }
    }

    /** Whenever no wildcard node competes with the published path, in particular after any history of
        wildcard-free filters, and whatever the iteration orders: a queue held by the tree gets exactly one
        message, with the payload unchanged and the qos of the subscription, if its client's last operation
        on exactly this topic was a subscribe through it, and none otherwise. */
    method OnTopicPublish(e: Event)
      requires Valid() && e.TopicPublish?
      modifies tree.Queues()
      ensures Valid() && tree.history == old(tree.history)
      ensures Unrivalled(Run(tree.history).subs.Keys, [], Split(e.topic)) || FiltersWildcardFree(tree.history) ==>
                forall q :: q in old(tree.Queues()) ==>
                  var last := LastOn(tree.history, q.clientId, e.topic);
                  && q.closed == old(q.closed)
                  && q.buffer == if last.Some? && last.value.queue == q && !old(q.closed) then
                                   old(q.buffer) + [Message(topic := e.topic, packetId := 0, direction := 0, state := 0,
                                                            qos := last.value.qos, dup := false, retain := e.retain,
                                                            payload := e.payload, time := 0)]
                                 else old(q.buffer)
    {
      ghost var found := tree.AddMessage(e.clientId, Message(e.topic, 0, 0, 0, e.qos, false, e.retain, e.payload, 0));
      if FiltersWildcardFree(tree.history) {
        UnrivalledWhenWildcardFree(tree.history, Split(e.topic));
      }
      if Unrivalled(Run(tree.history).subs.Keys, [], Split(e.topic)) {
        forall q | q in old(tree.Queues())
          ensures var last := LastOn(tree.history, q.clientId, e.topic);
                  var served := Served(Run(tree.history), found);
                  Serves(served, q) <==> last.Some? && last.value.queue == q
        {
          DeliveryExact(tree.history, e.topic, found, q.clientId);
        }
        forall q | q in old(tree.Queues())
          ensures var last := LastOn(tree.history, q.clientId, e.topic);
                  var served := Served(Run(tree.history), found);
                  Serves(served, q) ==> last.Some? && served[q.clientId] == last.value
        {
          DeliveryExact(tree.history, e.topic, found, q.clientId);
        }
      }
    }

    /** The literal handler: the range loop reads the array that removeSubscription shifts. What it
        leaves of a transient client's subscriptions is stated exactly, and other clients lose nothing. */
    method OnSessionDestroy(e: Event)
      requires Valid() && e.SessionDestroyed?
      modifies this`sessions, this`queues, tree, tree.nodes.Values
      ensures Valid() && tree.nodes == old(tree.nodes)
      ensures if e.clientId in old(sessions) && old(sessions)[e.clientId] then
                sessions == old(sessions) && queues == old(queues) && tree.history == old(tree.history)
              else
                && sessions == old(sessions) - {e.clientId} && queues == old(queues) - {e.clientId}
                && (forall topic ::
                      LastOn(tree.history, e.clientId, topic) ==
                      if Survives(old(tree.View()), e.clientId, topic) then LastOn(old(tree.history), e.clientId, topic)
                      else None)
                && (forall c, topic ::
                      c != e.clientId ==> LastOn(tree.history, c, topic) == LastOn(old(tree.history), c, topic))
    {
      if e.clientId in sessions && sessions[e.clientId] {
        return;
      }
      DestroyLoop(e.clientId);
      var _ := RemoveSession(e.clientId);
      queues := queues - {e.clientId};
      forall c: Text, topic: Text
        ensures c != e.clientId ==> LastOn(tree.history, c, topic) == LastOn(old(tree.history), c, topic)
        ensures LastOn(tree.history, e.clientId, topic) ==
                if Survives(old(tree.View()), e.clientId, topic) then LastOn(old(tree.history), e.clientId, topic) else None
      {
        DestroyedHistory(old(tree.history), tree.history, e.clientId, c, topic);
        DestroyedHistory(old(tree.history), tree.history, e.clientId, e.clientId, topic);
      }
    }

    method DestroyLoop(clientId: Text)
      requires tree.Valid()
      modifies tree, tree.nodes.Values
      ensures tree.Valid() && tree.nodes == old(tree.nodes)
      ensures tree.View() == DestroyFrom(old(tree.View()), clientId, 0)
    {
      var n := if clientId in tree.topics then |tree.topics[clientId]| else 0;
      var i := 0;
      while i < n
        invariant 0 <= i <= n && tree.Valid() && tree.nodes == old(tree.nodes)
        invariant |IndexOf(tree.View(), clientId)| == n
        invariant DestroyFrom(tree.View(), clientId, i) == DestroyFrom(old(tree.View()), clientId, 0)
      {
        DestroyOne(clientId, i);
        i := i + 1;
      }
    }

    /** One round: the i-th entry of the index as it is now. */
    method DestroyOne(clientId: Text, i: nat)
      requires tree.Valid() && i < |IndexOf(tree.View(), clientId)|
      modifies tree, tree.nodes.Values
      ensures tree.Valid() && tree.nodes == old(tree.nodes)
      ensures tree.View() == Removed(old(tree.View()), clientId, IndexOf(old(tree.View()), clientId)[i])
      ensures |IndexOf(tree.View(), clientId)| == |IndexOf(old(tree.View()), clientId)|
    {
      ghost var before, h := tree.View(), tree.history;
      var topic := tree.topics[clientId][i];
      var _ := tree.RemoveSubscription(clientId, topic);
      RunSnoc(h, Unsubscribe(clientId, topic));
      RemovedIndexLength(before, clientId, topic);
    }
  }
}
