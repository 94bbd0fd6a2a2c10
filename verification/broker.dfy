/** The broker itself: topic tree, sessions and writers updated packet by packet, each handler proved to
    take exactly the step of the state machine. */
module Brokers {
  import opened Wrappers
  import opened Bytes
  import opened PacketParser
  import opened Topics
  import opened TopicTrees
  import opened BrokerStates
  import opened SessionStores

  // ---------------------------------------------------------------- delivering one client at a time

  /** Delivering to one more client moves its session's next id. */
  lemma DeliverOneSession(s: State, pkt: Packet, publisher: Option<Str>, done: set<Str>, c: Str)
    requires WellParsed(pkt) && IdsBounded(s.sessions) && c !in done && Receives(s, pkt, publisher, c)
    ensures var before := Delivered(s, pkt, publisher, done).sessions;
            var after := Delivered(s, pkt, publisher, done + {c}).sessions;
            var id := s.sessions[c].nextId;
            c in before && before[c] == s.sessions[c] &&
            after == before[c := s.sessions[c].(nextId := if EffectiveQos(s, pkt, c) > 0 then NextId(id) else id)]
  {
  }

  /** Delivering to one more client adds one write to its connection. */
  lemma DeliverOneOutput(s: State, pkt: Packet, publisher: Option<Str>, done: set<Str>, c: Str)
    requires WellParsed(pkt) && Inv(s) && c !in done && Receives(s, pkt, publisher, c)
    ensures var before := Delivered(s, pkt, publisher, done).outputs;
            var after := Delivered(s, pkt, publisher, done + {c}).outputs;
            var w := s.sessions[c].writer.value;
            w in before && after ==
              before[w := before[w] + [Publication(pkt, EffectiveQos(s, pkt, c), s.sessions[c].nextId)]]
  {
    var w := s.sessions[c].writer.value;
    assert WritesTo(s.sessions, c, w);
    forall v | v in s.outputs && v != w
      ensures DeliveredOutput(s, pkt, publisher, v, done + {c}) == DeliveredOutput(s, pkt, publisher, v, done)
    {
      assert !WritesTo(s.sessions, c, v) && !Owns(s.conns, v, c);
    }
  }

  lemma DeliverOneCount(s: State, pkt: Packet, publisher: Option<Str>, done: set<Str>, c: Str)
    requires WellParsed(pkt) && IdsBounded(s.sessions) && c !in done && Receives(s, pkt, publisher, c)
    ensures |Receivers(s, pkt, publisher, done + {c})| == |Receivers(s, pkt, publisher, done)| + 1
  {
    assert Receivers(s, pkt, publisher, done + {c}) == Receivers(s, pkt, publisher, done) + {c};
  }

  /** One publication sent by the session of `c` to connection `w`. */
  function Sent(s: State, pkt: Packet, c: Str, w: ConnId, qos: Qos): State
    requires WellParsed(pkt) && c in s.sessions && s.sessions[c].nextId < 65536 && w in s.outputs
  {
    var id := s.sessions[c].nextId;
    s.(sessions := s.sessions[c := s.sessions[c].(nextId := if qos > 0 then NextId(id) else id)],
       outputs := s.outputs[w := s.outputs[w] + [Publication(pkt, qos, id)]],
       stats := s.stats.(delivered := s.stats.delivered + 1))
  }

  lemma DeliverOneMore(s: State, pkt: Packet, publisher: Option<Str>, done: set<Str>, c: Str, w: ConnId)
    requires WellParsed(pkt) && Inv(s) && c !in done && Receives(s, pkt, publisher, c)
    requires s.sessions[c].writer == Some(w)
    ensures var before := Delivered(s, pkt, publisher, done);
            && c in before.sessions && before.sessions[c] == s.sessions[c]
            && s.sessions[c].nextId < 65536 && w in before.outputs
            && Delivered(s, pkt, publisher, done + {c}) == Sent(before, pkt, c, w, EffectiveQos(s, pkt, c))
  {
    DeliverOneSession(s, pkt, publisher, done, c);
    DeliverOneOutput(s, pkt, publisher, done, c);
    DeliverOneCount(s, pkt, publisher, done, c);
  }

  lemma InvBoundsIds(s: State)
    requires Inv(s)
    ensures IdsBounded(s.sessions)
  {
  }

  /** Delivering changes no writer. */
  lemma DeliveredKeepsWriter(s: State, pkt: Packet, publisher: Option<Str>, done: set<Str>, c: Str)
    requires WellParsed(pkt) && IdsBounded(s.sessions)
    ensures var after := Delivered(s, pkt, publisher, done).sessions;
            (c in after <==> c in s.sessions) && (c in after ==> after[c].writer == s.sessions[c].writer)
  {
  }

  lemma DeliveredKeepsOutputs(s: State, pkt: Packet, publisher: Option<Str>, done: set<Str>)
    requires WellParsed(pkt) && IdsBounded(s.sessions)
    ensures Delivered(s, pkt, publisher, done).outputs.Keys == s.outputs.Keys
  {
  }

  lemma DeliverToOther(s: State, pkt: Packet, publisher: Option<Str>, done: set<Str>, c: Str)
    requires WellParsed(pkt) && IdsBounded(s.sessions) && c !in done && !Receives(s, pkt, publisher, c)
    ensures Delivered(s, pkt, publisher, done + {c}) == Delivered(s, pkt, publisher, done)
  {
    var before, after := Delivered(s, pkt, publisher, done), Delivered(s, pkt, publisher, done + {c});
    assert Receivers(s, pkt, publisher, done + {c}) == Receivers(s, pkt, publisher, done);
    assert after.sessions == before.sessions;
    assert after.outputs == before.outputs;
  }

  /** Once every receiver is done, everyone is. */
  lemma DeliveredToAll(s: State, pkt: Packet, publisher: Option<Str>, done: set<Str>)
    requires WellParsed(pkt) && IdsBounded(s.sessions)
    requires forall c :: Receives(s, pkt, publisher, c) ==> c in done
    ensures Delivered(s, pkt, publisher, done) == Delivered(s, pkt, publisher, s.sessions.Keys)
  {
    var a, b := Delivered(s, pkt, publisher, done), Delivered(s, pkt, publisher, s.sessions.Keys);
    assert a.sessions == b.sessions;
    assert a.outputs == b.outputs;
    assert Receivers(s, pkt, publisher, done) == Receivers(s, pkt, publisher, s.sessions.Keys);
  }

  lemma DeliveredToNone(s: State, pkt: Packet, publisher: Option<Str>)
    requires WellParsed(pkt) && IdsBounded(s.sessions)
    ensures Delivered(s, pkt, publisher, {}) == s
  {
    var d := Delivered(s, pkt, publisher, {});
    assert d.sessions == s.sessions;
    assert d.outputs == s.outputs;
    assert Receivers(s, pkt, publisher, {}) == {};
  }

  /** The clients of the first `n` pairs. */
  function Clients(pairs: seq<(Str, nat)>, n: nat): set<Str>
    requires n <= |pairs|
  {
    set j | 0 <= j < n :: pairs[j].0
  }

  lemma OneMoreClient(table: Table, topic: seq<Str>, pairs: seq<(Str, nat)>, n: nat)
    requires IsMatch(table, topic, pairs) && n < |pairs|
    ensures pairs[n].0 !in Clients(pairs, n) && Clients(pairs, n + 1) == Clients(pairs, n) + {pairs[n].0}
    ensures IsBest(table, topic, pairs[n].0, pairs[n].1)
  {
  }

  lemma ReceiversAreMatched(s: State, pkt: Packet, publisher: Option<Str>, pairs: seq<(Str, nat)>)
    requires IsMatch(s.table, Split(pkt.topic), pairs)
    ensures forall c :: Receives(s, pkt, publisher, c) ==> c in Clients(pairs, |pairs|)
  {
    forall c | Receives(s, pkt, publisher, c)
      ensures c in Clients(pairs, |pairs|)
    {
      assert Subscribed(s.table, Split(pkt.topic), c);
    }
  }

  lemma OneMoreSubscription(table: Table, client: Str, subscriptions: seq<(Str, nat)>, i: nat)
    requires i < |subscriptions| && forall j :: 0 <= j < |subscriptions| ==> subscriptions[j].1 < 4
    ensures SubscribeAll(table, client, subscriptions[..i + 1]) ==
            SubscribeAll(table, client, subscriptions[..i])[(Split(subscriptions[i].0), client) := subscriptions[i].1]
    ensures ReasonCodes(subscriptions[..i + 1]) == ReasonCodes(subscriptions[..i]) + [subscriptions[i].1]
  {
    assert subscriptions[..i + 1][..i] == subscriptions[..i];
  }

  class Broker {
    const topicTree: TopicTree
    const store: SessionStore
    /** Everything written to each connection. */
    var outputs: map<ConnId, seq<seq<byte>>>
    var published: nat
    var delivered: nat
    var connected: nat
    /** The client id each live connection's handler holds. */
    ghost var conns: map<ConnId, Option<Str>>

    ghost predicate Valid()
      reads this, topicTree, topicTree.view.members, store, store.members
    {
      topicTree.Valid() && store.Valid()
    }

    /** The state of the machine the broker is in. */
    ghost function Abs(): State
      reads this, topicTree, store
    {
      State(topicTree.view.table, store.view, conns, outputs, Stats(published, delivered, connected))
    }

    constructor ()
      ensures Valid() && Abs() == START && fresh(topicTree) && fresh(store)
      ensures fresh(topicTree.view.members) && fresh(store.members)
    {
      topicTree := new TopicTree();
      store := new SessionStore();
      outputs, conns := map[], map[];
      published, delivered, connected := 0, 0, 0;
    }

    /** A new connection comes in. */
    method Accept(conn: ConnId)
      requires Valid()
      modifies this`outputs, this`conns
      ensures Valid() && Abs() == OpenStep(old(Abs()), conn)
    {
      outputs := outputs[conn := []];
      conns := conns[conn := None];
    }

    /** Writes one packet to a connection. */
    method Send(conn: ConnId, data: seq<byte>)
      requires conn in outputs
      modifies this`outputs
      ensures old(Valid()) ==> Valid()
      ensures Abs() == Write(old(Abs()), conn, data)
    {
      outputs := outputs[conn := outputs[conn] + [data]];
    }

    /** A session is made or taken over, and the connection holds its client id. */
    method Join(conn: ConnId, client: Str, clean: bool)
      requires Valid()
      modifies this`conns, this`connected, store, store.members
      ensures Valid() && store.OnlyNewSessions()
      ensures Abs() == Joined(old(Abs()), conn, client, clean)
    {
      hide SessionStore.Valid, CreateSession;
      store.Create(client, clean, conn);
      conns := conns[conn := Some(client)];
      connected := connected + 1;
    }

    method HandleConnect(conn: ConnId, client: Str, clean: bool)
      requires Valid() && conn in outputs
      modifies this`outputs, this`conns, this`connected, store, store.members
      ensures Valid() && store.OnlyNewSessions()
      ensures Abs() == ConnectStep(old(Abs()), conn, client, clean)
    {
      Join(conn, client, clean);
      Send(conn, BuildConnack(false, 0));
    }

    method HandlePing(conn: ConnId)
      requires Valid() && conn in outputs
      modifies this`outputs
      ensures Valid() && Abs() == Write(old(Abs()), conn, PINGRESP)
    {
      Send(conn, PINGRESP);
    }

    method HandleSubscribe(conn: ConnId, client: Str, pkt: Packet)
      requires Valid() && conn in outputs && WellParsed(pkt) && pkt.packetId.Some?
      modifies this`outputs, topicTree, topicTree.view.members
      ensures Valid() && topicTree.OnlyNewNodes()
      ensures Abs() == SubscribeStep(old(Abs()), conn, client, pkt)
    {
      hide SessionStore.Valid, TopicTree.Valid, SubscribeAll, BuildSuback, ReasonCodes;
      var codes := SubscribeEach(client, pkt.subscriptions);
      Send(conn, BuildSuback(pkt.packetId.value, codes));
    }

    method SubscribeEach(client: Str, subscriptions: seq<(Str, nat)>) returns (codes: seq<byte>)
      requires topicTree.Valid() && forall i :: 0 <= i < |subscriptions| ==> subscriptions[i].1 < 4
      modifies topicTree, topicTree.view.members
      ensures topicTree.Valid() && topicTree.OnlyNewNodes()
      ensures topicTree.view.table == SubscribeAll(old(topicTree.view.table), client, subscriptions)
      ensures codes == ReasonCodes(subscriptions)
    {
      hide TopicTree.Valid;
      codes := [];
      for i := 0 to |subscriptions|
        invariant topicTree.Valid() && topicTree.OnlyNewNodes()
        invariant topicTree.view.table == SubscribeAll(old(topicTree.view.table), client, subscriptions[..i])
        invariant codes == ReasonCodes(subscriptions[..i])
      {
        OneMoreSubscription(old(topicTree.view.table), client, subscriptions, i);
        topicTree.Subscribe(client, subscriptions[i].0, subscriptions[i].1);
        codes := codes + [subscriptions[i].1];
      }
      assert subscriptions[..|subscriptions|] == subscriptions;
    }

    method HandleUnsubscribe(conn: ConnId, client: Str, pkt: Packet)
      requires Valid() && conn in outputs && WellParsed(pkt) && pkt.packetId.Some?
      modifies this`outputs, topicTree`view, topicTree.view.members
      ensures Valid() && topicTree.SameNodes()
      ensures Abs() == UnsubscribeStep(old(Abs()), conn, client, pkt)
    {
      hide SessionStore.Valid, TopicTree.Valid, UnsubscribeAll, BuildUnsuback;
      UnsubscribeEach(client, pkt.subscriptions);
      Send(conn, BuildUnsuback(pkt.packetId.value, |pkt.subscriptions|));
    }

    method UnsubscribeEach(client: Str, subscriptions: seq<(Str, nat)>)
      requires topicTree.Valid()
      modifies topicTree`view, topicTree.view.members
      ensures topicTree.Valid() && topicTree.SameNodes()
      ensures topicTree.view.table == UnsubscribeAll(old(topicTree.view.table), client, subscriptions)
    {
      for i := 0 to |subscriptions|
        invariant topicTree.Valid() && topicTree.SameNodes()
        invariant topicTree.view.table == UnsubscribeAll(old(topicTree.view.table), client, subscriptions[..i])
      {
        assert subscriptions[..i + 1][..i] == subscriptions[..i];
        topicTree.Unsubscribe(client, subscriptions[i].0);
      }
      assert subscriptions[..|subscriptions|] == subscriptions;
    }

    /** Sends the publication to one of the matched clients, unless it is the publisher or not connected. */
    method DeliverTo(ghost s: State, pkt: Packet, publisher: Option<Str>, ghost done: set<Str>, c: Str, qos: nat)
      requires store.Valid() && Inv(s) && WellParsed(pkt)
      requires Abs() == Delivered(s, pkt, publisher, done)
      requires c !in done && IsBest(s.table, Split(pkt.topic), c, qos)
      modifies this`outputs, this`delivered, store`view, store.members
      ensures store.Valid() && Abs() == Delivered(s, pkt, publisher, done + {c})
    {
      hide SessionStore.Valid, Delivered, Sent, Inv, BestQos, IsBest;
      BestIsUnique(s.table, Split(pkt.topic), c, qos);
      InvBoundsIds(s);
      DeliveredKeepsWriter(s, pkt, publisher, done, c);
      if Some(c) == publisher {
        DeliverToOther(s, pkt, publisher, done, c);
        return;
      }
      var writer := store.GetWriter(c);
      if writer.Some? {
        DeliverOneMore(s, pkt, publisher, done, c, writer.value);
        SendPublication(pkt, MinQos(pkt.qos, qos), c, writer.value);
      } else {
        DeliverToOther(s, pkt, publisher, done, c);
      }
    }

    method SendPublication(pkt: Packet, effective: Qos, c: Str, writer: ConnId)
      requires store.Valid() && WellParsed(pkt) && c in store.view && store.view[c].nextId < 65536 && writer in outputs
      modifies this`outputs, this`delivered, store`view, store.members
      ensures store.Valid() && Abs() == Sent(old(Abs()), pkt, c, writer, effective)
    {
      hide SessionStore.Valid, PacketParser.Framed, PacketParser.PublishBody, NextId;
      var pid: Option<nat> := None;
      if effective > 0 {
        var id := store.TakePacketId(c);
        pid := Some(id);
      }
      var pub := BuildPublish(pkt.topic, pkt.payload, effective, pid, pkt.retain);
      Send(writer, pub.value);
      delivered := delivered + 1;
    }

    method DeliverNth(ghost s: State, pkt: Packet, publisher: Option<Str>, subscribers: seq<(Str, nat)>, i: nat)
      requires store.Valid() && Inv(s) && WellParsed(pkt) && i < |subscribers|
      requires IsMatch(s.table, Split(pkt.topic), subscribers)
      requires Abs() == Delivered(s, pkt, publisher, Clients(subscribers, i))
      modifies this`outputs, this`delivered, store`view, store.members
      ensures store.Valid() && Abs() == Delivered(s, pkt, publisher, Clients(subscribers, i + 1))
    {
      var (c, qos) := subscribers[i];
      OneMoreClient(s.table, Split(pkt.topic), subscribers, i);
      DeliverTo(s, pkt, publisher, Clients(subscribers, i), c, qos);
    }

    /** The delivery loop over the matched clients. */
    method DeliverAll(pkt: Packet, publisher: Option<Str>, subscribers: seq<(Str, nat)>)
      requires store.Valid() && Inv(Abs()) && WellParsed(pkt)
      requires IsMatch(topicTree.view.table, Split(pkt.topic), subscribers)
      modifies this`outputs, this`delivered, store`view, store.members
      ensures store.Valid() && Abs() == Delivered(old(Abs()), pkt, publisher, old(store.view).Keys)
    {
      ghost var s := Abs();
      DeliveredToNone(s, pkt, publisher);
      assert Clients(subscribers, 0) == {};
      for i := 0 to |subscribers|
        invariant store.Valid() && Abs() == Delivered(s, pkt, publisher, Clients(subscribers, i))
      {
        DeliverNth(s, pkt, publisher, subscribers, i);
      }
      ReceiversAreMatched(s, pkt, publisher, subscribers);
      DeliveredToAll(s, pkt, publisher, Clients(subscribers, |subscribers|));
    }

    method Acknowledge(conn: ConnId, pkt: Packet)
      requires Valid() && conn in outputs && WellParsed(pkt)
      modifies this`outputs
      ensures Valid() && Abs() == Acknowledged(old(Abs()), conn, pkt)
    {
      if pkt.qos == 1 && pkt.packetId.Some? {
        Send(conn, BuildPuback(pkt.packetId.value));
      }
    }

    method CountPublication()
      requires Valid()
      modifies this`published
      ensures Valid() && Abs() == Published(old(Abs()))
    {
      published := published + 1;
    }

    /** Matches the topic and delivers to everyone it reaches. */
    method Deliver(publisher: Option<Str>, pkt: Packet)
      requires Valid() && Inv(Abs()) && WellParsed(pkt)
      modifies this`outputs, this`delivered, store`view, store.members
      ensures Valid()
      ensures Abs() == Delivered(old(Abs()), pkt, publisher, old(store.view).Keys)
    {
      hide SessionStore.Valid, TopicTree.Valid, Inv, Delivered, IsMatch;
      var subscribers := topicTree.Match(pkt.topic);
      DeliverAll(pkt, publisher, subscribers);
    }

    method HandlePublish(conn: ConnId, publisher: Option<Str>, pkt: Packet)
      requires Valid() && Inv(Abs()) && conn in outputs && WellParsed(pkt)
      modifies this`outputs, this`published, this`delivered, store`view, store.members
      ensures Valid()
      ensures Abs() == PublishStep(old(Abs()), conn, publisher, pkt)
    {
      hide SessionStore.Valid, TopicTree.Valid, Inv, Delivered;
      PublishedKeepsInv(Abs());
      InvBoundsIds(Abs());
      DeliveredKeepsOutputs(Published(Abs()), pkt, publisher, store.view.Keys);
      CountPublication();
      Deliver(publisher, pkt);
      Acknowledge(conn, pkt);
    }

    /** The cleanup when a connection ends. */
    method Cleanup(conn: ConnId, client: Option<Str>)
      requires Valid()
      modifies this`conns, topicTree`view, topicTree.view.members, store, store.members
      ensures Valid() && topicTree.SameNodes() && store.OnlyNewSessions()
      ensures Abs() == CloseStep(old(Abs()), conn, client)
    {
      hide SessionStore.Valid, TopicTree.Valid, RemoveSession, Without;
      conns := conns - {conn};
      if client.Some? {
        RemoveBoth(client.value);
      }
    }

    method RemoveBoth(client: Str)
      requires Valid()
      modifies topicTree`view, topicTree.view.members, store, store.members
      ensures Valid() && topicTree.SameNodes() && store.OnlyNewSessions()
      ensures store.view == RemoveSession(old(store.view), client)
      ensures topicTree.view.table == Without(old(topicTree.view.table), client)
    {
      hide SessionStore.Valid, TopicTree.Valid, RemoveSession, Without;
      store.Remove(client);
      topicTree.RemoveClient(client);
    }

    /** One packet of a connection whose handler holds `client`: the state takes exactly the packet's step. */
    method HandlePacket(conn: ConnId, client: Option<Str>, pkt: Packet, autoId: Str)
      returns (now: Option<Str>, raised: bool)
      requires Valid() && Inv(Abs()) && conn in conns && conns[conn] == client
      requires EventOf(conn, pkt, autoId).Some? ==> Legal(Abs(), EventOf(conn, pkt, autoId).value)
      modifies this, topicTree, topicTree.view.members, store, store.members
      ensures Valid() && topicTree.OnlyNewNodes() && store.OnlyNewSessions()
      ensures raised == (pkt.ptype == DISCONNECT)
      ensures Abs() == AfterPacket(old(Abs()), EventOf(conn, pkt, autoId))
      ensures now == if pkt.ptype == CONNECT then Some(ClientOf(pkt, autoId)) else client
    {
      hide SessionStore.Valid, TopicTree.Valid, Inv, Legal, ConnectStep, PublishStep, SubscribeStep, UnsubscribeStep;
      LegalNeeds(Abs(), EventOf(conn, pkt, autoId));
      now, raised := client, false;
      if pkt.ptype == CONNECT {
        now := Some(ClientOf(pkt, autoId));
        HandleConnect(conn, now.value, pkt.cleanSession);
      } else if pkt.ptype == PUBLISH {
        HandlePublish(conn, client, pkt);
      } else if pkt.ptype == SUBSCRIBE {
        HandleSubscribe(conn, client.value, pkt);
      } else if pkt.ptype == UNSUBSCRIBE {
        HandleUnsubscribe(conn, client.value, pkt);
      } else if pkt.ptype == PINGREQ {
        HandlePing(conn);
      } else if pkt.ptype == DISCONNECT {
        raised := true;
      }
    }
  }

  /** What a legal event's handler relies on. */
  lemma LegalNeeds(s: State, e: Option<Event>)
    requires Inv(s) && (e.Some? ==> Legal(s, e.value))
    ensures e.Some? ==>
      && (!e.value.Open? ==> e.value.conn in s.conns && e.value.conn in s.outputs)
      && (e.value.Publish? ==> WellParsed(e.value.pkt))
      && (e.value.Subscribe? || e.value.Unsubscribe? ==>
        s.conns[e.value.conn].Some? && WellParsed(e.value.pkt) && e.value.pkt.packetId.Some?)
  {
  }

  lemma PublishedKeepsInv(s: State)
    requires Inv(s)
    ensures Inv(Published(s))
  {
  }
}
