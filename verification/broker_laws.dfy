/** What each packet does to the broker, said of tables, sessions and bytes alone. */
module BrokerLaws {
  import opened Wrappers
  import opened Bytes
  import opened PacketParser
  import opened SessionStores
  import opened Topics
  import opened BrokerStates
  import opened BrokerSessions

  // ---------------------------------------------------------------- what a publication is sent as

  /** Some filter of `c` matches the topic, and `c` is not the publisher. */
  ghost predicate Reached(s: State, publisher: Option<Str>, topic: Str, c: Str) {
    Some(c) != publisher && exists f :: (f, c) in s.table && Matches(f, Split(topic))
  }

  /** The write is the publication, at a QoS no larger than the two and equal to one of them, with an identifier
      exactly when both are above 0. */
  ghost predicate Conveys(s: State, pkt: Packet, c: Str, data: seq<byte>) {
    Parse(data).Ok? &&
    var sent := Parse(data).packet;
    && sent.ptype == 3 && sent.topic == pkt.topic && sent.payload == pkt.payload && sent.retain == pkt.retain
    && sent.qos <= pkt.qos && (sent.packetId.Some? <==> sent.qos > 0)
    && forall q :: IsBest(s.table, Split(pkt.topic), c, q) ==>
      sent.qos <= q && (sent.qos == pkt.qos || sent.qos == q) && (sent.packetId.Some? <==> pkt.qos > 0 && q > 0)
  }

  /** Each reached client's connection is written one packet that conveys the publication; it carries the session's
      next identifier, and only then does the session move on, from 65535 back to 1. */
  lemma PublicationConveyed(s: State, conn: ConnId, pkt: Packet, c: Str)
    requires Inv(s) && Legal(s, Publish(conn, pkt)) && Reached(s, s.conns[conn], pkt.topic, c)
    ensures c in s.sessions && s.sessions[c].writer.Some?
    ensures var w, s', before := s.sessions[c].writer.value, Step(s, Publish(conn, pkt)), s.sessions[c];
            && w in s.outputs && w in s'.outputs && w != conn && c in s'.sessions
            && (exists data :: s'.outputs[w] == s.outputs[w] + [data] && Conveys(s, pkt, c, data) &&
                 var id := Parse(data).packet.packetId;
                 && (id.Some? ==> id == Some(before.nextId))
                 && s'.sessions[c] == before.(nextId :=
                      if id.None? then before.nextId else if before.nextId < 65535 then before.nextId + 1 else 1))
  {
    hide Parse, Conveys, Step, Inv, BestQos, Publication, NextId, MinQos, GrewBy;
    ReachedReceives(s, pkt, s.conns[conn], c);
    hide Reached, Receives, DeliveredOutput, DeliveredSession;
    PublishReaches(s, conn, pkt, c);
    PublishSession(s, conn, pkt, c);
    PublishOutput(s, conn, pkt, s.sessions[c].writer.value);
    var w, s', id := s.sessions[c].writer.value, Step(s, Publish(conn, pkt)), s.sessions[c].nextId;
    var best := BestQos(s.table, Split(pkt.topic), c);
    var data := Publication(pkt, MinQos(pkt.qos, best), id);
    NextIdCounts(id);
    ConveysAtBest(s, pkt, c, data, best);
    Grew(s.outputs[w], s'.outputs[w], data);
    assert s'.outputs[w] == s.outputs[w] + [data];
  }

  lemma ReachedReceives(s: State, pkt: Packet, publisher: Option<Str>, c: Str)
    requires Inv(s) && Reached(s, publisher, pkt.topic, c)
    ensures Receives(s, pkt, publisher, c) && Subscribed(s.table, Split(pkt.topic), c)
    ensures c in s.sessions && s.sessions[c].writer.Some? && 1 <= s.sessions[c].nextId <= 65535
  {
    SubscribedReceives(s, pkt, publisher, c);
  }

  lemma Grew(before: seq<seq<byte>>, after: seq<seq<byte>>, data: seq<byte>)
    ensures GrewBy(before, after, data) <==> after == before + [data]
  {
  }

  lemma ConveysAtBest(s: State, pkt: Packet, c: Str, data: seq<byte>, best: nat)
    requires WellParsed(pkt) && IsBest(s.table, Split(pkt.topic), c, best)
    requires Parse(data).Ok?
    requires var sent := Parse(data).packet;
             sent.ptype == PUBLISH && sent.topic == pkt.topic && sent.payload == pkt.payload &&
             sent.retain == pkt.retain && sent.qos == MinQos(pkt.qos, best) && (sent.packetId.Some? <==> sent.qos > 0)
    ensures Conveys(s, pkt, c, data)
  {
    hide Parse;
    forall q | IsBest(s.table, Split(pkt.topic), c, q)
      ensures q == best
    {
      BestIsUnique(s.table, Split(pkt.topic), c, q);
      BestIsUnique(s.table, Split(pkt.topic), c, best);
    }
  }

  lemma NextIdCounts(id: nat)
    requires 1 <= id <= 65535
    ensures NextId(id) == if id < 65535 then id + 1 else 1
  {
  }

  // ---------------------------------------------------------------- answers

  /** A packet with the given first byte, an identifier, no properties and `n` codes behind them. */
  predicate Answers(sent: seq<byte>, first: byte, id: nat, n: nat) {
    && |sent| > n && sent[0] == first
    && var header := DecodeLength(sent, 1);
    && header.Some? && header.value.0 == n + 3 && header.value.1 + n + 3 == |sent|
    && U16At(sent, header.value.1) == Some(id) && sent[|sent| - n - 1] == 0
  }

  function CodeAt(sent: seq<byte>, n: nat, i: nat): byte
    requires i < n <= |sent|
  {
    sent[|sent| - n + i]
  }

  lemma FramedAnswers(first: byte, id: nat, codes: seq<byte>)
    requires id < 65536
    ensures var sent, n := Framed(first, U16(id) + [0] + codes), |codes|;
            Answers(sent, first, id, n) && forall i :: 0 <= i < n ==> CodeAt(sent, n, i) == codes[i]
  {
    hide EncodeLength, DecodeLength, Framed;
    var body, n := U16(id) + [0] + codes, |codes|;
    var sent, at := Framed(first, body), 1 + |EncodeLength(|body|)|;
    FramedRoundTrip(first, body, []);
    BodyStands(first, body, []);
    assert sent + [] == sent;
    assert sent[at + 0] == body[0] && sent[at + 1] == body[1] && sent[at + 2] == body[2];
    forall i | 0 <= i < n
      ensures CodeAt(sent, n, i) == codes[i]
    {
      assert sent[at + (3 + i)] == body[3 + i];
    }
  }

  // ---------------------------------------------------------------- what a packet does

  /** The packet, arriving on the connection, is one the state machine takes. */
  ghost predicate Taken(s: State, conn: ConnId, pkt: Packet, autoId: Str) {
    && Inv(s) && conn in s.conns
    && (EventOf(conn, pkt, autoId).Some? ==> Legal(s, EventOf(conn, pkt, autoId).value))
  }

  ghost function After(s: State, conn: ConnId, pkt: Packet, autoId: Str): State
    requires Taken(s, conn, pkt, autoId)
  {
    AfterPacket(s, EventOf(conn, pkt, autoId))
  }

  /** One connection was written to, and no other. */
  ghost predicate OnlyWrote(s: State, s': State, conn: ConnId, data: seq<byte>) {
    conn in s.outputs && s'.outputs == s.outputs[conn := s.outputs[conn] + [data]]
  }

  predicate SameSession(before: map<Str, SessionState>, after: map<Str, SessionState>, d: Str) {
    (d in after <==> d in before) && (d in before ==> after[d] == before[d])
  }

  /** A clean session is gone; another has lost its writer and nothing else. */
  predicate SessionLeft(before: map<Str, SessionState>, after: map<Str, SessionState>, d: Str) {
    && d in before
    && (if before[d].clean then d !in after else d in after && after[d] == before[d].(writer := None))
  }

  /** SUBSCRIBE makes exactly the listed filters live, each with the QoS it lists last, and grants that QoS. */
  lemma SubscribePacket(s: State, conn: ConnId, pkt: Packet, autoId: Str, d: Str, filter: Str, qos: nat)
    requires Taken(s, conn, pkt, autoId) && pkt.ptype == 8
    ensures s.conns[conn].Some? && pkt.packetId.Some?
    ensures var s', c := After(s, conn, pkt, autoId), s.conns[conn].value;
            && s'.sessions == s.sessions && s'.conns == s.conns && s'.stats == s.stats
            && (Holds(s'.table, d, filter, qos) <==>
                if d == c && Listed(pkt.subscriptions, filter) then LastListed(pkt.subscriptions, filter, qos)
                else Holds(s.table, d, filter, qos))
            && exists sent :: OnlyWrote(s, s', conn, sent) &&
                 var n := |pkt.subscriptions|;
                 Answers(sent, 0x90, pkt.packetId.value, n) &&
                 forall i :: 0 <= i < n ==> CodeAt(sent, n, i) == pkt.subscriptions[i].1
  {
    var id, subs := pkt.packetId.value, pkt.subscriptions;
    var codes := ReasonCodes(subs);
    SubscribeTakesEffect(s.table, s.conns[conn].value, subs, filter, d, qos);
    FramedAnswers(0x90, id, codes);
    var sent := BuildSuback(id, codes);
    hide Framed, Inv, SubscribeAll;
    assert OnlyWrote(s, After(s, conn, pkt, autoId), conn, sent);
  }

  /** UNSUBSCRIBE ends exactly the listed filters of the connection's client, and answers each with success. */
  lemma UnsubscribePacket(s: State, conn: ConnId, pkt: Packet, autoId: Str, d: Str, filter: Str, qos: nat)
    requires Taken(s, conn, pkt, autoId) && pkt.ptype == 10
    ensures s.conns[conn].Some? && pkt.packetId.Some?
    ensures var s', c := After(s, conn, pkt, autoId), s.conns[conn].value;
            && s'.sessions == s.sessions && s'.conns == s.conns && s'.stats == s.stats
            && (Holds(s'.table, d, filter, qos) <==>
                Holds(s.table, d, filter, qos) && !(d == c && Listed(pkt.subscriptions, filter)))
            && exists sent :: OnlyWrote(s, s', conn, sent) &&
                 var n := |pkt.subscriptions|;
                 Answers(sent, 0xB0, pkt.packetId.value, n) && forall i :: 0 <= i < n ==> CodeAt(sent, n, i) == 0
  {
    var id, subs := pkt.packetId.value, pkt.subscriptions;
    UnsubscribeTakesEffect(s.table, s.conns[conn].value, subs, filter, d, qos);
    var codes := seq<byte>(|subs|, _ => 0);
    FramedAnswers(0xB0, id, codes);
    var sent := BuildUnsuback(id, |subs|);
    hide Framed, Inv, UnsubscribeAll;
    assert OnlyWrote(s, After(s, conn, pkt, autoId), conn, sent);
  }

  /** CONNECT binds the connection to the id it brings, or to the generated one when it brings none. A clean or new
      session starts with the packet's flag and identifier 1; another keeps both, and its writer is this connection. */
  lemma ConnectPacketJoins(s: State, conn: ConnId, pkt: Packet, autoId: Str, d: Str)
    requires Taken(s, conn, pkt, autoId) && pkt.ptype == 1
    ensures var s' := After(s, conn, pkt, autoId);
            && (pkt.clientId != [] ==> s'.conns == s.conns[conn := Some(pkt.clientId)])
            && (pkt.clientId == [] ==> s'.conns == s.conns[conn := Some(autoId)])
            && s'.table == s.table && OnlyWrote(s, s', conn, [0x20, 3, 0, 0, 0])
            && conn in s'.conns && s'.conns[conn].Some?
            && var c := s'.conns[conn].value;
               c in s'.sessions && s'.sessions[c].writer == Some(conn)
               && (pkt.cleanSession || c !in s.sessions ==>
                     s'.sessions[c].clean == pkt.cleanSession && s'.sessions[c].nextId == 1)
               && (!pkt.cleanSession && c in s.sessions ==>
                     s'.sessions[c].clean == s.sessions[c].clean && s'.sessions[c].nextId == s.sessions[c].nextId)
               && (d != c ==> SameSession(s.sessions, s'.sessions, d))
  {
    assert BuildConnack(false, 0) == [0x20, 3, 0, 0, 0];
  }

  /** PINGREQ is answered and changes nothing else. */
  lemma PingPacket(s: State, conn: ConnId, pkt: Packet, autoId: Str)
    requires Taken(s, conn, pkt, autoId) && pkt.ptype == 12
    ensures conn in s.outputs
    ensures After(s, conn, pkt, autoId) == s.(outputs := s.outputs[conn := s.outputs[conn] + [[0xD0, 0]]])
  {
  }

  /** PUBLISH leaves subscriptions, connections and the sessions' clients alone. */
  lemma PublishPacketKeeps(s: State, conn: ConnId, pkt: Packet, autoId: Str)
    requires Taken(s, conn, pkt, autoId) && pkt.ptype == 3
    ensures var s' := After(s, conn, pkt, autoId);
            && s'.table == s.table && s'.conns == s.conns && s'.sessions.Keys == s.sessions.Keys
            && s'.stats.published == s.stats.published + 1 && s'.stats.connected == s.stats.connected
  {
  }

  /** Any other packet changes nothing. */
  lemma OtherPacketKeeps(s: State, conn: ConnId, pkt: Packet, autoId: Str)
    requires Taken(s, conn, pkt, autoId) && pkt.ptype !in {1, 3, 8, 10, 12}
    ensures After(s, conn, pkt, autoId) == s
  {
  }

  /** When a connection ends, its client's subscriptions go, a clean session goes with them, and another session
      keeps all but its writer. */
  lemma CloseForgets(s: State, conn: ConnId, f: seq<Str>, d: Str)
    requires Inv(s) && Legal(s, Close(conn))
    ensures var s' := Step(s, Close(conn));
            && s'.conns == s.conns - {conn} && s'.outputs == s.outputs && s'.stats == s.stats
            && ((f, d) in s'.table <==> (f, d) in s.table && Some(d) != s.conns[conn])
            && ((f, d) in s'.table ==> s'.table[(f, d)] == s.table[(f, d)])
            && (Some(d) != s.conns[conn] ==> SameSession(s.sessions, s'.sessions, d))
            && (Some(d) == s.conns[conn] ==> SessionLeft(s.sessions, s'.sessions, d))
  {
    assert Some(d) == s.conns[conn] ==> Owns(s.conns, conn, d) && WritesTo(s.sessions, d, conn);
  }

  // ---------------------------------------------------------------- the counters

  /** The clients a publication is sent to. */
  ghost function ReachedBy(s: State, e: Event): set<Str>
    requires Inv(s) && Legal(s, e)
  {
    if e.Publish? then set c | c in s.sessions && Reached(s, s.conns[e.conn], e.pkt.topic, c) else {}
  }

  /** Publications, deliveries and CONNECTs of a run. */
  ghost function Tally(s: State, events: seq<Event>): (nat, nat, nat)
    requires Inv(s) && LegalRun(s, events)
    decreases |events|
  {
    if events == [] then (0, 0, 0)
    else
      StepKeepsInv(s, events[0]);
      var rest := Tally(Step(s, events[0]), events[1..]);
      (rest.0 + (if events[0].Publish? then 1 else 0),
       rest.1 + |ReachedBy(s, events[0])|,
       rest.2 + (if events[0].Connect? then 1 else 0))
  }

  lemma StepCounts(s: State, e: Event)
    requires Inv(s) && Legal(s, e)
    ensures var stats, stats' := s.stats, Step(s, e).stats;
            && stats'.published == stats.published + (if e.Publish? then 1 else 0)
            && stats'.delivered == stats.delivered + |ReachedBy(s, e)|
            && stats'.connected == stats.connected + (if e.Connect? then 1 else 0)
  {
    if e.Publish? {
      forall c | c in s.sessions
        ensures Receives(s, e.pkt, s.conns[e.conn], c) <==> Reached(s, s.conns[e.conn], e.pkt.topic, c)
      {
        SubscribedReceives(s, e.pkt, s.conns[e.conn], c);
      }
      SameReceivers(s, e.pkt, s.conns[e.conn]);
      assert Receivers(Published(s), e.pkt, s.conns[e.conn], s.sessions.Keys) == ReachedBy(s, e);
    }
  }

  lemma SameReceivers(s: State, pkt: Packet, publisher: Option<Str>)
    ensures Receivers(Published(s), pkt, publisher, s.sessions.Keys) == Receivers(s, pkt, publisher, s.sessions.Keys)
  {
  }

  /** The broker's counters are those of the run. */
  lemma {:induction false} StatsFollowRun(s: State, events: seq<Event>)
    requires Inv(s) && LegalRun(s, events)
    ensures var tally, stats := Tally(s, events), Run(s, events).stats;
            && stats.published == s.stats.published + tally.0
            && stats.delivered == s.stats.delivered + tally.1
            && stats.connected == s.stats.connected + tally.2
    decreases |events|
  {
    hide Inv, Legal, Step, ReachedBy;
    if events != [] {
      StepKeepsInv(s, events[0]);
      StepCounts(s, events[0]);
      StatsFollowRun(Step(s, events[0]), events[1..]);
    }
  }
}
