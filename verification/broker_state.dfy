/** The broker as a state machine over values: what each packet does, what every run keeps. */
module BrokerStates {
  import opened Wrappers
  import opened Bytes
  import opened PacketParser
  import opened SessionStores
  import opened Topics

  datatype Stats = Stats(published: nat, delivered: nat, connected: nat)

  /** `conns` are the live connections with the client id each one has taken; `outputs` is everything
      ever written to each connection, live or not. */
  datatype State = State(
    table: Table,
    sessions: map<Str, SessionState>,
    conns: map<ConnId, Option<Str>>,
    outputs: map<ConnId, seq<seq<byte>>>,
    stats: Stats)

  const START: State := State(map[], map[], map[], map[], Stats(0, 0, 0))

  // ---------------------------------------------------------------- events

  datatype Event =
    | Open(conn: ConnId)
    | Connect(conn: ConnId, client: Str, clean: bool)
    | Publish(conn: ConnId, pkt: Packet)
    | Subscribe(conn: ConnId, pkt: Packet)
    | Unsubscribe(conn: ConnId, pkt: Packet)
    | Ping(conn: ConnId)
    | Close(conn: ConnId)

  /** The ranges every parsed packet has. */
  predicate WellParsed(pkt: Packet) {
    && |pkt.topic| < 65536 && pkt.qos < 4
    && (pkt.packetId.Some? ==> pkt.packetId.value < 65536)
    && forall i :: 0 <= i < |pkt.subscriptions| ==> pkt.subscriptions[i].1 < 4
  }

  /** A connection connects once, first, under an id no live connection uses. */
  predicate Legal(s: State, e: Event) {
    match e
    case Open(conn) => conn !in s.outputs
    case Connect(conn, client, _) =>
      && conn in s.conns && s.conns[conn] == None && client != []
      && forall d :: d in s.conns ==> s.conns[d] != Some(client)
    case Publish(conn, pkt) => conn in s.conns && WellParsed(pkt)
    case Subscribe(conn, pkt) => conn in s.conns && s.conns[conn].Some? && WellParsed(pkt) && pkt.packetId.Some?
    case Unsubscribe(conn, pkt) => conn in s.conns && s.conns[conn].Some? && WellParsed(pkt) && pkt.packetId.Some?
    case Ping(conn) => conn in s.conns
    case Close(conn) => conn in s.conns
  }

  lemma DecodedStringBound(data: seq<byte>, offset: nat)
    requires DecodeString(data, offset).Some?
    ensures |DecodeString(data, offset).value.0| < 65536
  {
  }

  lemma {:induction false} ParsedFiltersBound(body: seq<byte>, pos: nat, withQos: bool)
    requires ParseFilters(body, pos, withQos).Some?
    ensures forall i :: 0 <= i < |ParseFilters(body, pos, withQos).value| ==>
      ParseFilters(body, pos, withQos).value[i].1 < 4
    decreases |body| - pos
  {
    if pos < |body| {
      var (filter, after) := ParseFilter(body, pos, withQos).value;
      ParsedFiltersBound(body, after, withQos);
    }
  }

  lemma PublishBound(pkt: Packet, body: seq<byte>)
    requires ParsePublish(pkt, body).Some? && pkt.subscriptions == []
    ensures WellParsed(ParsePublish(pkt, body).value)
  {
    DecodedStringBound(body, 0);
  }

  lemma SubscriptionsBound(pkt: Packet, body: seq<byte>, withQos: bool)
    requires ParseSubscriptions(pkt, body, withQos).Some? && pkt.topic == [] && pkt.qos == 0
    ensures WellParsed(ParseSubscriptions(pkt, body, withQos).value)
    ensures ParseSubscriptions(pkt, body, withQos).value.packetId.Some?
  {
    var (propLen, pos) := DecodeLength(body, 2).value;
    ParsedFiltersBound(body, pos + propLen, withQos);
  }

  /** Whatever the parser accepts is within these ranges, and SUBSCRIBE and UNSUBSCRIBE carry an id. */
  lemma ParsedIsWellParsed(data: seq<byte>)
    requires Parse(data).Ok?
    ensures WellParsed(Parse(data).packet)
    ensures Parse(data).packet.ptype == SUBSCRIBE || Parse(data).packet.ptype == UNSUBSCRIBE ==>
      Parse(data).packet.packetId.Some?
  {
    var (length, offset) := DecodeLength(data, 1).value;
    var pkt, body := BlankPacket(data[0] / 16, data[0] % 16), Slice(data, offset, offset + length);
    if pkt.ptype == PUBLISH {
      PublishBound(pkt, body);
    } else if pkt.ptype == SUBSCRIBE || pkt.ptype == UNSUBSCRIBE {
      SubscriptionsBound(pkt, body, pkt.ptype == SUBSCRIBE);
    }
  }

  // ---------------------------------------------------------------- effects

  function Write(s: State, conn: ConnId, data: seq<byte>): State
    requires conn in s.outputs
  {
    s.(outputs := s.outputs[conn := s.outputs[conn] + [data]])
  }

  function SubscribeAll(table: Table, client: Str, subscriptions: seq<(Str, nat)>): Table {
    if subscriptions == [] then table
    else
      var last := |subscriptions| - 1;
      var before := SubscribeAll(table, client, subscriptions[..last]);
      before[(Split(subscriptions[last].0), client) := subscriptions[last].1]
  }

  function UnsubscribeAll(table: Table, client: Str, subscriptions: seq<(Str, nat)>): Table {
    if subscriptions == [] then table
    else
      var last := |subscriptions| - 1;
      UnsubscribeAll(table, client, subscriptions[..last]) - {(Split(subscriptions[last].0), client)}
  }

  function ReasonCodes(subscriptions: seq<(Str, nat)>): seq<byte>
    requires forall i :: 0 <= i < |subscriptions| ==> subscriptions[i].1 < 4
  {
    seq<byte>(|subscriptions|, i requires 0 <= i < |subscriptions| => subscriptions[i].1)
  }

  /** The QoS values `c` could receive a topic with. */
  ghost function MatchingQos(table: Table, topic: seq<Str>, c: Str): set<nat> {
    set k | k in table && k.1 == c && Matches(k.0, topic) :: table[k]
  }

  ghost function Largest(values: set<nat>): (m: nat)
    requires values != {}
    ensures m in values && forall v :: v in values ==> v <= m
  {
    var v :| v in values;
    if values == {v} then v
    else
      var m := Largest(values - {v});
      assert forall w :: w in values ==> w == v || w in values - {v};
      if m > v then m else v
  }

  ghost function BestQos(table: Table, topic: seq<Str>, c: Str): (q: nat)
    requires Subscribed(table, topic, c)
    ensures IsBest(table, topic, c, q)
  {
    var f :| (f, c) in table && Matches(f, topic);
    assert table[(f, c)] in MatchingQos(table, topic, c);
    var q := Largest(MatchingQos(table, topic, c));
    assert forall g :: (g, c) in table && Matches(g, topic) ==> table[(g, c)] in MatchingQos(table, topic, c);
    q
  }

  lemma BestIsUnique(table: Table, topic: seq<Str>, c: Str, q: nat)
    requires IsBest(table, topic, c, q)
    ensures Subscribed(table, topic, c) && BestQos(table, topic, c) == q
  {
  }

  /** `c` is sent the publication: it has a matching filter, is connected, and is not the publisher. */
  ghost predicate Receives(s: State, pkt: Packet, publisher: Option<Str>, c: Str) {
    && Some(c) != publisher
    && Subscribed(s.table, Split(pkt.topic), c)
    && c in s.sessions && s.sessions[c].writer.Some?
  }

  function MinQos(a: nat, b: nat): (q: Qos)
    requires a < 4
  {
    if a <= b then a else b
  }

  ghost function EffectiveQos(s: State, pkt: Packet, c: Str): Qos
    requires pkt.qos < 4 && Subscribed(s.table, Split(pkt.topic), c)
  {
    MinQos(pkt.qos, BestQos(s.table, Split(pkt.topic), c))
  }

  /** The bytes sent for a publication at a given QoS by a session about to use `nextId`. */
  function Publication(pkt: Packet, qos: Qos, nextId: nat): seq<byte>
    requires WellParsed(pkt) && nextId < 65536
  {
    BuildPublish(pkt.topic, pkt.payload, qos, if qos > 0 then Some(nextId) else None, pkt.retain).value
  }

  ghost function DeliveredSession(s: State, pkt: Packet, publisher: Option<Str>, c: Str, done: set<Str>): SessionState
    requires pkt.qos < 4 && c in s.sessions
  {
    if c in done && Receives(s, pkt, publisher, c) && EffectiveQos(s, pkt, c) > 0
    then s.sessions[c].(nextId := NextId(s.sessions[c].nextId)) else s.sessions[c]
  }

  /** Sessions hand out identifiers in 1..65535. */
  ghost predicate IdsBounded(sessions: map<Str, SessionState>) {
    forall c {:trigger sessions[c]} :: c in sessions ==> 1 <= sessions[c].nextId <= 65535
  }

  ghost function DeliveredOutput(s: State, pkt: Packet, publisher: Option<Str>, w: ConnId,
      done: set<Str>): seq<seq<byte>>
    requires WellParsed(pkt) && IdsBounded(s.sessions) && w in s.outputs
  {
    if w in s.conns && s.conns[w].Some? && s.conns[w].value in done && Receives(s, pkt, publisher, s.conns[w].value)
    then
      var c := s.conns[w].value;
      s.outputs[w] + [Publication(pkt, EffectiveQos(s, pkt, c), s.sessions[c].nextId)]
    else s.outputs[w]
  }

  ghost function Receivers(s: State, pkt: Packet, publisher: Option<Str>, done: set<Str>): set<Str> {
    set c | c in s.sessions && c in done && Receives(s, pkt, publisher, c)
  }

  /** The state when a publication has been delivered to the clients in `done`. */
  ghost function Delivered(s: State, pkt: Packet, publisher: Option<Str>, done: set<Str>): State
    requires WellParsed(pkt) && IdsBounded(s.sessions)
  {
    s.(sessions := map c | c in s.sessions :: DeliveredSession(s, pkt, publisher, c, done),
       outputs := map w | w in s.outputs :: DeliveredOutput(s, pkt, publisher, w, done),
       stats := s.stats.(delivered := s.stats.delivered + |Receivers(s, pkt, publisher, done)|))
  }

  ghost function Acknowledged(s: State, conn: ConnId, pkt: Packet): State
    requires WellParsed(pkt) && conn in s.outputs
  {
    if pkt.qos == 1 && pkt.packetId.Some? then Write(s, conn, BuildPuback(pkt.packetId.value)) else s
  }

  ghost function Published(s: State): State {
    s.(stats := s.stats.(published := s.stats.published + 1))
  }

  function OpenStep(s: State, conn: ConnId): State {
    s.(conns := s.conns[conn := None], outputs := s.outputs[conn := []])
  }

  function Joined(s: State, conn: ConnId, client: Str, clean: bool): State {
    s.(sessions := CreateSession(s.sessions, client, clean, conn), conns := s.conns[conn := Some(client)],
       stats := s.stats.(connected := s.stats.connected + 1))
  }

  function ConnectStep(s: State, conn: ConnId, client: Str, clean: bool): State
    requires conn in s.outputs
  {
    Write(Joined(s, conn, client, clean), conn, BuildConnack(false, 0))
  }

  ghost function PublishStep(s: State, conn: ConnId, publisher: Option<Str>, pkt: Packet): State
    requires conn in s.outputs && WellParsed(pkt) && IdsBounded(s.sessions)
  {
    Acknowledged(Delivered(Published(s), pkt, publisher, s.sessions.Keys), conn, pkt)
  }

  function SubscribeStep(s: State, conn: ConnId, client: Str, pkt: Packet): State
    requires conn in s.outputs && WellParsed(pkt) && pkt.packetId.Some?
  {
    var s' := s.(table := SubscribeAll(s.table, client, pkt.subscriptions));
    Write(s', conn, BuildSuback(pkt.packetId.value, ReasonCodes(pkt.subscriptions)))
  }

  function UnsubscribeStep(s: State, conn: ConnId, client: Str, pkt: Packet): State
    requires conn in s.outputs && WellParsed(pkt) && pkt.packetId.Some?
  {
    var s' := s.(table := UnsubscribeAll(s.table, client, pkt.subscriptions));
    Write(s', conn, BuildUnsuback(pkt.packetId.value, |pkt.subscriptions|))
  }

  function CloseStep(s: State, conn: ConnId, client: Option<Str>): State {
    var s' := s.(conns := s.conns - {conn});
    if client.None? then s'
    else s'.(sessions := RemoveSession(s.sessions, client.value), table := Without(s.table, client.value))
  }

  ghost function Step(s: State, e: Event): State
    requires Legal(s, e) && Inv(s)
  {
    match e
    case Open(conn) => OpenStep(s, conn)
    case Connect(conn, client, clean) => ConnectStep(s, conn, client, clean)
    case Publish(conn, pkt) => PublishStep(s, conn, s.conns[conn], pkt)
    case Subscribe(conn, pkt) => SubscribeStep(s, conn, s.conns[conn].value, pkt)
    case Unsubscribe(conn, pkt) => UnsubscribeStep(s, conn, s.conns[conn].value, pkt)
    case Ping(conn) => Write(s, conn, PINGRESP)
    case Close(conn) => CloseStep(s, conn, s.conns[conn])
  }

  function ClientOf(pkt: Packet, autoId: Str): Str {
    if pkt.clientId != [] then pkt.clientId else autoId
  }

  /** The event a packet stands for, if it has any effect on the state. */
  function EventOf(conn: ConnId, pkt: Packet, autoId: Str): Option<Event> {
    if pkt.ptype == CONNECT then Some(Connect(conn, ClientOf(pkt, autoId), pkt.cleanSession))
    else if pkt.ptype == PUBLISH then Some(Event.Publish(conn, pkt))
    else if pkt.ptype == SUBSCRIBE then Some(Event.Subscribe(conn, pkt))
    else if pkt.ptype == UNSUBSCRIBE then Some(Event.Unsubscribe(conn, pkt))
    else if pkt.ptype == PINGREQ then Some(Ping(conn))
    else None
  }

  ghost function AfterPacket(s: State, e: Option<Event>): State
    requires Inv(s) && (e.Some? ==> Legal(s, e.value))
  {
    match e
    case None => s
    case Some(event) => Step(s, event)
  }

  // ---------------------------------------------------------------- what every run keeps

  /** Live connection `w` has taken client id `c`. */
  ghost predicate Owns(conns: map<ConnId, Option<Str>>, w: ConnId, c: Str) {
    w in conns && conns[w] == Some(c)
  }

  /** The session of `c` writes to connection `w`. */
  ghost predicate WritesTo(sessions: map<Str, SessionState>, c: Str, w: ConnId) {
    c in sessions && sessions[c].writer == Some(w)
  }

  /** Live connections and sessions with a writer name each other; every client in the tree has one. */
  ghost predicate Inv(s: State) {
    && s.conns.Keys <= s.outputs.Keys
    && (forall w, c {:trigger Owns(s.conns, w, c)} {:trigger WritesTo(s.sessions, c, w)} ::
          Owns(s.conns, w, c) <==> WritesTo(s.sessions, c, w))
    && (forall k {:trigger k in s.table} :: k in s.table ==> k.1 in s.sessions && s.sessions[k.1].writer.Some?)
    && IdsBounded(s.sessions)
  }

  lemma DeliveredKeepsInv(s: State, pkt: Packet, publisher: Option<Str>, done: set<Str>)
    requires WellParsed(pkt) && Inv(s)
    ensures Inv(Delivered(s, pkt, publisher, done))
  {
    var s' := Delivered(s, pkt, publisher, done);
    forall w, c
      ensures Owns(s'.conns, w, c) <==> WritesTo(s'.sessions, c, w)
    {
      assert WritesTo(s'.sessions, c, w) <==> WritesTo(s.sessions, c, w);
    }
  }

  lemma ConnectKeepsInv(s: State, e: Event)
    requires Inv(s) && Legal(s, e) && e.Connect?
    ensures Inv(Step(s, e))
  {
    var s' := Step(s, e);
    if e.client in s.sessions && s.sessions[e.client].writer.Some? {
      assert WritesTo(s.sessions, e.client, s.sessions[e.client].writer.value);
      assert false;
    }
    forall w, c
      ensures Owns(s'.conns, w, c) <==> WritesTo(s'.sessions, c, w)
    {
      assert Owns(s.conns, w, c) <==> WritesTo(s.sessions, c, w);
    }
  }

  lemma {:induction false} SubscribeAllKeys(table: Table, client: Str, subscriptions: seq<(Str, nat)>)
    ensures forall k :: k in SubscribeAll(table, client, subscriptions) ==> k in table || k.1 == client
    ensures forall k :: k in UnsubscribeAll(table, client, subscriptions) ==> k in table
  {
    if subscriptions != [] {
      SubscribeAllKeys(table, client, subscriptions[..|subscriptions| - 1]);
    }
  }

  lemma CloseKeepsInv(s: State, e: Event)
    requires Inv(s) && Legal(s, e) && e.Close?
    ensures Inv(Step(s, e))
  {
    var s' := Step(s, e);
    if s.conns[e.conn].Some? {
      assert Owns(s.conns, e.conn, s.conns[e.conn].value);
    }
    forall w, c
      ensures Owns(s'.conns, w, c) <==> WritesTo(s'.sessions, c, w)
    {
      assert Owns(s.conns, w, c) <==> WritesTo(s.sessions, c, w);
    }
  }

  lemma SubscribeKeepsInv(s: State, e: Event)
    requires Inv(s) && Legal(s, e) && (e.Subscribe? || e.Unsubscribe?)
    ensures Inv(Step(s, e))
  {
    assert Owns(s.conns, e.conn, s.conns[e.conn].value);
    SubscribeAllKeys(s.table, s.conns[e.conn].value, e.pkt.subscriptions);
  }

  lemma OpenKeepsInv(s: State, e: Event)
    requires Inv(s) && Legal(s, e) && e.Open?
    ensures Inv(Step(s, e))
  {
    var s' := Step(s, e);
    forall w, c
      ensures Owns(s'.conns, w, c) <==> WritesTo(s'.sessions, c, w)
    {
      assert Owns(s.conns, w, c) <==> WritesTo(s.sessions, c, w);
    }
  }

  lemma StepKeepsInv(s: State, e: Event)
    requires Inv(s) && Legal(s, e)
    ensures Inv(Step(s, e))
  {
    match e
    case Open(_) => OpenKeepsInv(s, e);
    case Connect(_, _, _) => ConnectKeepsInv(s, e);
    case Publish(conn, pkt) => DeliveredKeepsInv(Published(s), pkt, s.conns[conn], s.sessions.Keys);
    case Subscribe(_, _) => SubscribeKeepsInv(s, e);
    case Unsubscribe(_, _) => SubscribeKeepsInv(s, e);
    case Ping(_) =>
    case Close(_) => CloseKeepsInv(s, e);
  }

  ghost predicate LegalRun(s: State, events: seq<Event>)
    requires Inv(s)
    decreases |events|
  {
    if events == [] then true
    else if !Legal(s, events[0]) then false
    else
      StepKeepsInv(s, events[0]);
      LegalRun(Step(s, events[0]), events[1..])
  }

  ghost function Run(s: State, events: seq<Event>): (s': State)
    requires Inv(s) && LegalRun(s, events)
    ensures Inv(s')
    decreases |events|
  {
    if events == [] then s
    else
      StepKeepsInv(s, events[0]);
      Run(Step(s, events[0]), events[1..])
  }

  /** In every reachable state, each client the tree holds has a session whose writer is a live
      connection of that client. */
  lemma TreeClientsAreConnected(events: seq<Event>, f: seq<Str>, c: Str)
    requires LegalRun(START, events) && (f, c) in Run(START, events).table
    ensures var s := Run(START, events);
            c in s.sessions && s.sessions[c].writer.Some? &&
            s.sessions[c].writer.value in s.conns && s.conns[s.sessions[c].writer.value] == Some(c)
  {
    var s := Run(START, events);
    assert (f, c) in s.table;
    assert WritesTo(s.sessions, c, s.sessions[c].writer.value);
  }

  // ---------------------------------------------------------------- after a connection ends

  /** No topic reaches the client. */
  ghost predicate Silent(table: Table, c: Str) {
    forall k :: k in table ==> k.1 != c
  }

  lemma SilentIsUnmatched(table: Table, c: Str, topic: seq<Str>, pairs: seq<(Str, nat)>)
    requires Silent(table, c) && IsMatch(table, topic, pairs)
    ensures forall i :: 0 <= i < |pairs| ==> pairs[i].0 != c
  {
    forall i | 0 <= i < |pairs|
      ensures pairs[i].0 != c
    {
      var f :| (f, pairs[i].0) in table && Matches(f, topic) && table[(f, pairs[i].0)] == pairs[i].1;
    }
  }

  ghost predicate SubscribesAs(s: State, e: Event, c: Str) {
    e.Subscribe? && e.conn in s.conns && s.conns[e.conn] == Some(c)
  }

  lemma StepKeepsSilent(s: State, e: Event, c: Str)
    requires Inv(s) && Legal(s, e) && Silent(s.table, c) && !SubscribesAs(s, e, c)
    ensures Silent(Step(s, e).table, c)
  {
    if e.Subscribe? || e.Unsubscribe? {
      SubscribeAllKeys(s.table, s.conns[e.conn].value, e.pkt.subscriptions);
    }
  }

  /** No step of the run subscribes for the client. */
  ghost predicate NeverSubscribes(s: State, events: seq<Event>, c: Str)
    requires Inv(s) && LegalRun(s, events)
    decreases |events|
  {
    if events == [] then true
    else
      StepKeepsInv(s, events[0]);
      !SubscribesAs(s, events[0], c) && NeverSubscribes(Step(s, events[0]), events[1..], c)
  }

  lemma {:induction false} RunKeepsSilent(s: State, events: seq<Event>, c: Str)
    requires Inv(s) && LegalRun(s, events) && NeverSubscribes(s, events, c) && Silent(s.table, c)
    ensures Silent(Run(s, events).table, c)
    decreases |events|
  {
    if events != [] {
      StepKeepsInv(s, events[0]);
      StepKeepsSilent(s, events[0], c);
      RunKeepsSilent(Step(s, events[0]), events[1..], c);
    }
  }

  /** After a connection's cleanup no match returns its client, through any further run, until that client
      subscribes again. */
  lemma ClosedStaysUnmatched(s: State, conn: ConnId, c: Str, events: seq<Event>, topic: seq<Str>,
      pairs: seq<(Str, nat)>)
    requires Inv(s) && conn in s.conns && s.conns[conn] == Some(c)
    requires LegalRun(s, [Close(conn)] + events) && NeverSubscribes(s, [Close(conn)] + events, c)
    requires IsMatch(Run(s, [Close(conn)] + events).table, topic, pairs)
    ensures forall i :: 0 <= i < |pairs| ==> pairs[i].0 != c
  {
    var all := [Close(conn)] + events;
    StepKeepsInv(s, Close(conn));
    assert all[1..] == events;
    RunKeepsSilent(Step(s, Close(conn)), events, c);
    SilentIsUnmatched(Run(s, all).table, c, topic, pairs);
  }

  // ---------------------------------------------------------------- what a publication does

  /** The output of a connection grew by exactly one write. */
  predicate GrewBy(before: seq<seq<byte>>, after: seq<seq<byte>>, data: seq<byte>) {
    after == before + [data]
  }

  /** Each other connected client with a matching filter is sent exactly one PUBLISH, which parses back to
      the same topic, payload and retain flag, at the smaller of the two QoS values, with an id in 1..65535
      when that is above 0. */
  lemma PublishReaches(s: State, conn: ConnId, pkt: Packet, c: Str)
    requires Inv(s) && Legal(s, Publish(conn, pkt)) && Receives(s, pkt, s.conns[conn], c)
    ensures var w, s' := s.sessions[c].writer.value, Step(s, Publish(conn, pkt));
            var qos := MinQos(pkt.qos, BestQos(s.table, Split(pkt.topic), c));
            var id := s.sessions[c].nextId;
            var sent := Publication(pkt, qos, id);
            && w in s.outputs && w != conn
            && GrewBy(s.outputs[w], s'.outputs[w], sent)
            && Parse(sent) ==
              Ok(PublishPacket(pkt.topic, pkt.payload, qos, if qos > 0 then Some(id) else None, pkt.retain))
            && 1 <= id <= 65535
            && s'.sessions[c] == s.sessions[c].(nextId := if qos > 0 then NextId(id) else id)
  {
    var w := s.sessions[c].writer.value;
    assert WritesTo(s.sessions, c, w);
    var qos := MinQos(pkt.qos, BestQos(s.table, Split(pkt.topic), c));
    var id := if qos > 0 then Some(s.sessions[c].nextId) else None;
    PublishRecovered(pkt.topic, pkt.payload, qos, id, pkt.retain, []);
    var sent := Publication(pkt, qos, s.sessions[c].nextId);
    assert sent + [] == sent;
    PublishOutput(s, conn, pkt, w);
    PublishSession(s, conn, pkt, c);
  }

  lemma PublishSession(s: State, conn: ConnId, pkt: Packet, c: Str)
    requires Inv(s) && Legal(s, Publish(conn, pkt)) && c in s.sessions
    ensures c in Step(s, Publish(conn, pkt)).sessions
    ensures Step(s, Publish(conn, pkt)).sessions[c] == DeliveredSession(s, pkt, s.conns[conn], c, s.sessions.Keys)
  {
  }

  lemma PublishOutput(s: State, conn: ConnId, pkt: Packet, w: ConnId)
    requires Inv(s) && Legal(s, Publish(conn, pkt)) && w in s.outputs
    ensures w in Step(s, Publish(conn, pkt)).outputs
    ensures var after := Step(s, Publish(conn, pkt)).outputs[w];
            var delivered := DeliveredOutput(s, pkt, s.conns[conn], w, s.sessions.Keys);
            after == delivered +
              if w == conn && pkt.qos == 1 && pkt.packetId.Some? then [BuildPuback(pkt.packetId.value)] else []
  {
    var after := Step(s, Publish(conn, pkt)).outputs[w];
    assert DeliveredOutput(Published(s), pkt, s.conns[conn], w, s.sessions.Keys) ==
           DeliveredOutput(s, pkt, s.conns[conn], w, s.sessions.Keys);
    assert after + [] == after;
  }

  /** Nobody else's output changes; the publisher gets its PUBACK, for QoS 1, and nothing else. */
  lemma PublishReachesNoOther(s: State, conn: ConnId, pkt: Packet, w: ConnId)
    requires Inv(s) && Legal(s, Publish(conn, pkt)) && w in s.outputs
    requires forall c :: Receives(s, pkt, s.conns[conn], c) ==> s.sessions[c].writer != Some(w)
    ensures var s' := Step(s, Publish(conn, pkt));
            w in s'.outputs &&
            s'.outputs[w] == s.outputs[w] +
              if w == conn && pkt.qos == 1 && pkt.packetId.Some? then [BuildPuback(pkt.packetId.value)] else []
  {
    PublishOutput(s, conn, pkt, w);
    if w in s.conns && s.conns[w].Some? {
      assert Owns(s.conns, w, s.conns[w].value);
    }
  }

  /** In a reachable state every subscribed client but the publisher receives. */
  lemma SubscribedReceives(s: State, pkt: Packet, publisher: Option<Str>, c: Str)
    requires Inv(s)
    ensures Receives(s, pkt, publisher, c) <==> Some(c) != publisher && Subscribed(s.table, Split(pkt.topic), c)
  {
    if Subscribed(s.table, Split(pkt.topic), c) {
      var f :| (f, c) in s.table && Matches(f, Split(pkt.topic));
      assert (f, c).1 in s.sessions;
    }
  }

  /** The publisher never receives its own publication. */
  lemma PublisherIsNotEchoed(s: State, conn: ConnId, pkt: Packet, c: Str)
    requires Inv(s) && Legal(s, Publish(conn, pkt)) && Receives(s, pkt, s.conns[conn], c)
    ensures s.sessions[c].writer != Some(conn)
  {
    assert !Owns(s.conns, conn, c) && !WritesTo(s.sessions, c, conn);
  }
}
