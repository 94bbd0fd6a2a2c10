/** What a client's session keeps over a run, and what its subscriptions do. */
module BrokerSessions {
  import opened Wrappers
  import opened Bytes
  import opened PacketParser
  import opened SessionStores
  import opened Topics
  import opened BrokerStates

  // ---------------------------------------------------------------- identifiers over a run

  lemma {:induction false} IdAfterNext(start: nat, calls: nat)
    ensures IdAfter(NextId(start), calls) == IdAfter(start, calls + 1)
  {
    if calls > 0 {
      IdAfterNext(start, calls - 1);
    }
  }

  /** The step ends the session of `c`: a clean start over it, or the end of a clean one. */
  ghost predicate EndsSession(s: State, e: Event, c: Str) {
    || (e.Connect? && e.client == c && e.clean)
    || (e.Close? && e.conn in s.conns && s.conns[e.conn] == Some(c) && c in s.sessions && s.sessions[c].clean)
  }

  /** The step sends `c` a publication that needs an identifier. */
  ghost predicate TakesId(s: State, e: Event, c: Str)
    requires Legal(s, e)
  {
    e.Publish? && Receives(s, e.pkt, s.conns[e.conn], c) && EffectiveQos(s, e.pkt, c) > 0
  }

  lemma StepTakesIds(s: State, e: Event, c: Str)
    requires Inv(s) && Legal(s, e) && c in s.sessions && !EndsSession(s, e, c)
    ensures c in Step(s, e).sessions
    ensures var id := s.sessions[c].nextId; Step(s, e).sessions[c].nextId == if TakesId(s, e, c) then NextId(id) else id
  {
    if e.Publish? {
      PublishSession(s, e.conn, e.pkt, c);
    }
  }

  ghost predicate KeepsSession(s: State, events: seq<Event>, c: Str)
    requires Inv(s) && LegalRun(s, events)
    decreases |events|
  {
    if events == [] then true
    else
      StepKeepsInv(s, events[0]);
      !EndsSession(s, events[0], c) && KeepsSession(Step(s, events[0]), events[1..], c)
  }

  /** How many identifiers a run takes from the session of `c`. */
  ghost function IdsTaken(s: State, events: seq<Event>, c: Str): nat
    requires Inv(s) && LegalRun(s, events)
    decreases |events|
  {
    if events == [] then 0
    else
      StepKeepsInv(s, events[0]);
      var rest := IdsTaken(Step(s, events[0]), events[1..], c);
      if TakesId(s, events[0], c) then rest + 1 else rest
  }

  /** While a session lives, through disconnections and returns, it hands out its identifiers one after another:
      one for each publication sent to it with QoS above 0, and none otherwise. */
  lemma {:induction false} IdsContinue(s: State, events: seq<Event>, c: Str)
    requires Inv(s) && LegalRun(s, events) && c in s.sessions && KeepsSession(s, events, c)
    ensures c in Run(s, events).sessions
    ensures Run(s, events).sessions[c].nextId == IdAfter(s.sessions[c].nextId, IdsTaken(s, events, c))
    decreases |events|
  {
    if events != [] {
      StepKeepsInv(s, events[0]);
      StepTakesIds(s, events[0], c);
      IdsContinue(Step(s, events[0]), events[1..], c);
      IdAfterNext(s.sessions[c].nextId, IdsTaken(Step(s, events[0]), events[1..], c));
    }
  }

  /** So a living session uses an identifier again exactly after each 65535 publications. */
  lemma IdReusedExactly(s: State, events: seq<Event>, c: Str)
    requires Inv(s) && LegalRun(s, events) && c in s.sessions && KeepsSession(s, events, c)
    ensures c in Run(s, events).sessions
    ensures Run(s, events).sessions[c].nextId == s.sessions[c].nextId <==> IdsTaken(s, events, c) % 65535 == 0
  {
    IdsContinue(s, events, c);
    BackToStart(s.sessions[c].nextId, IdsTaken(s, events, c));
  }

  lemma BackToStart(start: nat, calls: nat)
    requires 1 <= start <= 65535
    ensures IdAfter(start, calls) == start <==> calls % 65535 == 0
  {
    IdsRepeatExactly(start, 0, calls);
  }

  // ---------------------------------------------------------------- subscriptions

  /** The last of the listed filters that equals `filter` has QoS `qos`. */
  ghost predicate LastListed(subscriptions: seq<(Str, nat)>, filter: Str, qos: nat) {
    exists i :: 0 <= i < |subscriptions| && subscriptions[i] == (filter, qos) &&
      forall j :: i < j < |subscriptions| ==> subscriptions[j].0 != filter
  }

  ghost predicate Listed(subscriptions: seq<(Str, nat)>, filter: Str) {
    exists i :: 0 <= i < |subscriptions| && subscriptions[i].0 == filter
  }

  lemma ListedOneMore(before: seq<(Str, nat)>, last: (Str, nat), filter: Str, qos: nat)
    ensures Listed(before + [last], filter) <==> Listed(before, filter) || last.0 == filter
    ensures LastListed(before + [last], filter, qos) <==>
            if last.0 == filter then last.1 == qos else LastListed(before, filter, qos)
  {
    var more, n := before + [last], |before|;
    assert more[n] == last && forall i :: 0 <= i < n ==> more[i] == before[i];
    if Listed(before, filter) {
      var i :| 0 <= i < n && before[i].0 == filter;
      assert more[i].0 == filter;
    }
    if last.0 != filter && LastListed(before, filter, qos) {
      var i :| 0 <= i < n && before[i] == (filter, qos) && forall j :: i < j < n ==> before[j].0 != filter;
      assert more[i] == (filter, qos);
    }
  }

  /** A SUBSCRIBE leaves each listed filter live with the QoS it lists last, and everything else alone. */
  lemma {:induction false} SubscribeTakesEffect(table: Table, client: Str, subscriptions: seq<(Str, nat)>, filter: Str,
      c: Str, qos: nat)
    ensures var after := SubscribeAll(table, client, subscriptions);
            Holds(after, c, filter, qos) <==>
            if c == client && Listed(subscriptions, filter) then LastListed(subscriptions, filter, qos)
            else Holds(table, c, filter, qos)
  {
    if subscriptions != [] {
      var before, last := subscriptions[..|subscriptions| - 1], subscriptions[|subscriptions| - 1];
      SubscribeTakesEffect(table, client, before, filter, c, qos);
      assert before + [last] == subscriptions;
      ListedOneMore(before, last, filter, qos);
      SplitInjective(last.0, filter);
    }
  }

  /** An UNSUBSCRIBE ends exactly the listed filters of its client. */
  lemma {:induction false} UnsubscribeTakesEffect(table: Table, client: Str, subscriptions: seq<(Str, nat)>,
      filter: Str, c: Str, qos: nat)
    ensures Holds(UnsubscribeAll(table, client, subscriptions), c, filter, qos) <==>
            Holds(table, c, filter, qos) && !(c == client && Listed(subscriptions, filter))
  {
    if subscriptions != [] {
      var before, last := subscriptions[..|subscriptions| - 1], subscriptions[|subscriptions| - 1];
      UnsubscribeTakesEffect(table, client, before, filter, c, qos);
      assert before + [last] == subscriptions;
      ListedOneMore(before, last, filter, qos);
      SplitInjective(last.0, filter);
    }
  }

  lemma BodyStands(first: byte, body: seq<byte>, rest: seq<byte>)
    ensures var data := Framed(first, body) + rest;
            var offset := 1 + |EncodeLength(|body|)|;
            |Framed(first, body)| == offset + |body| && forall i :: 0 <= i < |body| ==> data[offset + i] == body[i]
  {
    hide EncodeLength;
  }

  /** The answer to a SUBSCRIBE carries its id and one code for each filter: the QoS granted. */
  lemma SubackCarries(packetId: nat, subscriptions: seq<(Str, nat)>, rest: seq<byte>)
    requires packetId < 65536 && forall i :: 0 <= i < |subscriptions| ==> subscriptions[i].1 < 4
    ensures var sent, n := BuildSuback(packetId, ReasonCodes(subscriptions)), |subscriptions|;
            var header := DecodeLength(sent + rest, 1);
            && header.Some? && header.value.0 == n + 3 && header.value.1 + n + 3 == |sent|
            && U16At(sent + rest, header.value.1) == Some(packetId)
            && forall i :: 0 <= i < n ==> (sent + rest)[header.value.1 + 3 + i] == subscriptions[i].1
  {
    hide EncodeLength, DecodeLength, Framed;
    var body := U16(packetId) + [0] + ReasonCodes(subscriptions);
    FramedRoundTrip(0x90, body, rest);
    BodyStands(0x90, body, rest);
    var data, offset := Framed(0x90, body) + rest, 1 + |EncodeLength(|body|)|;
    assert data[offset + 0] == body[0] == packetId / 256 && data[offset + 1] == body[1] == packetId % 256;
    forall i | 0 <= i < |subscriptions|
      ensures data[offset + 3 + i] == subscriptions[i].1
    {
      assert data[offset + (3 + i)] == body[3 + i];
    }
  }
}
