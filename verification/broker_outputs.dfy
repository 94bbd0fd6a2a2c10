/** Everything a connection is sent over a run: the answers to its own packets and the publications it receives, in
    the order of the events. */
module BrokerOutputs {
  import opened Wrappers
  import opened Bytes
  import opened PacketParser
  import opened Framing
  import opened SessionStores
  import opened BrokerStates
  import opened BrokerStreams

  /** The publication the client of connection `w` is sent, if any. */
  ghost function PublicationTo(s: State, publisher: Option<Str>, pkt: Packet, w: ConnId): seq<seq<byte>>
    requires WellParsed(pkt) && IdsBounded(s.sessions)
  {
    if w in s.conns && s.conns[w].Some? && Receives(s, pkt, publisher, s.conns[w].value) then
      var c := s.conns[w].value;
      [Publication(pkt, EffectiveQos(s, pkt, c), s.sessions[c].nextId)]
    else []
  }

  /** The answer to a connection's own packet. */
  function Reply(e: Event): seq<seq<byte>>
    requires e.Subscribe? || e.Unsubscribe? ==> WellParsed(e.pkt) && e.pkt.packetId.Some?
    requires e.Publish? ==> WellParsed(e.pkt)
  {
    match e
    case Open(_) => []
    case Connect(_, _, _) => [BuildConnack(false, 0)]
    case Publish(_, pkt) => if pkt.qos == 1 && pkt.packetId.Some? then [BuildPuback(pkt.packetId.value)] else []
    case Subscribe(_, pkt) => [BuildSuback(pkt.packetId.value, ReasonCodes(pkt.subscriptions))]
    case Unsubscribe(_, pkt) => [BuildUnsuback(pkt.packetId.value, |pkt.subscriptions|)]
    case Ping(_) => [PINGRESP]
    case Close(_) => []
  }

  /** What an event writes to connection `w`. */
  ghost function Written(s: State, e: Event, w: ConnId): seq<seq<byte>>
    requires Inv(s) && Legal(s, e)
  {
    (if e.Publish? then PublicationTo(s, s.conns[e.conn], e.pkt, w) else []) + if e.conn == w then Reply(e) else []
  }

  /** What the events of a run write to connection `w`, one after another. */
  ghost function AllWritten(s: State, events: seq<Event>, w: ConnId): seq<seq<byte>>
    requires Inv(s) && LegalRun(s, events)
    decreases |events|
  {
    if events == [] then []
    else
      StepKeepsInv(s, events[0]);
      Written(s, events[0], w) + AllWritten(Step(s, events[0]), events[1..], w)
  }

  /** Everything written to a connection so far; nothing before it is opened. */
  function Output(s: State, w: ConnId): seq<seq<byte>> {
    if w in s.outputs then s.outputs[w] else []
  }

  lemma PublishWrites(s: State, e: Event, w: ConnId)
    requires Inv(s) && Legal(s, e) && e.Publish?
    ensures Output(Step(s, e), w) == Output(s, w) + Written(s, e, w)
  {
    hide Publication, EffectiveQos, Receives, Parse;
    if w in s.outputs {
      PublishOutput(s, e.conn, e.pkt, w);
      if w in s.conns && s.conns[w].Some? {
        assert Owns(s.conns, w, s.conns[w].value) && WritesTo(s.sessions, s.conns[w].value, w);
      }
    }
  }

  lemma StepWrites(s: State, e: Event, w: ConnId)
    requires Inv(s) && Legal(s, e)
    ensures Output(Step(s, e), w) == Output(s, w) + Written(s, e, w)
  {
    if e.Publish? {
      PublishWrites(s, e, w);
    }
  }

  /** After any run a connection's output is what it was, followed by what each event wrote to it, in order. */
  lemma {:induction false} RunWrites(s: State, events: seq<Event>, w: ConnId)
    requires Inv(s) && LegalRun(s, events)
    ensures Output(Run(s, events), w) == Output(s, w) + AllWritten(s, events, w)
    decreases |events|
  {
    hide Inv, Legal, Step, Written, Output;
    if events != [] {
      StepKeepsInv(s, events[0]);
      StepWrites(s, events[0], w);
      RunWrites(Step(s, events[0]), events[1..], w);
    }
  }

  /** From the start: whatever the events were and however a connection's bytes are cut into reads, what is read back
      are the packets the events wrote to it, in the order of the run. */
  lemma ClientReadsRun(events: seq<Event>, w: ConnId, pieces: seq<seq<byte>>)
    requires LegalRun(START, events) && Concat(pieces) == Concat(Output(Run(START, events), w))
    ensures var writes, seen := AllWritten(START, events, w), FeedAll(FRESH, pieces, HandFrame);
            && seen.open && seen.buffer == [] && |seen.handed| == |writes|
            && forall i :: 0 <= i < |writes| ==> Parse(writes[i]) == Ok(seen.handed[i])
  {
    hide FeedAll, Concat, IsPacket, AllWritten, Run;
    OutputFromStart(events, w);
    PacketsReadBack(AllWritten(START, events, w), pieces);
  }

  lemma OutputFromStart(events: seq<Event>, w: ConnId)
    requires LegalRun(START, events)
    ensures Output(Run(START, events), w) == AllWritten(START, events, w) && ArePackets(AllWritten(START, events, w))
  {
    hide IsPacket, AllWritten, Run, LegalRun;
    RunWrites(START, events, w);
    assert [] + AllWritten(START, events, w) == AllWritten(START, events, w);
    RunWritesPackets(START, events);
  }
}
