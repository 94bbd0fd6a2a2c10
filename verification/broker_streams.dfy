/** What a client reads back from its connection: the packets the broker wrote, one by one. */
module BrokerStreams {
  import opened Wrappers
  import opened Bytes
  import opened PacketParser
  import opened Framing
  import opened SessionStores
  import opened BrokerStates

  /** One whole frame that parses and does not end a connection. */
  predicate IsPacket(data: seq<byte>) {
    FrameLength(data) == Some(|data|) && Parse(data).Ok? && !Closes(Parse(data).packet)
  }

  ghost predicate ArePackets(writes: seq<seq<byte>>) {
    forall i :: 0 <= i < |writes| ==> IsPacket(writes[i])
  }

  /** Everything written so far, to any connection, is a packet. */
  ghost predicate WritesPackets(s: State) {
    forall w :: w in s.outputs ==> ArePackets(s.outputs[w])
  }

  // ---------------------------------------------------------------- each write is a packet

  lemma FramedIsFrame(first: byte, body: seq<byte>)
    ensures FrameLength(Framed(first, body)) == Some(|Framed(first, body)|)
  {
    FramedRoundTrip(first, body, []);
    assert Framed(first, body) + [] == Framed(first, body);
  }

  /** The broker's own packets of types without a parsed body. */
  lemma ReplyIsPacket(first: byte, body: seq<byte>)
    requires first / 16 in {2, PUBACK, 9, 11}
    ensures IsPacket(Framed(first, body))
  {
    FramedIsFrame(first, body);
    ParseFramed(first, body, []);
    assert Framed(first, body) + [] == Framed(first, body);
  }

  lemma PingrespIsPacket()
    ensures IsPacket(PINGRESP)
  {
    assert DecodeLength(PINGRESP, 1) == Some((0, 2));
  }

  lemma PublicationIsPacket(pkt: Packet, qos: Qos, nextId: nat)
    requires WellParsed(pkt) && nextId < 65536
    ensures IsPacket(Publication(pkt, qos, nextId))
  {
    hide DecodeLength, EncodeLength, ParsePublish, PublishBody, Framed;
    var id := if qos > 0 then Some(nextId) else None;
    var sent := Publication(pkt, qos, nextId);
    PublishRecovered(pkt.topic, pkt.payload, qos, id, pkt.retain, []);
    assert sent + [] == sent;
    PublishIsFramed(pkt.topic, pkt.payload, qos, id, pkt.retain);
    FramedIsFrame(0x30 + PublishFlags(qos, pkt.retain),
      PublishBody(EncodeString(pkt.topic).value, EncodeId(qos, id).value, pkt.payload));
  }

  // ---------------------------------------------------------------- every run writes packets

  lemma WriteKeepsPackets(s: State, conn: ConnId, data: seq<byte>)
    requires WritesPackets(s) && conn in s.outputs && IsPacket(data)
    ensures WritesPackets(Write(s, conn, data))
  {
  }

  lemma PublishWritesPackets(s: State, conn: ConnId, pkt: Packet)
    requires Inv(s) && Legal(s, Publish(conn, pkt)) && WritesPackets(s)
    ensures WritesPackets(Step(s, Publish(conn, pkt)))
  {
    var s' := Step(s, Publish(conn, pkt));
    forall w | w in s'.outputs
      ensures ArePackets(s'.outputs[w])
    {
      PublishOutput(s, conn, pkt, w);
      DeliveredIsPackets(s, pkt, s.conns[conn], w);
      if pkt.packetId.Some? {
        ReplyIsPacket(0x40, U16(pkt.packetId.value) + [0, 0]);
      }
    }
  }

  lemma DeliveredIsPackets(s: State, pkt: Packet, publisher: Option<Str>, w: ConnId)
    requires Inv(s) && WellParsed(pkt) && w in s.outputs && ArePackets(s.outputs[w])
    ensures ArePackets(DeliveredOutput(s, pkt, publisher, w, s.sessions.Keys))
  {
    if w in s.conns && s.conns[w].Some? && Receives(s, pkt, publisher, s.conns[w].value) {
      var c := s.conns[w].value;
      PublicationIsPacket(pkt, EffectiveQos(s, pkt, c), s.sessions[c].nextId);
    }
  }

  lemma ConnectWritesPackets(s: State, e: Event)
    requires Inv(s) && Legal(s, e) && e.Connect? && WritesPackets(s)
    ensures WritesPackets(Step(s, e))
  {
    hide Inv, IsPacket;
    ReplyIsPacket(0x20, [0, 0, 0]);
    assert e.conn in s.outputs by { ConnIsWritten(s, e); }
    WriteKeepsPackets(Joined(s, e.conn, e.client, e.clean), e.conn, BuildConnack(false, 0));
  }

  lemma ConnIsWritten(s: State, e: Event)
    requires Inv(s) && Legal(s, e) && !e.Open?
    ensures e.conn in s.outputs
  {
  }

  lemma SubscribeWritesPackets(s: State, e: Event)
    requires Inv(s) && Legal(s, e) && (e.Subscribe? || e.Unsubscribe?) && WritesPackets(s)
    ensures WritesPackets(Step(s, e))
  {
    hide IsPacket, ReasonCodes;
    if e.Subscribe? {
      ReplyIsPacket(0x90, U16(e.pkt.packetId.value) + [0] + ReasonCodes(e.pkt.subscriptions));
    } else {
      ReplyIsPacket(0xB0, U16(e.pkt.packetId.value) + [0] + seq<byte>(|e.pkt.subscriptions|, _ => 0));
    }
  }

  lemma StepWritesPackets(s: State, e: Event)
    requires Inv(s) && Legal(s, e) && WritesPackets(s)
    ensures WritesPackets(Step(s, e))
  {
    hide IsPacket;
    match e
    case Open(_) =>
    case Connect(_, _, _) => ConnectWritesPackets(s, e);
    case Publish(conn, pkt) => PublishWritesPackets(s, conn, pkt);
    case Subscribe(_, _) => SubscribeWritesPackets(s, e);
    case Unsubscribe(_, _) => SubscribeWritesPackets(s, e);
    case Ping(_) => PingrespIsPacket();
    case Close(_) =>
  }

  lemma {:induction false} RunWritesPackets(s: State, events: seq<Event>)
    requires Inv(s) && LegalRun(s, events) && WritesPackets(s)
    ensures WritesPackets(Run(s, events))
    decreases |events|
  {
    if events != [] {
      StepKeepsInv(s, events[0]);
      StepWritesPackets(s, events[0]);
      RunWritesPackets(Step(s, events[0]), events[1..]);
    }
  }

  // ---------------------------------------------------------------- reading them back

  /** Packets written one after another are cut apart where they were joined. */
  lemma {:induction false} CutJoined(writes: seq<seq<byte>>)
    requires ArePackets(writes)
    ensures CutFrames(Concat(writes)) == Cut(writes, [])
  {
    hide FrameLength, Parse, Closes;
    if writes != [] {
      assert forall i :: 0 <= i < |writes| - 1 ==> writes[1..][i] == writes[i + 1];
      CutJoined(writes[1..]);
      FrameLocal(writes[0], Concat(writes[1..]));
      assert IsPacket(writes[0]);
      assert writes[0][..|writes[0]|] == writes[0] && writes[0][|writes[0]|..] == [];
      assert [] + Concat(writes[1..]) == Concat(writes[1..]);
      assert [writes[0]] + writes[1..] == writes;
    }
  }

  lemma {:induction false} PacketsKeepOpen(writes: seq<seq<byte>>)
    requires ArePackets(writes)
    ensures Deliver(writes, HandFrame).open
  {
    if writes != [] {
      assert forall i :: 0 <= i < |writes| - 1 ==> writes[1..][i] == writes[i + 1];
      assert IsPacket(writes[0]);
      PacketsKeepOpen(writes[1..]);
    }
  }

  /** Packets are read back as they were written, however their bytes are cut into pieces. */
  lemma PacketsReadBack(writes: seq<seq<byte>>, pieces: seq<seq<byte>>)
    requires ArePackets(writes) && Concat(pieces) == Concat(writes)
    ensures var seen := FeedAll(FRESH, pieces, HandFrame);
            && seen.open && seen.buffer == [] && |seen.handed| == |writes|
            && forall i :: 0 <= i < |writes| ==> Parse(writes[i]) == Ok(seen.handed[i])
  {
    CutJoined(writes);
    PacketsKeepOpen(writes);
    DeliverParses(writes);
    FramingIndependent(pieces, HandFrame);
  }

  /** In every reachable state, however the bytes written to a connection are cut into reads, the broker's own
      framing and parser give back exactly the packets written, in order, and nothing is left over. */
  lemma ClientReadsPackets(events: seq<Event>, w: ConnId, pieces: seq<seq<byte>>)
    requires LegalRun(START, events) && w in Run(START, events).outputs
    requires Concat(pieces) == Concat(Run(START, events).outputs[w])
    ensures var writes, seen := Run(START, events).outputs[w], FeedAll(FRESH, pieces, HandFrame);
            && seen.open && seen.buffer == [] && |seen.handed| == |writes|
            && forall i :: 0 <= i < |writes| ==> Parse(writes[i]) == Ok(seen.handed[i])
  {
    RunWritesPackets(START, events);
    PacketsReadBack(Run(START, events).outputs[w], pieces);
  }
}
