/** The bytes of several connections, read in any interleaving, and the events they make. */
module BrokerInputs {
  import opened Wrappers
  import opened Bytes
  import opened Sequences
  import opened PacketParser
  import opened Framing
  import opened SessionStores
  import opened BrokerStates

  /** A connection comes in, or one of its reads returns. An empty read is the end of its stream, or its timeout. */
  datatype Input =
    | Opens(conn: ConnId)
    | Reads(conn: ConnId, chunk: seq<byte>)

  // ---------------------------------------------------------------- the events of the inputs

  function PacketEvents(conn: ConnId, packets: seq<Packet>, autoId: Str): seq<Event> {
    if packets == [] then []
    else AsSeq(EventOf(conn, packets[0], autoId)) + PacketEvents(conn, packets[1..], autoId)
  }

  function AsSeq(e: Option<Event>): seq<Event> {
    if e.Some? then [e.value] else []
  }

  /** The packets handed over, then the cleanup if the last one, or a failure, ended the connection. */
  function DeliveryEvents(conn: ConnId, d: Delivery, autoId: Str): seq<Event> {
    PacketEvents(conn, d.handed, autoId) + if d.open then [] else [Close(conn)]
  }

  function BufferEvents(conn: ConnId, buffer: seq<byte>, autoId: Str): seq<Event> {
    DeliveryEvents(conn, Deliver(CutFrames(buffer).frames, HandFrame), autoId)
  }

  /** What remains of a connection's buffer; None once it has ended. */
  function BufferLeft(buffer: seq<byte>): Option<seq<byte>> {
    var c := CutFrames(buffer);
    if Deliver(c.frames, HandFrame).open then Some(c.rest) else None
  }

  /** The events so far, and the unconsumed bytes of each live connection. */
  datatype Track = Track(events: seq<Event>, buffers: map<ConnId, seq<byte>>)

  function Keep(buffers: map<ConnId, seq<byte>>, conn: ConnId, left: Option<seq<byte>>): map<ConnId, seq<byte>> {
    if left.Some? then buffers[conn := left.value] else buffers - {conn}
  }

  function ReadEvents(conn: ConnId, buffer: seq<byte>, chunk: seq<byte>, autoId: Str): seq<Event> {
    if chunk == [] then [Close(conn)] else BufferEvents(conn, buffer + chunk, autoId)
  }

  function ReadLeft(buffer: seq<byte>, chunk: seq<byte>): Option<seq<byte>> {
    if chunk == [] then None else BufferLeft(buffer + chunk)
  }

  function Absorbed(t: Track, input: Input, autoId: ConnId -> Str): Track {
    match input
    case Opens(conn) => Track(t.events + [Open(conn)], t.buffers[conn := []])
    case Reads(conn, chunk) =>
      if conn !in t.buffers then t
      else Track(t.events + ReadEvents(conn, t.buffers[conn], chunk, autoId(conn)),
                 Keep(t.buffers, conn, ReadLeft(t.buffers[conn], chunk)))
  }

  function TrackAll(inputs: seq<Input>, autoId: ConnId -> Str): Track {
    if inputs == [] then Track([], map[]) else Absorbed(TrackAll(Front(inputs), autoId), Last(inputs), autoId)
  }

  // ---------------------------------------------------------------- one connection among the others

  /** The events of a connection since it came in. */
  function EventsSince(events: seq<Event>, conn: ConnId): seq<Event> {
    if events == [] then []
    else if Last(events) == Open(conn) then []
    else if Last(events).conn == conn then EventsSince(Front(events), conn) + [Last(events)]
    else EventsSince(Front(events), conn)
  }

  /** The reads of a connection since it came in. */
  function ChunksOf(inputs: seq<Input>, conn: ConnId): Option<seq<seq<byte>>> {
    if inputs == [] then None
    else
      var before, input := ChunksOf(Front(inputs), conn), Last(inputs);
      if input == Opens(conn) then Some([])
      else if input.Reads? && input.conn == conn && before.Some? then Some(before.value + [input.chunk])
      else before
  }

  lemma {:induction false} PacketEventsAppend(conn: ConnId, a: seq<Packet>, b: seq<Packet>, autoId: Str)
    ensures PacketEvents(conn, a + b, autoId) == PacketEvents(conn, a, autoId) + PacketEvents(conn, b, autoId)
    decreases |a|
  {
    hide EventOf;
    if a == [] {
      assert a + b == b;
    } else {
      PacketEventsAppend(conn, a[1..], b, autoId);
      assert (a + b)[1..] == a[1..] + b;
    }
  }

  predicate AllOf(events: seq<Event>, conn: ConnId) {
    forall i :: 0 <= i < |events| ==> events[i].conn == conn && !events[i].Open?
  }

  lemma {:induction false} PacketEventsAllOf(conn: ConnId, packets: seq<Packet>, autoId: Str)
    ensures AllOf(PacketEvents(conn, packets, autoId), conn)
  {
    if packets != [] {
      PacketEventsAllOf(conn, packets[1..], autoId);
    }
  }

  lemma ReadEventsAllOf(conn: ConnId, buffer: seq<byte>, chunk: seq<byte>, autoId: Str)
    ensures AllOf(ReadEvents(conn, buffer, chunk, autoId), conn)
  {
    PacketEventsAllOf(conn, Deliver(CutFrames(buffer + chunk).frames, HandFrame).handed, autoId);
  }

  /** Events of a connection are added to its own, and to no other's. */
  lemma {:induction false} EventsSinceAppend(events: seq<Event>, more: seq<Event>, own: ConnId, conn: ConnId)
    requires AllOf(more, own)
    ensures EventsSince(events + more, conn) == EventsSince(events, conn) + if own == conn then more else []
    decreases |more|
  {
    if more == [] {
      assert events + more == events;
      assert EventsSince(events, conn) + [] == EventsSince(events, conn);
    } else {
      EventsSinceAppend(events, Front(more), own, conn);
      assert Front(events + more) == events + Front(more) && Last(events + more) == Last(more);
      assert EventsSince(events, conn) + [] == EventsSince(events, conn);
      assert Front(more) + [Last(more)] == more;
      assert EventsSince(events, conn) + (Front(more) + [Last(more)]) ==
        EventsSince(events, conn) + Front(more) + [Last(more)];
    }
  }

  lemma OpenedAfresh(events: seq<Event>, arrived: ConnId, conn: ConnId)
    ensures EventsSince(events + [Open(arrived)], conn) == if arrived == conn then [] else EventsSince(events, conn)
  {
    assert Front(events + [Open(arrived)]) == events;
  }

  // ---------------------------------------------------------------- what a connection's bytes make

  /** A connection that has read the chunks: the packets handed over, what is left, whether it goes on. */
  function Seen(chunks: seq<seq<byte>>): Connection {
    var conn := FeedAll(FRESH, UntilEof(chunks), HandFrame);
    if [] in chunks then conn.(open := false) else conn
  }

  lemma {:induction false} FeedAllSnoc(conn: Connection, chunks: seq<seq<byte>>, chunk: seq<byte>,
      hand: seq<byte> -> Handing)
    ensures FeedAll(conn, chunks + [chunk], hand) == Feed(FeedAll(conn, chunks, hand), chunk, hand)
    decreases |chunks|
  {
    if chunks == [] {
      assert [chunk][1..] == [] && [] + [chunk] == [chunk];
    } else {
      assert (chunks + [chunk])[1..] == chunks[1..] + [chunk];
      FeedAllSnoc(Feed(conn, chunks[0], hand), chunks[1..], chunk, hand);
    }
  }

  lemma {:induction false} UntilEofSnoc(chunks: seq<seq<byte>>, chunk: seq<byte>)
    ensures UntilEof(chunks + [chunk]) ==
      if [] in chunks || chunk == [] then UntilEof(chunks) else UntilEof(chunks) + [chunk]
    ensures [] in chunks + [chunk] <==> [] in chunks || chunk == []
    decreases |chunks|
  {
    if chunks == [] {
      assert [] + [chunk] == [chunk] && [chunk][1..] == [];
    } else {
      assert (chunks + [chunk])[1..] == chunks[1..] + [chunk];
      UntilEofSnoc(chunks[1..], chunk);
      assert chunks == [chunks[0]] + chunks[1..];
    }
  }

  lemma SeenSnoc(chunks: seq<seq<byte>>, chunk: seq<byte>)
    ensures var before, after := Seen(chunks), Seen(chunks + [chunk]);
            if !before.open || chunk == [] then after == before.(open := false)
            else after == Feed(before, chunk, HandFrame)
  {
    UntilEofSnoc(chunks, chunk);
    FeedAllSnoc(FRESH, UntilEof(chunks), chunk, HandFrame);
  }

  /** A connection is as its own bytes make it. */
  ghost predicate Follows(t: Track, conn: ConnId, chunks: seq<seq<byte>>, autoId: Str) {
    var seen := Seen(chunks);
    && (conn in t.buffers <==> seen.open) && (conn in t.buffers ==> t.buffers[conn] == seen.buffer)
    && EventsSince(t.events, conn) == PacketEvents(conn, seen.handed, autoId) + if seen.open then [] else [Close(conn)]
  }

  lemma OwnReadFollows(t: Track, conn: ConnId, chunks: seq<seq<byte>>, chunk: seq<byte>, autoId: ConnId -> Str)
    requires Follows(t, conn, chunks, autoId(conn))
    ensures Follows(Absorbed(t, Reads(conn, chunk), autoId), conn, chunks + [chunk], autoId(conn))
  {
    hide CutFrames, Deliver, FeedAll, EventsSince, PacketEvents, Seen;
    var before := Seen(chunks);
    SeenSnoc(chunks, chunk);
    if before.open {
      ReadEventsAllOf(conn, before.buffer, chunk, autoId(conn));
      EventsSinceAppend(t.events, ReadEvents(conn, before.buffer, chunk, autoId(conn)), conn, conn);
      var own := PacketEvents(conn, before.handed, autoId(conn));
      assert EventsSince(t.events, conn) == own;
      if chunk != [] {
        var d := Deliver(CutFrames(before.buffer + chunk).frames, HandFrame);
        PacketEventsAppend(conn, before.handed, d.handed, autoId(conn));
        var tail: seq<Event> := if d.open then [] else [Close(conn)];
        assert own + (PacketEvents(conn, d.handed, autoId(conn)) + tail) ==
          own + PacketEvents(conn, d.handed, autoId(conn)) + tail;
      }
    }
  }

  lemma OtherInputFollows(t: Track, input: Input, conn: ConnId, chunks: seq<seq<byte>>, autoId: ConnId -> Str)
    requires Follows(t, conn, chunks, autoId(conn)) && input.conn != conn
    ensures Follows(Absorbed(t, input, autoId), conn, chunks, autoId(conn))
  {
    match input
    case Opens(arrived) => OpenedAfresh(t.events, arrived, conn);
    case Reads(other, chunk) =>
      if other in t.buffers {
        ReadEventsAllOf(other, t.buffers[other], chunk, autoId(other));
        EventsSinceAppend(t.events, ReadEvents(other, t.buffers[other], chunk, autoId(other)), other, conn);
        assert EventsSince(t.events, conn) + [] == EventsSince(t.events, conn);
      }
  }

  lemma FreshFollows(t: Track, conn: ConnId, autoId: ConnId -> Str)
    ensures Follows(Absorbed(t, Opens(conn), autoId), conn, [], autoId(conn))
  {
    OpenedAfresh(t.events, conn, conn);
    assert Seen([]) == FRESH;
    assert PacketEvents(conn, [], autoId(conn)) == [];
  }

  /** Whatever other connections do in between, each connection is as its own bytes make it. */
  lemma {:induction false} ConnectionFollows(inputs: seq<Input>, conn: ConnId, autoId: ConnId -> Str)
    requires ChunksOf(inputs, conn).Some?
    ensures Follows(TrackAll(inputs, autoId), conn, ChunksOf(inputs, conn).value, autoId(conn))
  {
    var t, input := TrackAll(Front(inputs), autoId), Last(inputs);
    if input == Opens(conn) {
      FreshFollows(t, conn, autoId);
    } else {
      ConnectionFollows(Front(inputs), conn, autoId);
      var chunks := ChunksOf(Front(inputs), conn).value;
      if input.conn == conn {
        OwnReadFollows(t, conn, chunks, input.chunk, autoId);
      } else {
        OtherInputFollows(t, input, conn, chunks, autoId);
      }
    }
  }

  /** However its bytes are cut into reads, and whatever other connections do in between, a connection's events are
      those of one pass over its bytes up to the end of its stream, then the cleanup if it has ended. */
  lemma ConnectionEvents(inputs: seq<Input>, conn: ConnId, autoId: ConnId -> Str)
    requires ChunksOf(inputs, conn).Some?
    ensures var chunks, t := ChunksOf(inputs, conn).value, TrackAll(inputs, autoId);
            var seen := OnePass(Concat(UntilEof(chunks)), HandFrame);
            var goesOn := seen.open && [] !in chunks;
            && EventsSince(t.events, conn) ==
               PacketEvents(conn, seen.handed, autoId(conn)) + (if goesOn then [] else [Close(conn)])
            && (conn in t.buffers <==> goesOn) && (goesOn ==> t.buffers[conn] == seen.buffer)
  {
    ConnectionFollows(inputs, conn, autoId);
    FramingIndependent(UntilEof(ChunksOf(inputs, conn).value), HandFrame);
  }
}
