/** The broker behind its reading loops: bytes of any connection in, the state machine's run out. */
module Servers {
  import opened Wrappers
  import opened Bytes
  import opened Sequences
  import opened PacketParser
  import opened Framing
  import opened SessionStores
  import opened BrokerStates
  import opened BrokerInputs
  import opened Brokers

  // ---------------------------------------------------------------- runs piece by piece

  /** A run may be cut in two anywhere. */
  lemma {:induction false} RunAppend(s: State, a: seq<Event>, b: seq<Event>)
    requires Inv(s)
    ensures LegalRun(s, a + b) <==> LegalRun(s, a) && LegalRun(Run(s, a), b)
    ensures LegalRun(s, a + b) ==> Run(s, a + b) == Run(Run(s, a), b)
    decreases |a|
  {
    hide Inv, Legal, Step;
    if a == [] {
      assert a + b == b;
    } else {
      assert (a + b)[0] == a[0] && (a + b)[1..] == a[1..] + b;
      if Legal(s, a[0]) {
        StepKeepsInv(s, a[0]);
        RunAppend(Step(s, a[0]), a[1..], b);
      }
    }
  }

  lemma NoEvents(s: State)
    requires Inv(s)
    ensures LegalRun(s, []) && Run(s, []) == s
  {
  }

  lemma OneEvent(s: State, e: Event)
    requires Inv(s)
    ensures LegalRun(s, [e]) <==> Legal(s, e)
    ensures Legal(s, e) ==> Run(s, [e]) == Step(s, e)
  {
    hide Inv, Legal, Step;
    if Legal(s, e) {
      StepKeepsInv(s, e);
      assert [e][1..] == [];
    }
  }

  /** A packet's event first, if it has one, then the rest. */
  lemma PacketFirst(s: State, e: Option<Event>, rest: seq<Event>)
    requires Inv(s) && LegalRun(s, AsSeq(e) + rest)
    ensures e.Some? ==> Legal(s, e.value)
    ensures Inv(AfterPacket(s, e)) && LegalRun(AfterPacket(s, e), rest)
    ensures Run(s, AsSeq(e) + rest) == Run(AfterPacket(s, e), rest)
  {
    hide Inv, Legal, Step;
    RunAppend(s, AsSeq(e), rest);
    if e.Some? {
      OneEvent(s, e.value);
      StepKeepsInv(s, e.value);
    } else {
      assert AsSeq(e) + rest == rest;
    }
  }

  // ---------------------------------------------------------------- the buffer, frame by frame

  /** What the first frame of a buffer adds to its events. */
  lemma BufferStep(conn: ConnId, buffer: seq<byte>, autoId: Str)
    requires FrameLength(buffer).Some?
    ensures var n := FrameLength(buffer).value;
            var h := HandFrame(buffer[..n]);
            BufferEvents(conn, buffer, autoId) ==
            if h.Hands? then AsSeq(EventOf(conn, h.packet, autoId)) + BufferEvents(conn, buffer[n..], autoId)
            else [Close(conn)]
    ensures var n := FrameLength(buffer).value;
            BufferLeft(buffer) == if HandFrame(buffer[..n]).Hands? then BufferLeft(buffer[n..]) else None
  {
    hide EventOf, Parse, Closes;
    var n := FrameLength(buffer).value;
    var h, rest := HandFrame(buffer[..n]), CutFrames(buffer[n..]);
    assert CutFrames(buffer).frames == [buffer[..n]] + rest.frames;
    assert CutFrames(buffer).frames[1..] == rest.frames;
    if h.Hands? {
      HandedFirst(conn, h.packet, Deliver(rest.frames, HandFrame), autoId);
    } else if h.HandsLast? {
      HandedLast(conn, h.packet, autoId);
    } else {
      assert DeliveryEvents(conn, Delivery([], false), autoId) == [Close(conn)];
    }
  }

  lemma HandedLast(conn: ConnId, packet: Packet, autoId: Str)
    requires Closes(packet)
    ensures DeliveryEvents(conn, Delivery([packet], false), autoId) == [Close(conn)]
  {
    DisconnectHasNoEvent(conn, packet, autoId);
    assert [packet][1..] == [];
    assert PacketEvents(conn, [packet], autoId) == [];
  }

  lemma HandedFirst(conn: ConnId, packet: Packet, d: Delivery, autoId: Str)
    ensures DeliveryEvents(conn, DeliverMore([packet], d), autoId) ==
            AsSeq(EventOf(conn, packet, autoId)) + DeliveryEvents(conn, d, autoId)
  {
    hide EventOf;
    assert ([packet] + d.handed)[1..] == d.handed;
  }

  lemma DisconnectHasNoEvent(conn: ConnId, packet: Packet, autoId: Str)
    requires Closes(packet)
    ensures EventOf(conn, packet, autoId) == None
  {
  }

  lemma BufferDone(conn: ConnId, buffer: seq<byte>, autoId: Str)
    requires FrameLength(buffer).None?
    ensures BufferEvents(conn, buffer, autoId) == [] && BufferLeft(buffer) == Some(buffer)
  {
  }

  /** After a packet, the connection holds the client id its handler returns; no other connection's changes. */
  lemma ConnsAfter(s: State, conn: ConnId, pkt: Packet, autoId: Str)
    requires Inv(s) && conn in s.conns
    requires EventOf(conn, pkt, autoId).Some? ==> Legal(s, EventOf(conn, pkt, autoId).value)
    ensures AfterPacket(s, EventOf(conn, pkt, autoId)).conns ==
            s.conns[conn := if pkt.ptype == CONNECT then Some(ClientOf(pkt, autoId)) else s.conns[conn]]
  {
  }

  lemma OpenStepKeeps(s: State, conn: ConnId)
    requires Inv(s) && Legal(s, Open(conn))
    ensures Inv(Step(s, Open(conn))) && Step(s, Open(conn)) == OpenStep(s, conn)
    ensures OpenStep(s, conn).conns == s.conns[conn := None]
  {
    StepKeepsInv(s, Open(conn));
  }

  lemma StartKeeps()
    ensures Inv(START)
  {
  }

  lemma CloseStepKeeps(s: State, conn: ConnId)
    requires Inv(s) && conn in s.conns
    ensures Legal(s, Close(conn)) && Inv(Step(s, Close(conn)))
    ensures Step(s, Close(conn)) == CloseStep(s, conn, s.conns[conn])
    ensures CloseStep(s, conn, s.conns[conn]).conns == s.conns - {conn}
  {
    StepKeepsInv(s, Close(conn));
  }

  // ---------------------------------------------------------------- the code

  class Server {
    const broker: Broker
    /** What each live handler has read and not yet parsed, and the client id it holds. */
    var buffers: map<ConnId, seq<byte>>
    var clients: map<ConnId, Option<Str>>

    ghost predicate Valid()
      reads this, broker, broker.topicTree, broker.topicTree.view.members, broker.store, broker.store.members
    {
      broker.Valid() && Inv(broker.Abs()) && clients == broker.conns && buffers.Keys == clients.Keys
    }

    /** Every object of the broker's is an old one or freshly made. */
    twostate predicate OnlyNewObjects()
      reads this, broker.topicTree, broker.store
    {
      broker.topicTree.OnlyNewNodes() && broker.store.OnlyNewSessions()
    }

    constructor ()
      ensures Valid() && broker.Abs() == START && buffers == map[]
      ensures fresh(broker) && fresh(broker.topicTree) && fresh(broker.store)
      ensures fresh(broker.topicTree.view.members) && fresh(broker.store.members)
    {
      broker := new Broker();
      buffers, clients := map[], map[];
      new;
      StartKeeps();
    }

    /** A handler starts, with nothing read and no client id. */
    method Open(conn: ConnId)
      requires Valid() && Legal(broker.Abs(), BrokerStates.Open(conn))
      modifies this, broker
      ensures Valid() && broker.Abs() == Step(old(broker.Abs()), BrokerStates.Open(conn))
      ensures buffers == old(buffers)[conn := []]
    {
      hide Broker.Valid, Legal, Inv, Step, OpenStep;
      OpenStepKeeps(broker.Abs(), conn);
      broker.Accept(conn);
      buffers, clients := buffers[conn := []], clients[conn := None];
    }

    /** The handler's cleanup. */
    method End(conn: ConnId)
      requires Valid() && conn in buffers
      modifies this, broker, broker.topicTree, broker.topicTree.view.members, broker.store, broker.store.members
      ensures Valid() && OnlyNewObjects()
      ensures Legal(old(broker.Abs()), Close(conn)) && broker.Abs() == Step(old(broker.Abs()), Close(conn))
      ensures buffers == old(buffers) - {conn}
    {
      hide Broker.Valid, Legal, Inv, Step, CloseStep;
      CloseStepKeeps(broker.Abs(), conn);
      broker.Cleanup(conn, clients[conn]);
      buffers, clients := buffers - {conn}, clients - {conn};
    }

    /** One packet goes to the broker. */
    method Handle(conn: ConnId, pkt: Packet, autoId: Str)
      requires Valid() && conn in buffers
      requires EventOf(conn, pkt, autoId).Some? ==> Legal(broker.Abs(), EventOf(conn, pkt, autoId).value)
      requires Inv(AfterPacket(broker.Abs(), EventOf(conn, pkt, autoId)))
      modifies this, broker, broker.topicTree, broker.topicTree.view.members, broker.store, broker.store.members
      ensures Valid() && OnlyNewObjects() && buffers == old(buffers)
      ensures broker.Abs() == AfterPacket(old(broker.Abs()), EventOf(conn, pkt, autoId))
    {
      hide Broker.Valid, EventOf, AfterPacket, Legal, Inv;
      ConnsAfter(broker.Abs(), conn, pkt, autoId);
      var client, _ := broker.HandlePacket(conn, clients[conn], pkt, autoId);
      clients := clients[conn := client];
    }

    /** One frame is parsed and handed over; a failure or a DISCONNECT ends the connection. */
    method TakeFrame(conn: ConnId, frame: seq<byte>, autoId: Str, ghost rest: seq<Event>) returns (goesOn: bool)
      requires Valid() && conn in buffers && |frame| >= 2
      requires HandFrame(frame).Hands? ==>
        LegalRun(broker.Abs(), AsSeq(EventOf(conn, HandFrame(frame).packet, autoId)) + rest)
      modifies this, broker, broker.topicTree, broker.topicTree.view.members, broker.store, broker.store.members
      ensures Valid() && OnlyNewObjects() && goesOn == HandFrame(frame).Hands?
      ensures goesOn ==> buffers == old(buffers) && LegalRun(broker.Abs(), rest)
      ensures goesOn ==>
        Run(old(broker.Abs()), AsSeq(EventOf(conn, HandFrame(frame).packet, autoId)) + rest) == Run(broker.Abs(), rest)
      ensures !goesOn ==> buffers == old(buffers) - {conn} && Legal(old(broker.Abs()), Close(conn))
      ensures !goesOn ==> broker.Abs() == Step(old(broker.Abs()), Close(conn))
    {
      hide Broker.Valid, EventOf, AfterPacket, Legal, Inv, Step, Parse, LegalRun, Run;
      var h := HandOver(frame);
      goesOn := h.Hands?;
      if goesOn {
        PacketFirst(broker.Abs(), EventOf(conn, h.packet, autoId), rest);
        Handle(conn, h.packet, autoId);
      } else {
        End(conn);
      }
    }

    /** The inner loop: hands over every complete packet of the buffer, and returns the bytes after them. */
    method Drain(conn: ConnId, start: seq<byte>, autoId: Str) returns (goesOn: bool, buffer: seq<byte>)
      requires Valid() && conn in buffers && LegalRun(broker.Abs(), BufferEvents(conn, start, autoId))
      modifies this, broker, broker.topicTree, broker.topicTree.view.members, broker.store, broker.store.members
      ensures Valid() && OnlyNewObjects()
      ensures broker.Abs() == Run(old(broker.Abs()), BufferEvents(conn, start, autoId))
      ensures BufferLeft(start) == if goesOn then Some(buffer) else None
      ensures buffers == if goesOn then old(buffers) else old(buffers) - {conn}
    {
      hide Broker.Valid, EventOf, Legal, LegalRun, Run, Inv, Step, BufferEvents, BufferLeft, HandFrame, FrameLength;
      goesOn, buffer := true, start;
      while |buffer| >= 2
        invariant Valid() && OnlyNewObjects() && goesOn && buffers == old(buffers)
        invariant LegalRun(broker.Abs(), BufferEvents(conn, buffer, autoId))
        invariant Run(broker.Abs(), BufferEvents(conn, buffer, autoId)) ==
                  Run(old(broker.Abs()), BufferEvents(conn, start, autoId))
        invariant BufferLeft(buffer) == BufferLeft(start)
        decreases |buffer|
      {
        var consumed := NextFrame(buffer);
        if consumed.None? {
          break;
        }
        BufferStep(conn, buffer, autoId);
        var frame, rest := buffer[..consumed.value], buffer[consumed.value..];
        OneEvent(broker.Abs(), Close(conn));
        goesOn := TakeFrame(conn, frame, autoId, BufferEvents(conn, rest, autoId));
        if !goesOn {
          return;
        }
        buffer := rest;
      }
      NoFrameLeft(buffer);
      BufferDone(conn, buffer, autoId);
      NoEvents(broker.Abs());
    }

    /** One read of a live connection returns: its bytes join the buffer, which is drained; no bytes end it. */
    method Read(conn: ConnId, chunk: seq<byte>, autoId: Str)
      requires Valid() && conn in buffers && LegalRun(broker.Abs(), ReadEvents(conn, buffers[conn], chunk, autoId))
      modifies this, broker, broker.topicTree, broker.topicTree.view.members, broker.store, broker.store.members
      ensures Valid() && OnlyNewObjects()
      ensures broker.Abs() == Run(old(broker.Abs()), ReadEvents(conn, old(buffers)[conn], chunk, autoId))
      ensures buffers == Keep(old(buffers), conn, ReadLeft(old(buffers)[conn], chunk))
    {
      hide Broker.Valid, Legal, LegalRun, Run, Inv, Step, BufferEvents, BufferLeft;
      if chunk == [] {
        OneEvent(broker.Abs(), Close(conn));
        End(conn);
      } else {
        var goesOn, left := Drain(conn, buffers[conn] + chunk, autoId);
        if goesOn {
          buffers := buffers[conn := left];
        }
      }
    }
  }

  lemma NoFrameLeft(buffer: seq<byte>)
    ensures |buffer| < 2 ==> FrameLength(buffer).None?
  {
  }

  // ---------------------------------------------------------------- all connections together

  /** What an input adds to the events of those before it. */
  function NewEvents(t: Track, input: Input, autoId: ConnId -> Str): seq<Event> {
    match input
    case Opens(conn) => [Open(conn)]
    case Reads(conn, chunk) => if conn in t.buffers then ReadEvents(conn, t.buffers[conn], chunk, autoId(conn)) else []
  }

  lemma AbsorbedEvents(t: Track, input: Input, autoId: ConnId -> Str)
    ensures Absorbed(t, input, autoId).events == t.events + NewEvents(t, input, autoId)
  {
    assert t.events + [] == t.events;
  }

  /** A legal run of all inputs is one of the inputs up to any point. */
  lemma {:induction false} LegalSoFar(inputs: seq<Input>, n: nat, autoId: ConnId -> Str)
    requires n <= |inputs| && LegalRun(START, TrackAll(inputs, autoId).events)
    ensures LegalRun(START, TrackAll(inputs[..n], autoId).events)
    decreases |inputs|
  {
    StartKeeps();
    hide Inv, LegalRun, Run;
    if n == |inputs| {
      assert inputs[..n] == inputs;
    } else {
      var t := TrackAll(Front(inputs), autoId);
      AbsorbedEvents(t, Last(inputs), autoId);
      RunAppend(START, t.events, NewEvents(t, Last(inputs), autoId));
      LegalSoFar(Front(inputs), n, autoId);
      assert Front(inputs)[..n] == inputs[..n];
    }
  }

  /** The next input, applied to a server that has taken those before it. */
  method Take(server: Server, input: Input, ghost t: Track, autoId: ConnId -> Str)
    requires server.Valid() && server.buffers == t.buffers
    requires LegalRun(START, t.events) && server.broker.Abs() == Run(START, t.events)
    requires LegalRun(START, Absorbed(t, input, autoId).events)
    modifies server, server.broker, server.broker.topicTree, server.broker.topicTree.view.members
    modifies server.broker.store, server.broker.store.members
    ensures server.Valid() && server.OnlyNewObjects()
    ensures server.buffers == Absorbed(t, input, autoId).buffers
    ensures server.broker.Abs() == Run(START, Absorbed(t, input, autoId).events)
  {
    StartKeeps();
    hide Inv, Legal, LegalRun, Run, Step, Broker.Valid, ReadEvents, ReadLeft;
    AbsorbedEvents(t, input, autoId);
    RunAppend(START, t.events, NewEvents(t, input, autoId));
    ghost var before := server.broker.Abs();
    match input {
      case Opens(conn) =>
        OneEvent(before, Open(conn));
        server.Open(conn);
      case Reads(conn, chunk) =>
        if conn in server.buffers {
          server.Read(conn, chunk, autoId(conn));
        } else {
          assert t.events + [] == t.events;
        }
    }
  }

  lemma TrackOneMore(inputs: seq<Input>, i: nat, autoId: ConnId -> Str)
    requires i < |inputs|
    ensures TrackAll(inputs[..i + 1], autoId) == Absorbed(TrackAll(inputs[..i], autoId), inputs[i], autoId)
  {
    hide Absorbed;
    assert Front(inputs[..i + 1]) == inputs[..i];
  }

  /** A server takes any inputs: however the bytes of its connections are cut into reads and interleaved, the broker
      ends in the state that the run of their packets' events leads to, the cleanups included. */
  method Serve(inputs: seq<Input>, autoId: ConnId -> Str) returns (server: Server)
    requires LegalRun(START, TrackAll(inputs, autoId).events)
    ensures server.Valid() && server.buffers == TrackAll(inputs, autoId).buffers
    ensures server.broker.Abs() == Run(START, TrackAll(inputs, autoId).events)
  {
    hide Legal, Step, Broker.Valid;
    server := new Server();
    for i := 0 to |inputs|
      invariant fresh(server) && fresh(server.broker) && fresh(server.broker.topicTree) && fresh(server.broker.store)
      invariant fresh(server.broker.topicTree.view.members) && fresh(server.broker.store.members)
      invariant server.Valid() && LegalRun(START, TrackAll(inputs[..i], autoId).events)
      invariant server.buffers == TrackAll(inputs[..i], autoId).buffers
      invariant server.broker.Abs() == Run(START, TrackAll(inputs[..i], autoId).events)
    {
      LegalSoFar(inputs, i + 1, autoId);
      TrackOneMore(inputs, i, autoId);
      Take(server, inputs[i], TrackAll(inputs[..i], autoId), autoId);
    }
    assert inputs[..|inputs|] == inputs;
  }
}
