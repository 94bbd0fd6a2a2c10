/** The loop that cuts packets out of the bytes a connection has read so far and hands them over. */
module Framing {
  import opened Wrappers
  import opened Bytes
  import opened PacketParser

  // ---------------------------------------------------------------- cutting frames

  /** How many bytes the first packet of the buffer takes, once all of them are there. */
  function FrameLength(buffer: seq<byte>): (r: Option<nat>)
    ensures r.Some? ==> 2 <= r.value <= |buffer|
  {
    if |buffer| < 2 then None
    else
      var (length, offset) :- DecodeLength(buffer, 1);
      if |buffer| < offset + length then None else Some(offset + length)
  }

  /** The complete frames at the front of a buffer, and the bytes after them. */
  datatype Cut = Cut(frames: seq<seq<byte>>, rest: seq<byte>)

  function CutFrames(buffer: seq<byte>): Cut
    decreases |buffer|
  {
    var frame := FrameLength(buffer);
    if frame.None? then Cut([], buffer)
    else CutMore([buffer[..frame.value]], CutFrames(buffer[frame.value..]))
  }

  function CutMore(frames: seq<seq<byte>>, c: Cut): Cut {
    Cut(frames + c.frames, c.rest)
  }

  lemma CutMoreMore(a: seq<seq<byte>>, b: seq<seq<byte>>, c: Cut)
    ensures CutMore(a, CutMore(b, c)) == CutMore(a + b, c)
    ensures CutMore([], c) == c
  {
    assert a + (b + c.frames) == (a + b) + c.frames;
    assert [] + c.frames == c.frames;
  }

  /** Appending bytes does not change a frame that is already complete. */
  lemma FrameLocal(buffer: seq<byte>, more: seq<byte>)
    requires FrameLength(buffer).Some?
    ensures FrameLength(buffer + more) == FrameLength(buffer)
    ensures var n := FrameLength(buffer).value;
            (buffer + more)[..n] == buffer[..n] && (buffer + more)[n..] == buffer[n..] + more
  {
    DecodeLengthLocal(buffer, more, 1);
  }

  /** Cutting what was left over together with new bytes is cutting everything at once. */
  lemma {:induction false} CutAppend(buffer: seq<byte>, more: seq<byte>)
    ensures CutFrames(buffer + more) == CutMore(CutFrames(buffer).frames, CutFrames(CutFrames(buffer).rest + more))
    decreases |buffer|
  {
    var frame := FrameLength(buffer);
    if frame.None? {
      CutMoreMore([], [], CutFrames(buffer + more));
    } else {
      FrameLocal(buffer, more);
      var first, rest := buffer[..frame.value], buffer[frame.value..];
      CutAppend(rest, more);
      CutMoreMore([first], CutFrames(rest).frames, CutFrames(CutFrames(rest).rest + more));
    }
  }

  /** A cut accounts for its input: the input is the frames in order, then the rest; every frame is whole, and no
      whole frame is left over. */
  predicate Accounts(buffer: seq<byte>, c: Cut) {
    && Concat(c.frames) + c.rest == buffer
    && FrameLength(c.rest).None?
    && forall i :: 0 <= i < |c.frames| ==> FrameLength(c.frames[i]) == Some(|c.frames[i]|)
  }

  lemma AccountsMore(first: seq<byte>, rest: seq<byte>, c: Cut)
    requires Accounts(rest, c) && FrameLength(first) == Some(|first|)
    ensures Accounts(first + rest, CutMore([first], c))
  {
    hide FrameLength;
    ConcatFirst(first, c);
  }

  lemma CutNothing(buffer: seq<byte>)
    requires FrameLength(buffer).None?
    ensures CutFrames(buffer) == Cut([], buffer) && Accounts(buffer, Cut([], buffer))
  {
    hide FrameLength;
    assert Concat([]) + buffer == buffer;
  }

  lemma CutFirst(buffer: seq<byte>)
    requires FrameLength(buffer).Some?
    ensures var n := FrameLength(buffer).value; CutFrames(buffer) == CutMore([buffer[..n]], CutFrames(buffer[n..]))
  {
    hide FrameLength;
  }

  /** Nothing is lost or invented. */
  lemma {:induction false} CutAccounts(buffer: seq<byte>)
    ensures Accounts(buffer, CutFrames(buffer))
    decreases |buffer|
  {
    hide FrameLength, Accounts, CutFrames;
    if FrameLength(buffer).None? {
      CutNothing(buffer);
    } else {
      var n := FrameLength(buffer).value;
      CutFirst(buffer);
      CutAccounts(buffer[n..]);
      FrameIsWhole(buffer);
      AccountsMore(buffer[..n], buffer[n..], CutFrames(buffer[n..]));
      assert buffer[..n] + buffer[n..] == buffer;
    }
  }

  lemma ConcatFirst(first: seq<byte>, c: Cut)
    ensures Concat(CutMore([first], c).frames) + c.rest == first + (Concat(c.frames) + c.rest)
  {
    assert ([first] + c.frames)[1..] == c.frames;
    assert first + Concat(c.frames) + c.rest == first + (Concat(c.frames) + c.rest);
  }

  lemma FrameIsWhole(buffer: seq<byte>)
    requires FrameLength(buffer).Some?
    ensures var n := FrameLength(buffer).value; FrameLength(buffer[..n]) == Some(n)
  {
    var n := FrameLength(buffer).value;
    DecodeLengthPrefix(buffer, n, 1);
  }

  /** Decoding needs only the bytes up to the end of the integer. */
  lemma {:induction false} DecodeLengthPrefix(data: seq<byte>, n: nat, offset: nat)
    requires DecodeLength(data, offset).Some? && DecodeLength(data, offset).value.1 <= n <= |data|
    ensures DecodeLength(data[..n], offset) == DecodeLength(data, offset)
    decreases |data| - offset
  {
    if data[offset] >= 128 {
      DecodeLengthPrefix(data, n, offset + 1);
    }
  }

  // ---------------------------------------------------------------- handing packets over

  /** The packets handed over, and whether the connection is still open afterwards. */
  datatype Delivery = Delivery(handed: seq<Packet>, open: bool)

  /** The handler raises on DISCONNECT, which ends the connection. */
  predicate Closes(pkt: Packet) {
    pkt.ptype == DISCONNECT
  }

  /** What becomes of one frame: it fails to parse, or its packet is handed over, perhaps as the last. */
  datatype Handing = Fails | HandsLast(packet: Packet) | Hands(packet: Packet)

  function HandFrame(frame: seq<byte>): Handing {
    var parsed := Parse(frame);
    if !parsed.Ok? then Fails else if Closes(parsed.packet) then HandsLast(parsed.packet) else Hands(parsed.packet)
  }

  /** Frames are handed over in turn until one fails to parse or closes the connection. What a single
      frame does is a parameter: nothing about framing depends on it. */
  function Deliver(frames: seq<seq<byte>>, hand: seq<byte> -> Handing): Delivery {
    if frames == [] then Delivery([], true)
    else
      match hand(frames[0])
      case Fails => Delivery([], false)
      case HandsLast(packet) => Delivery([packet], false)
      case Hands(packet) => DeliverMore([packet], Deliver(frames[1..], hand))
  }

  function DeliverMore(handed: seq<Packet>, d: Delivery): Delivery {
    Delivery(handed + d.handed, d.open)
  }

  lemma DeliverMoreMore(a: seq<Packet>, b: seq<Packet>, d: Delivery)
    ensures DeliverMore(a, DeliverMore(b, d)) == DeliverMore(a + b, d)
    ensures DeliverMore([], d) == d
  {
    assert a + (b + d.handed) == (a + b) + d.handed;
    assert [] + d.handed == d.handed;
  }

  lemma {:induction false} DeliverAppend(a: seq<seq<byte>>, b: seq<seq<byte>>, hand: seq<byte> -> Handing)
    ensures Deliver(a + b, hand) ==
            if Deliver(a, hand).open then DeliverMore(Deliver(a, hand).handed, Deliver(b, hand)) else Deliver(a, hand)
    decreases |a|
  {
    if a == [] {
      assert a + b == b;
      DeliverMoreMore([], [], Deliver(b, hand));
    } else {
      assert (a + b)[1..] == a[1..] + b;
      DeliverAppend(a[1..], b, hand);
      if hand(a[0]).Hands? {
        DeliverMoreMore([hand(a[0]).packet], Deliver(a[1..], hand).handed, Deliver(b, hand));
      }
    }
  }

  /** The i-th packet handed over is the i-th frame parsed, and an open connection skipped none. */
  lemma {:induction false} DeliverParses(frames: seq<seq<byte>>)
    ensures var d := Deliver(frames, HandFrame);
            && |d.handed| <= |frames| && (d.open ==> |d.handed| == |frames|)
            && forall i :: 0 <= i < |d.handed| ==> Parse(frames[i]) == Ok(d.handed[i])
  {
    if frames != [] {
      DeliverParses(frames[1..]);
    }
  }

  // ---------------------------------------------------------------- a connection's reads

  datatype Connection = Connection(handed: seq<Packet>, buffer: seq<byte>, open: bool)

  const FRESH: Connection := Connection([], [], true)

  /** One read: while the connection is open its bytes join the buffer, which is then drained. */
  function Feed(conn: Connection, chunk: seq<byte>, hand: seq<byte> -> Handing): Connection {
    if !conn.open then conn else Absorb(conn.handed, CutFrames(conn.buffer + chunk), hand)
  }

  function Absorb(handed: seq<Packet>, c: Cut, hand: seq<byte> -> Handing): Connection {
    var d := Deliver(c.frames, hand);
    Connection(handed + d.handed, c.rest, d.open)
  }

  function FeedAll(conn: Connection, chunks: seq<seq<byte>>, hand: seq<byte> -> Handing): Connection
    decreases |chunks|
  {
    if chunks == [] then conn else FeedAll(Feed(conn, chunks[0], hand), chunks[1..], hand)
  }

  /** The same connection as far as anyone can see: the buffer of a closed one is thrown away. */
  predicate SameSeen(a: Connection, b: Connection) {
    a.handed == b.handed && a.open == b.open && (a.open ==> a.buffer == b.buffer)
  }

  /** Two reads in a row are one read of the joined bytes. */
  lemma FeedTwice(conn: Connection, a: seq<byte>, b: seq<byte>, hand: seq<byte> -> Handing)
    ensures SameSeen(Feed(Feed(conn, a, hand), b, hand), Feed(conn, a + b, hand))
  {
    hide CutFrames, Deliver;
    if conn.open {
      var c := CutFrames(conn.buffer + a);
      CutAppend(conn.buffer + a, b);
      assert conn.buffer + a + b == conn.buffer + (a + b);
      AbsorbTwice(conn.handed, c, CutFrames(c.rest + b), hand);
    }
  }

  lemma AbsorbTwice(handed: seq<Packet>, c: Cut, c': Cut, hand: seq<byte> -> Handing)
    ensures var once := Absorb(handed, c, hand);
            SameSeen(if once.open then Absorb(once.handed, c', hand) else once,
              Absorb(handed, CutMore(c.frames, c'), hand))
  {
    DeliverAppend(c.frames, c'.frames, hand);
    var d, d' := Deliver(c.frames, hand), Deliver(c'.frames, hand);
    assert handed + (d.handed + d'.handed) == (handed + d.handed) + d'.handed;
  }

  lemma {:induction false} FeedSameSeen(a: Connection, b: Connection, chunks: seq<seq<byte>>,
      hand: seq<byte> -> Handing)
    requires SameSeen(a, b)
    ensures SameSeen(FeedAll(a, chunks, hand), FeedAll(b, chunks, hand))
    decreases |chunks|
  {
    if chunks != [] {
      FeedSameSeen(Feed(a, chunks[0], hand), Feed(b, chunks[0], hand), chunks[1..], hand);
    }
  }

  lemma {:induction false} FeedAllIsFeedConcat(conn: Connection, chunks: seq<seq<byte>>, hand: seq<byte> -> Handing)
    requires conn.open ==> FrameLength(conn.buffer).None?
    ensures SameSeen(FeedAll(conn, chunks, hand), Feed(conn, Concat(chunks), hand))
    decreases |chunks|
  {
    if chunks == [] {
      assert conn.buffer + [] == conn.buffer && conn.handed + [] == conn.handed;
    } else {
      CutAccounts(conn.buffer + chunks[0]);
      FeedAllIsFeedConcat(Feed(conn, chunks[0], hand), chunks[1..], hand);
      FeedTwice(conn, chunks[0], Concat(chunks[1..]), hand);
    }
  }

  /** One pass over a whole stream. */
  function OnePass(stream: seq<byte>, hand: seq<byte> -> Handing): Connection {
    Absorb([], CutFrames(stream), hand)
  }

  /** However a byte stream is cut into reads, the same packets are handed over in the same order, the
      connection ends on the same packet, and the same suffix is left when it does not end. */
  lemma FramingIndependent(chunks: seq<seq<byte>>, hand: seq<byte> -> Handing)
    ensures SameSeen(FeedAll(FRESH, chunks, hand), OnePass(Concat(chunks), hand))
  {
    FeedAllIsFeedConcat(FRESH, chunks, hand);
    var stream := Concat(chunks);
    assert [] + stream == stream;
  }

  // ---------------------------------------------------------------- the code

  /** The reads up to the empty one that marks the end of the stream. */
  function UntilEof(received: seq<seq<byte>>): seq<seq<byte>> {
    if received == [] || received[0] == [] then [] else [received[0]] + UntilEof(received[1..])
  }

  /** The next frame, found the way the loop finds it. */
  method NextFrame(buffer: seq<byte>) returns (frame: Option<nat>)
    requires |buffer| >= 2
    ensures frame == FrameLength(buffer)
  {
    var header := DecodeRemainingLength(buffer, 1);
    if header.None? {
      return None;
    }
    var (length, offset) := header.value;
    var consumed := offset + length;
    return if |buffer| < consumed then None else Some(consumed);
  }

  lemma WholeFrameParses(frame: seq<byte>)
    requires |frame| >= 2
    ensures !Parse(frame).TooShort?
  {
  }

  /** Parses one frame and says what the handler does with it. */
  method HandOver(frame: seq<byte>) returns (h: Handing)
    requires |frame| >= 2
    ensures h == HandFrame(frame)
  {
    var parsed := ParsePacket(frame);
    WholeFrameParses(frame);
    if parsed.Raised? {
      return Fails;
    }
    return if Closes(parsed.packet) then HandsLast(parsed.packet) else Hands(parsed.packet);
  }

  /** The inner loop: hands over every complete packet of the buffer. */
  method DrainBuffer(start: seq<byte>, ghost hand: seq<byte> -> Handing)
    returns (handed: seq<Packet>, buffer: seq<byte>, open: bool)
    requires forall frame :: hand(frame) == HandFrame(frame)
    ensures Deliver(CutFrames(start).frames, hand) == Delivery(handed, open)
    ensures open ==> buffer == CutFrames(start).rest
  {
    handed, buffer, open := [], start, true;
    DeliverMoreMore([], [], Deliver(CutFrames(start).frames, hand));
    while |buffer| >= 2
      invariant Deliver(CutFrames(start).frames, hand) == DeliverMore(handed, Deliver(CutFrames(buffer).frames, hand))
      invariant CutFrames(start).rest == CutFrames(buffer).rest
      decreases |buffer|
    {
      var consumed := NextFrame(buffer);
      if consumed.None? {
        break;
      }
      var frame, rest := buffer[..consumed.value], buffer[consumed.value..];
      assert CutFrames(buffer).frames == [frame] + CutFrames(rest).frames;
      assert CutFrames(buffer).frames[1..] == CutFrames(rest).frames;
      var h := HandOver(frame);
      if h.Fails? {
        assert handed + [] == handed;
        return handed, buffer, false;
      }
      DeliverMoreMore(handed, [h.packet], Deliver(CutFrames(rest).frames, hand));
      buffer := rest;
      handed := handed + [h.packet];
      if h.HandsLast? {
        return handed, buffer, false;
      }
    }
    assert handed + [] == handed;
  }

  /** The reading loop of a connection. */
  method HandleReads(received: seq<seq<byte>>) returns (conn: Connection)
    ensures SameSeen(conn, OnePass(Concat(UntilEof(received)), HandFrame))
  {
    ghost var hand := HandFrame;
    conn := FRESH;
    var i := 0;
    while i < |received| && conn.open
      invariant i <= |received|
      invariant SameSeen(FeedAll(FRESH, UntilEof(received), hand), FeedAll(conn, UntilEof(received[i..]), hand))
    {
      var chunk := received[i];
      assert received[i..][1..] == received[i + 1..];
      if chunk == [] {
        break;
      }
      assert UntilEof(received[i..])[1..] == UntilEof(received[i + 1..]);
      var handed, buffer, open := DrainBuffer(conn.buffer + chunk, hand);
      ghost var fed := Feed(conn, chunk, hand);
      conn := Connection(conn.handed + handed, buffer, open);
      FeedSameSeen(fed, conn, UntilEof(received[i + 1..]), hand);
      i := i + 1;
    }
    if !conn.open {
      ClosedIgnores(conn, UntilEof(received[i..]), hand);
    }
    FramingIndependent(UntilEof(received), hand);
  }

  lemma {:induction false} ClosedIgnores(conn: Connection, chunks: seq<seq<byte>>, hand: seq<byte> -> Handing)
    requires !conn.open
    ensures FeedAll(conn, chunks, hand) == conn
    decreases |chunks|
  {
    if chunks != [] {
      ClosedIgnores(conn, chunks[1..], hand);
    }
  }
}
