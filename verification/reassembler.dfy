/** Putting streams of chunks back together. */
module Reassembler {
  import opened Wrappers
  import opened Bytes

  type StreamId = seq<byte>

  const STREAM_TIMEOUT: real := 30.0

  // ---------------------------------------------------------------- values

  /** A stream being collected. */
  datatype Buffer = Buffer(total: nat, chunks: map<nat, seq<byte>>, createdAt: real)

  type Streams = map<StreamId, Buffer>

  /** What one chunk gives: nothing yet, a whole payload, or the KeyError of a full count with a gap. */
  datatype Outcome = Waiting | Complete(payload: seq<byte>) | Raised

  predicate HasAll(chunks: map<nat, seq<byte>>, total: nat) {
    forall i :: 0 <= i < total ==> i in chunks
  }

  /** The chunks in index order. */
  function InOrder(chunks: map<nat, seq<byte>>, total: nat): seq<seq<byte>>
    requires HasAll(chunks, total)
  {
    seq(total, i requires 0 <= i < total => chunks[i])
  }

  function Collected(s: Streams, sid: StreamId, total: nat, now: real): Buffer {
    if sid in s then s[sid] else Buffer(total, map[], now)
  }

  function AddChunk(b: Buffer, index: nat, data: seq<byte>): Buffer {
    b.(chunks := b.chunks[index := data])
  }

  function WithChunk(s: Streams, sid: StreamId, index: nat, total: nat, data: seq<byte>, now: real): Streams {
    s[sid := AddChunk(Collected(s, sid, total, now), index, data)]
  }

  /** Hands over a stream whose count is full, and forgets it. */
  function Conclude(s: Streams, sid: StreamId): (Streams, Outcome)
    requires sid in s
  {
    if |s[sid].chunks| != s[sid].total then (s, Waiting)
    else if HasAll(s[sid].chunks, s[sid].total) then (s - {sid}, Complete(Concat(InOrder(s[sid].chunks, s[sid].total))))
    else (s, Raised)
  }

  /** One chunk, or one batch: the two are handled alike. */
  function Process(s: Streams, sid: StreamId, index: nat, total: nat, data: seq<byte>, now: real): (Streams, Outcome) {
    Conclude(WithChunk(s, sid, index, total, data, now), sid)
  }

  predicate Stale(b: Buffer, now: real) {
    now - b.createdAt > STREAM_TIMEOUT
  }

  function Cleanup(s: Streams, now: real): Streams {
    map sid | sid in s && !Stale(s[sid], now) :: s[sid]
  }

  // ---------------------------------------------------------------- the code

  class StreamBuffer {
    const totalChunks: nat
    const createdAt: real
    var chunks: map<nat, seq<byte>>

    constructor (totalChunks: nat, createdAt: real)
      ensures View() == Buffer(totalChunks, map[], createdAt)
    {
      this.totalChunks, this.createdAt, chunks := totalChunks, createdAt, map[];
    }

    ghost function View(): Buffer
      reads this
    {
      Buffer(totalChunks, chunks, createdAt)
    }

    method Add(index: nat, data: seq<byte>)
      modifies this
      ensures View() == AddChunk(old(View()), index, data)
    {
      chunks := chunks[index := data];
    }

    /** Joins the chunks in order; None where a missing index raises KeyError. */
    method Reassemble() returns (payload: Option<seq<byte>>)
      ensures payload == if HasAll(chunks, totalChunks) then Some(Concat(InOrder(chunks, totalChunks))) else None
    {
      var joined: seq<byte> := [];
      for i := 0 to totalChunks
        invariant HasAll(chunks, i) && joined == Concat(InOrder(chunks, i))
      {
        if i !in chunks {
          return None;
        }
        JoinOneMore(InOrder(chunks, i), chunks[i]);
        assert InOrder(chunks, i + 1) == InOrder(chunks, i) + [chunks[i]];
        joined := joined + chunks[i];
      }
      return Some(joined);
    }
  }

  lemma {:induction false} JoinOneMore(chunks: seq<seq<byte>>, last: seq<byte>)
    ensures Concat(chunks + [last]) == Concat(chunks) + last
  {
    if chunks == [] {
      assert Concat([last]) == last + Concat([]) == last;
      assert [] + [last] == [last];
    } else {
      assert (chunks + [last])[1..] == chunks[1..] + [last];
      JoinOneMore(chunks[1..], last);
    }
  }

  class ChunkReassembler {
    var streams: map<StreamId, StreamBuffer>
    ghost var view: Streams
    ghost var members: set<StreamBuffer>

    ghost predicate Valid()
      reads this, members
    {
      && streams.Keys == view.Keys
      && (forall sid {:trigger streams[sid]} :: sid in streams ==>
        streams[sid] in members && streams[sid].View() == view[sid])
      && (forall a, b {:trigger streams[a], streams[b]} ::
            a in streams && b in streams && streams[a] == streams[b] ==> a == b)
    }

    constructor ()
      ensures Valid() && view == map[] && members == {}
    {
      streams, view, members := map[], map[], {};
    }

    /** The stream's buffer, made when the stream is new. */
    method Open(sid: StreamId, total: nat, now: real) returns (buf: StreamBuffer)
      requires Valid()
      modifies this
      ensures Valid() && fresh(members - old(members))
      ensures sid in streams && streams[sid] == buf
      ensures view == old(view)[sid := Collected(old(view), sid, total, now)]
    {
      if sid !in streams {
        buf := new StreamBuffer(total, now);
        streams := streams[sid := buf];
        members := members + {buf};
        view := view[sid := Buffer(total, map[], now)];
      } else {
        buf := streams[sid];
      }
    }

    method AddTo(sid: StreamId, index: nat, data: seq<byte>)
      requires Valid() && sid in streams
      modifies this, streams[sid]
      ensures Valid() && members == old(members) && streams == old(streams)
      ensures view == old(view)[sid := AddChunk(old(view)[sid], index, data)]
    {
      streams[sid].Add(index, data);
      view := view[sid := AddChunk(view[sid], index, data)];
    }

    method Drop(sid: StreamId)
      requires Valid()
      modifies this
      ensures Valid() && members == old(members)
      ensures view == old(view) - {sid}
    {
      streams := streams - {sid};
      view := view - {sid};
    }

    method Finish(sid: StreamId) returns (r: Outcome)
      requires Valid() && sid in streams
      modifies this
      ensures Valid() && members == old(members)
      ensures (view, r) == Conclude(old(view), sid)
    {
      var buf := streams[sid];
      assert buf.View() == view[sid];
      if |buf.chunks| != buf.totalChunks {
        return Waiting;
      }
      var payload := buf.Reassemble();
      if payload.None? {
        return Raised;
      }
      Drop(sid);
      return Complete(payload.value);
    }

    method ProcessChunk(sid: StreamId, index: nat, total: nat, data: seq<byte>, now: real) returns (r: Outcome)
      requires Valid()
      modifies this, members
      ensures Valid() && fresh(members - old(members))
      ensures (view, r) == Process(old(view), sid, index, total, data, now)
    {
      hide Valid, Conclude, Concat;
      var buf := Open(sid, total, now);
      AddTo(sid, index, data);
      assert view == WithChunk(old(view), sid, index, total, data, now);
      r := Finish(sid);
    }

    method CleanupStale(now: real)
      requires Valid()
      modifies this
      ensures Valid() && members == old(members)
      ensures view == Cleanup(old(view), now)
    {
      var stale := set sid | sid in streams && now - streams[sid].createdAt > STREAM_TIMEOUT;
      assert forall sid :: sid in stale <==> sid in view && Stale(view[sid], now);
      hide Valid;
      var todo := stale;
      while todo != {}
        invariant todo <= stale && Valid() && members == old(members)
        invariant view == old(view) - (stale - todo)
        decreases todo
      {
        var sid :| sid in todo;
        Drop(sid);
        todo := todo - {sid};
      }
    }
  }
}
