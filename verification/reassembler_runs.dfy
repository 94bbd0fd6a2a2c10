/** What a receiver hands over, for any interleaving, reordering and repetition of the chunks of its streams. */
module ReassemblerRuns {
  import opened Bytes
  import opened Sequences
  import opened Chunker
  import opened Reassembler

  datatype Event =
    | Arrive(sid: StreamId, index: nat, total: nat, data: seq<byte>, now: real)
    | Sweep(now: real)

  function StateAfter(events: seq<Event>): Streams {
    if events == [] then map[]
    else match Last(events)
      case Arrive(sid, index, total, data, now) => Process(StateAfter(Front(events)), sid, index, total, data, now).0
      case Sweep(now) => Cleanup(StateAfter(Front(events)), now)
  }

  /** What the last event hands over. */
  function LastOutcome(events: seq<Event>): Outcome
    requires events != [] && Last(events).Arrive?
  {
    var e := Last(events);
    Process(StateAfter(Front(events)), e.sid, e.index, e.total, e.data, e.now).1
  }

  // ---------------------------------------------------------------- a log instead of buffers

  datatype Arrival = Arrival(index: nat, at: real)

  predicate Covers(log: seq<Arrival>, total: nat) {
    forall i :: 0 <= i < total ==> i in IndicesOf(log)
  }

  function IndicesOf(log: seq<Arrival>): set<nat> {
    set k | 0 <= k < |log| :: log[k].index
  }

  /** The arrivals of one stream since it was last complete, or last found stale: a stream is stale when its
      first pending arrival is too old. */
  function Pending(events: seq<Event>, sid: StreamId): seq<Arrival> {
    if events == [] then []
    else
      var log := Pending(Front(events), sid);
      match Last(events)
      case Arrive(other, index, total, _, now) =>
        if other != sid then log
        else if Covers(log + [Arrival(index, now)], total) then []
        else log + [Arrival(index, now)]
      case Sweep(now) =>
        if log != [] && now - log[0].at > STREAM_TIMEOUT then [] else log
  }

  /** Every arrival of one stream. */
  function Log(events: seq<Event>, sid: StreamId): seq<Arrival> {
    if events == [] then []
    else if Last(events).Arrive? && Last(events).sid == sid then
      Log(Front(events), sid) + [Arrival(Last(events).index, Last(events).now)]
    else Log(Front(events), sid)
  }

  /** The events of one stream carry the chunks given, each under its index. Other streams are free. */
  predicate Carries(events: seq<Event>, sid: StreamId, chunks: seq<seq<byte>>) {
    forall i :: 0 <= i < |events| && events[i].Arrive? && events[i].sid == sid ==>
      events[i].total == |chunks| && events[i].index < |chunks| && events[i].data == chunks[events[i].index]
  }

  // ---------------------------------------------------------------- counting the distinct indices

  function Below(n: nat): (all: set<nat>)
    ensures |all| == n && forall i :: i in all <==> 0 <= i < n
  {
    if n == 0 then {} else Below(n - 1) + {n - 1}
  }

  /** Distinct indices below n number n exactly when none is missing. */
  lemma FullIffCounted(s: set<nat>, n: nat)
    requires forall i :: i in s ==> i < n
    ensures |s| == n <==> forall i :: 0 <= i < n ==> i in s
  {
    assert s <= Below(n);
    if |s| == n {
      SubsetOfEqualSize(s, Below(n));
    } else {
      assert s != Below(n);
    }
  }

  lemma SubsetOfEqualSize<T>(a: set<T>, b: set<T>)
    requires a <= b && |a| == |b|
    ensures a == b
  {
    assert |b - a| == |b| - |a|;
    assert b == a + (b - a);
  }

  lemma IndicesGrow(log: seq<Arrival>, last: Arrival)
    ensures IndicesOf(log + [last]) == IndicesOf(log) + {last.index}
  {
    var longer := log + [last];
    assert longer[|log|] == last;
    forall i | i in IndicesOf(log)
      ensures i in IndicesOf(longer)
    {
      var k :| 0 <= k < |log| && log[k].index == i;
      assert longer[k].index == i;
    }
  }

  // ---------------------------------------------------------------- buffers follow the log

  /** A buffer holds exactly the chunks its log says, and dates from the log's first arrival. */
  predicate Holds(b: Buffer, log: seq<Arrival>, chunks: seq<seq<byte>>) {
    && log != [] && b.createdAt == log[0].at && b.total == |chunks|
    && b.chunks.Keys == IndicesOf(log)
    && forall i :: i in b.chunks ==> i < |chunks| && b.chunks[i] == chunks[i]
  }

  predicate Tracks(s: Streams, sid: StreamId, log: seq<Arrival>, chunks: seq<seq<byte>>) {
    if sid in s then Holds(s[sid], log, chunks) else log == []
  }

  lemma ChunkTracked(s: Streams, sid: StreamId, log: seq<Arrival>, chunks: seq<seq<byte>>, index: nat, now: real)
    requires Tracks(s, sid, log, chunks) && index < |chunks|
    ensures Holds(WithChunk(s, sid, index, |chunks|, chunks[index], now)[sid], log + [Arrival(index, now)], chunks)
  {
    IndicesGrow(log, Arrival(index, now));
  }

  /** A full buffer is handed over as the chunks in order; any other waits. None raises. */
  lemma ConcludeExactly(s: Streams, sid: StreamId, log: seq<Arrival>, chunks: seq<seq<byte>>)
    requires sid in s && Holds(s[sid], log, chunks)
    ensures Conclude(s, sid) ==
            if Covers(log, |chunks|) then (s - {sid}, Complete(Concat(chunks))) else (s, Waiting)
  {
    var b := s[sid];
    FullIffCounted(b.chunks.Keys, |chunks|);
    assert |b.chunks| == |b.chunks.Keys|;
    if Covers(log, |chunks|) {
      assert HasAll(b.chunks, b.total);
      assert InOrder(b.chunks, b.total) == chunks;
    }
  }

  /** In every reachable state, a stream's buffer is what its pending log says, whatever other streams do. */
  lemma {:induction false} BuffersFollowLog(events: seq<Event>, sid: StreamId, chunks: seq<seq<byte>>)
    requires Carries(events, sid, chunks)
    ensures Tracks(StateAfter(events), sid, Pending(events, sid), chunks)
  {
    if events != [] {
      BuffersFollowLog(Front(events), sid, chunks);
      var s, log := StateAfter(Front(events)), Pending(Front(events), sid);
      var e := Last(events);
      if e.Arrive? && e.sid == sid {
        ChunkTracked(s, sid, log, chunks, e.index, e.now);
        ConcludeExactly(WithChunk(s, sid, e.index, e.total, e.data, e.now), sid, log + [Arrival(e.index, e.now)],
          chunks);
      }
    }
  }

  /** An arrival hands over the whole payload exactly when it brings the last index missing since the stream was
      last complete or stale; otherwise it hands over nothing, and it never raises. */
  lemma HandsOverExactly(events: seq<Event>, sid: StreamId, chunks: seq<seq<byte>>)
    requires events != [] && Carries(events, sid, chunks) && Last(events).Arrive? && Last(events).sid == sid
    ensures LastOutcome(events) ==
            if Covers(Pending(Front(events), sid) + [Arrival(Last(events).index, Last(events).now)], |chunks|)
            then Complete(Concat(chunks)) else Waiting
  {
    BuffersFollowLog(Front(events), sid, chunks);
    var s, log, e := StateAfter(Front(events)), Pending(Front(events), sid), Last(events);
    ChunkTracked(s, sid, log, chunks, e.index, e.now);
    ConcludeExactly(WithChunk(s, sid, e.index, e.total, e.data, e.now), sid, log + [Arrival(e.index, e.now)], chunks);
  }

  lemma CoversMonotone(log: seq<Arrival>, last: Arrival, total: nat)
    requires Covers(log, total)
    ensures Covers(log + [last], total)
  {
    IndicesGrow(log, last);
  }

  /** No sweep finds the first arrival of the stream too old. */
  predicate SweepsSpare(events: seq<Event>, sid: StreamId) {
    if events == [] then true
    else
      && SweepsSpare(Front(events), sid)
      && var log := Log(Front(events), sid);
         (Last(events).Sweep? && log != [] ==> Last(events).now - log[0].at <= STREAM_TIMEOUT)
  }

  /** While nothing goes stale and an index is still missing, every arrival is pending. */
  lemma {:induction false} NothingForgotten(events: seq<Event>, sid: StreamId, chunks: seq<seq<byte>>)
    requires Carries(events, sid, chunks) && !Covers(Log(events, sid), |chunks|) && SweepsSpare(events, sid)
    ensures Pending(events, sid) == Log(events, sid)
  {
    if events != [] {
      var e := Last(events);
      if e.Arrive? && e.sid == sid && Covers(Log(Front(events), sid), |chunks|) {
        CoversMonotone(Log(Front(events), sid), Arrival(e.index, e.now), |chunks|);
      }
      NothingForgotten(Front(events), sid, chunks);
    }
  }

  /** The sender's payload comes back whole, from any order, any repetition, among any other streams and through
      any sweeps: on exactly the arrivals that leave no chunk missing since the stream was last complete or stale. */
  lemma PayloadComesBack(events: seq<Event>, sid: StreamId, payload: seq<byte>, size: nat)
    requires size > 0 && events != [] && Last(events).Arrive? && Last(events).sid == sid
    requires Carries(events, sid, SplitPayload(payload, size))
    ensures var pending := Pending(Front(events), sid) + [Arrival(Last(events).index, Last(events).now)];
            LastOutcome(events) ==
            if Covers(pending, |SplitPayload(payload, size)|) then Complete(payload) else Waiting
  {
    HandsOverExactly(events, sid, SplitPayload(payload, size));
    JoinSplit(payload, size);
  }

  /** The first time: while no sweep forgets the stream, the payload comes on the first arrival after which every
      chunk has come, and not before. */
  lemma PayloadComesFirst(events: seq<Event>, sid: StreamId, payload: seq<byte>, size: nat)
    requires size > 0 && events != [] && Last(events).Arrive? && Last(events).sid == sid
    requires Carries(events, sid, SplitPayload(payload, size)) && SweepsSpare(Front(events), sid)
    requires !Covers(Log(Front(events), sid), |SplitPayload(payload, size)|)
    ensures LastOutcome(events) ==
            if Covers(Log(events, sid), |SplitPayload(payload, size)|) then Complete(payload) else Waiting
  {
    NothingForgotten(Front(events), sid, SplitPayload(payload, size));
    PayloadComesBack(events, sid, payload, size);
  }

  /** Without the range check, a full count raises exactly when some index lies beyond the total. */
  lemma RaisesExactly(s: Streams, sid: StreamId)
    requires sid in s
    ensures Conclude(s, sid).1 == Raised <==>
            |s[sid].chunks| == s[sid].total && exists i :: i in s[sid].chunks && i >= s[sid].total
  {
    var b := s[sid];
    assert |b.chunks| == |b.chunks.Keys|;
    if forall i :: i in b.chunks.Keys ==> i < b.total {
      FullIffCounted(b.chunks.Keys, b.total);
    } else if |b.chunks| == b.total && HasAll(b.chunks, b.total) {
      assert Below(b.total) <= b.chunks.Keys;
      SubsetOfEqualSize(Below(b.total), b.chunks.Keys);
    }
  }
}
