/** Splitting a payload into chunks, and planning which stream carries which chunk. */
module Chunker {
  import opened Arithmetic
  import opened Bytes

  /** The chunks of a payload: full ones, then what is left. No chunks for an empty payload or size 0. */
  function SplitPayload(payload: seq<byte>, size: nat): (chunks: seq<seq<byte>>)
    decreases |payload|
  {
    if payload == [] || size == 0 then []
    else [payload[..Min(size, |payload|)]] + SplitPayload(payload[Min(size, |payload|)..], size)
  }

  function ChunkCount(total: nat, size: nat): nat
    requires size > 0
  {
    Quotient(total + size - 1, size);
    (total + size - 1) / size
  }

  /** Joining the chunks gives the payload back, whenever there is a chunk size. */
  lemma {:induction false} JoinSplit(payload: seq<byte>, size: nat)
    requires size > 0
    ensures Concat(SplitPayload(payload, size)) == payload
    decreases |payload|
  {
    if payload != [] {
      var n := Min(size, |payload|);
      JoinSplit(payload[n..], size);
      assert SplitPayload(payload, size)[1..] == SplitPayload(payload[n..], size);
    }
  }

  lemma CountOneMore(total: nat, size: nat)
    requires size > 0 && total > 0
    ensures ChunkCount(total, size) == 1 + ChunkCount(total - Min(size, total), size)
  {
    if total >= size {
      AddSize(total - 1, size);
    } else {
      AddSize(total - 1, size);
    }
  }

  lemma AddSize(x: nat, size: nat)
    requires size > 0
    ensures (x + size) / size == x / size + 1
    ensures x < size ==> x / size == 0
    ensures 0 <= x / size
  {
    var q := x / size;
    Quotient(x, size);
    Distribute(q, 1, size);
    DivUnique(x + size, size, q + 1, x % size);
    if x < size {
      DivUnique(x, size, 0, x);
    }
  }

  lemma SplitRest(payload: seq<byte>, size: nat)
    requires size > 0 && payload != []
    ensures var n, chunks := Min(size, |payload|), SplitPayload(payload, size);
            chunks != [] && chunks[0] == payload[..n] && chunks[1..] == SplitPayload(payload[n..], size)
  {
  }

  /** Where chunk i starts. */
  function Offset(i: nat, size: nat): nat {
    if i == 0 then 0 else Offset(i - 1, size) + size
  }

  lemma {:induction false} OffsetIsProduct(i: nat, size: nat)
    ensures Offset(i, size) == i * size
  {
    if i > 0 {
      OffsetIsProduct(i - 1, size);
      Distribute(i - 1, 1, size);
    }
  }

  lemma {:induction false} ChunkAt(payload: seq<byte>, size: nat, i: nat)
    requires size > 0 && i < |SplitPayload(payload, size)|
    ensures Offset(i, size) < |payload|
    ensures SplitPayload(payload, size)[i] == payload[Offset(i, size)..Min(Offset(i, size) + size, |payload|)]
    decreases |payload|
  {
    SplitRest(payload, size);
    if i > 0 {
      hide SplitPayload;
      var n, start := Min(size, |payload|), Offset(i - 1, size);
      ChunkAt(payload[n..], size, i - 1);
      SliceOfTail(payload, n, start, Min(start + size, |payload[n..]|));
    }
  }

  /** Chunk i holds the bytes from i * size on, up to the size or the end. */
  lemma SplitAt(payload: seq<byte>, size: nat, i: nat)
    requires size > 0 && i < |SplitPayload(payload, size)|
    ensures 0 <= i * size < |payload|
    ensures SplitPayload(payload, size)[i] == payload[i * size..Min(i * size + size, |payload|)]
  {
    hide SplitPayload, Offset;
    ChunkAt(payload, size, i);
    OffsetIsProduct(i, size);
  }

  lemma SliceOfTail(s: seq<byte>, n: nat, start: nat, end: nat)
    requires n <= |s| && start <= end <= |s| - n
    ensures s[n..][start..end] == s[n + start..n + end]
  {
  }

  lemma {:induction false} SplitCount(payload: seq<byte>, size: nat)
    requires size > 0
    ensures |SplitPayload(payload, size)| == ChunkCount(|payload|, size)
    decreases |payload|
  {
    if payload == [] {
      AddSize(size - 1, size);
    } else {
      SplitCount(payload[Min(size, |payload|)..], size);
      CountOneMore(|payload|, size);
    }
  }

  /** The second implementation, a comprehension over the multiples of the size, gives the same chunks. */
  function SplitBySlices(payload: seq<byte>, size: nat): seq<seq<byte>> {
    if payload == [] || size == 0 then []
    else
      var n := ChunkCount(|payload|, size);
      seq(n, i requires 0 <= i < n => Slice(payload, i * size, i * size + size))
  }

  lemma SliceOf(payload: seq<byte>, start: nat, size: nat)
    requires start < |payload|
    ensures Slice(payload, start, start + size) == payload[start..Min(start + size, |payload|)]
  {
  }

  lemma SlicesAt(payload: seq<byte>, size: nat, i: nat)
    requires size > 0 && payload != [] && i < ChunkCount(|payload|, size)
    ensures |SplitBySlices(payload, size)| == ChunkCount(|payload|, size)
    ensures i * size >= 0 && SplitBySlices(payload, size)[i] == Slice(payload, i * size, i * size + size)
  {
    hide Slice, ChunkCount;
    Product(i, size);
  }

  lemma SliceIsChunk(payload: seq<byte>, size: nat, i: nat)
    requires size > 0 && i < |SplitPayload(payload, size)|
    ensures i * size >= 0 && SplitPayload(payload, size)[i] == Slice(payload, i * size, i * size + size)
  {
    hide SplitPayload, Slice;
    Product(i, size);
    SplitAt(payload, size, i);
    SliceOf(payload, i * size, size);
  }

  lemma SplitSizesAgree(payload: seq<byte>, size: nat)
    requires size > 0 && payload != []
    ensures |SplitPayload(payload, size)| == |SplitBySlices(payload, size)| == ChunkCount(|payload|, size)
  {
    hide SplitPayload, Slice, ChunkCount;
    SplitCount(payload, size);
  }

  /** The second implementation gives the same chunks for every payload and size. */
  lemma SplitsAgree(payload: seq<byte>, size: nat)
    ensures SplitPayload(payload, size) == SplitBySlices(payload, size)
  {
    if payload != [] && size > 0 {
      hide *;
      SplitSizesAgree(payload, size);
      forall i | 0 <= i < |SplitPayload(payload, size)|
        ensures SplitPayload(payload, size)[i] == SplitBySlices(payload, size)[i]
      {
        SlicesAt(payload, size, i);
        SliceIsChunk(payload, size, i);
      }
    }
  }

  // ---------------------------------------------------------------- parallel plans

  /** Which stream carries a chunk, the chunk's number, and where it starts and ends in the payload. */
  datatype Slot = Slot(stream: nat, index: nat, start: nat, end: nat)

  /** The plan's intervals tile the payload: they start at 0, follow each other, end at its end, and none is
      empty. */
  predicate Tiles(plan: seq<Slot>, total: nat) {
    && (plan == [] <==> total == 0)
    && (plan != [] ==> plan[0].start == 0 && plan[|plan| - 1].end == total)
    && (forall i :: 0 <= i < |plan| - 1 ==> plan[i].end == plan[i + 1].start)
    && (forall i :: 0 <= i < |plan| ==> plan[i].index == i && plan[i].start < plan[i].end)
  }

  /** How many slots of the plan a stream carries. */
  function CountStream(plan: seq<Slot>, stream: nat): nat {
    if plan == [] then 0
    else CountStream(plan[..|plan| - 1], stream) + if plan[|plan| - 1].stream == stream then 1 else 0
  }

  lemma PlanSlot(total: nat, size: nat, i: nat)
    requires size > 0 && i < ChunkCount(total, size)
    ensures i * size < total
    ensures i + 1 < ChunkCount(total, size) ==> i * size + size < total
    ensures i + 1 == ChunkCount(total, size) ==> total <= i * size + size
  {
    var n := ChunkCount(total, size);
    assert total + size - 1 == n * size + (total + size - 1) % size;
    Monotone(i + 1, n, size);
    Distribute(i, 1, size);
    if i + 1 < n {
      Monotone(i + 2, n, size);
      Distribute(i, 2, size);
    }
  }

  function SlotAt(total: nat, size: nat, streams: nat, i: nat): Slot
    requires streams > 0
  {
    Slot(i % streams, i, i * size, Min(i * size + size, total))
  }

  lemma NoChunks(total: nat, size: nat)
    requires size > 0
    ensures ChunkCount(total, size) == 0 <==> total == 0
  {
    AddSize(total, size);
    if total == 0 {
      DivUnique(size - 1, size, 0, size - 1);
    } else {
      AddSize(total - 1, size);
    }
  }

  lemma PlanTiles(plan: seq<Slot>, total: nat, size: nat, streams: nat)
    requires size > 0 && streams > 0 && |plan| == ChunkCount(total, size)
    requires forall i :: 0 <= i < |plan| ==> plan[i] == SlotAt(total, size, streams, i)
    ensures Tiles(plan, total)
  {
    NoChunks(total, size);
    forall i | 0 <= i < |plan|
      ensures plan[i].start < plan[i].end
      ensures i + 1 < |plan| ==> plan[i].end == plan[i + 1].start
      ensures i + 1 == |plan| ==> plan[i].end == total
    {
      PlanSlot(total, size, i);
      Distribute(i, 1, size);
    }
  }

  method PlanParallelChunks(total: nat, size: nat, streams: nat) returns (plan: seq<Slot>)
    ensures size == 0 || streams == 0 ==> plan == []
    ensures size > 0 && streams > 0 ==>
      |plan| == ChunkCount(total, size) && Tiles(plan, total) &&
      forall i :: 0 <= i < |plan| ==> plan[i] == SlotAt(total, size, streams, i)
    ensures size > 0 && streams > 0 ==> InTurn(plan, size, streams)
    ensures forall a, b :: 0 <= a < streams && 0 <= b < streams ==> CountStream(plan, a) <= CountStream(plan, b) + 1
  {
    plan := [];
    if size == 0 || streams == 0 {
      return;
    }
    var n := ChunkCount(total, size);
    for i := 0 to n
      invariant |plan| == i && forall j :: 0 <= j < i ==> plan[j] == SlotAt(total, size, streams, j)
    {
      var start := i * size;
      plan := plan + [Slot(i % streams, i, start, Min(start + size, total))];
    }
    PlanTiles(plan, total, size, streams);
    PlanInTurn(plan, total, size, streams);
    forall a, b | 0 <= a < streams && 0 <= b < streams
      ensures CountStream(plan, a) <= CountStream(plan, b) + 1
    {
      StreamsBalanced(plan, streams, a, b);
    }
  }

  /** The chunks go to the streams in turn, and all but the last are of full size. */
  predicate InTurn(plan: seq<Slot>, size: nat, streams: nat)
    requires streams > 0
  {
    forall i :: 0 <= i < |plan| ==>
      plan[i].stream == i % streams && (i + 1 < |plan| ==> plan[i].end - plan[i].start == size)
  }

  lemma PlanInTurn(plan: seq<Slot>, total: nat, size: nat, streams: nat)
    requires size > 0 && streams > 0 && |plan| == ChunkCount(total, size)
    requires forall i :: 0 <= i < |plan| ==> plan[i] == SlotAt(total, size, streams, i)
    ensures InTurn(plan, size, streams)
  {
    forall i | 0 <= i < |plan|
      ensures i + 1 < |plan| ==> plan[i].end - plan[i].start == size
    {
      PlanSlot(total, size, i);
    }
  }

  function Share(n: nat, streams: nat, s: nat): int
    requires streams > 0
  {
    n / streams + if s < n % streams then 1 else 0
  }

  lemma ShareOneMore(n: nat, streams: nat, s: nat)
    requires streams > 0 && s < streams
    ensures Share(n + 1, streams, s) == Share(n, streams, s) + if n % streams == s then 1 else 0
  {
    var q, r := n / streams, n % streams;
    Quotient(n, streams);
    assert n == q * streams + r;
    if r + 1 < streams {
      DivUnique(n + 1, streams, q, r + 1);
    } else {
      Distribute(q, 1, streams);
      DivUnique(n + 1, streams, q + 1, 0);
    }
  }

  /** Round-robin: a stream's share of the plan. */
  lemma {:induction false} StreamShare(plan: seq<Slot>, streams: nat, s: nat)
    requires streams > 0 && s < streams && forall i :: 0 <= i < |plan| ==> plan[i].stream == i % streams
    ensures CountStream(plan, s) == Share(|plan|, streams, s)
  {
    if plan == [] {
      DivUnique(0, streams, 0, 0);
    } else {
      StreamShare(plan[..|plan| - 1], streams, s);
      ShareOneMore(|plan| - 1, streams, s);
    }
  }

  /** No stream carries more than one chunk more than another. */
  lemma StreamsBalanced(plan: seq<Slot>, streams: nat, a: nat, b: nat)
    requires streams > 0 && a < streams && b < streams
    requires forall i :: 0 <= i < |plan| ==> plan[i].stream == i % streams
    ensures CountStream(plan, a) <= CountStream(plan, b) + 1
  {
    StreamShare(plan, streams, a);
    StreamShare(plan, streams, b);
  }

  /** The planned intervals are the chunks the splitter cuts. */
  lemma PlanCutsChunks(payload: seq<byte>, size: nat, streams: nat, i: nat)
    requires size > 0 && streams > 0 && i < |SplitPayload(payload, size)|
    ensures |SplitPayload(payload, size)| == ChunkCount(|payload|, size)
    ensures var slot := SlotAt(|payload|, size, streams, i);
            slot.start <= slot.end <= |payload| && SplitPayload(payload, size)[i] == payload[slot.start..slot.end]
  {
    SplitCount(payload, size);
    SplitAt(payload, size, i);
  }
}
