/** The packets the encoder sends, byte by byte. */
module FecLayout {
  import opened Arithmetic
  import opened Bytes
  import opened Fec
  import opened FecRecovery

  /** All packets have one length: the least with which k packets hold the data. */
  predicate EvenlyCut(data: seq<byte>, k: nat, packets: seq<seq<byte>>, size: nat) {
    && (forall i :: 0 <= i < |packets| ==> |packets[i]| == size)
    && k * size >= |data|
    && forall m: nat :: k * m >= |data| ==> size <= m
  }

  /** Data packet `i` holds the bytes from i * size on, and zeros beyond the end. */
  predicate HoldsSlice(data: seq<byte>, packet: seq<byte>, i: nat, size: nat) {
    && |packet| == size
    && forall p :: 0 <= p < size ==> packet[p] == if i * size + p < |data| then data[i * size + p] else 0
  }

  lemma LeastCover(n: nat, k: nat, size: nat)
    requires k > 0 && size == (n + k - 1) / k
    ensures k * size >= n && forall m: nat :: k * m >= n ==> size <= m
  {
    assert n + k - 1 == size * k + (n + k - 1) % k;
    forall m: nat | k * m >= n
      ensures size <= m
    {
      if m < size {
        Monotone(m + 1, size, k);
        Distribute(m, 1, k);
        assert false;
      }
    }
  }

  /** What is sent: the data alone, copies of it, or k slices and the XOR of each stripe's slices. */
  lemma PacketsExactly(data: seq<byte>, k: nat, r: nat)
    requires k > 0
    ensures var packets := Encode(data, k, r);
            if r == 0 then packets == [data]
            else if k == 1 then |packets| == r + 1 && forall i :: 0 <= i <= r ==> packets[i] == data
            else
              && |packets| == k + r
              && EvenlyCut(data, k, packets, |packets[0]|)
              && (forall i :: 0 <= i < k ==> HoldsSlice(data, packets[i], i, |packets[0]|))
              && forall j, p :: 0 <= j < r && 0 <= p < |packets[0]| ==>
                packets[k + j][p] == XorAll(Column(packets[..k], Stripe(k, r, j), p))
  {
    hide Chunk, Chunks, Parities, ChunkSize, EvenlyCut, HoldsSlice, XorAll, Column;
    if r > 0 && k > 1 {
      var size := ChunkSize(|data|, k);
      SlicesStand(data, k, r, size);
      ParitiesStand(data, k, r, size);
    }
  }

  lemma SlicesStand(data: seq<byte>, k: nat, r: nat, size: nat)
    requires k >= 2 && r >= 1 && size == ChunkSize(|data|, k)
    ensures var packets := Encode(data, k, r);
            |packets[0]| == size && EvenlyCut(data, k, packets, size) &&
            forall i :: 0 <= i < k ==> HoldsSlice(data, packets[i], i, size)
  {
    hide Encode, EvenlyCut, HoldsSlice, Chunk, ChunkSize;
    PacketsCut(data, k, r, size);
    forall i | 0 <= i < k
      ensures HoldsSlice(data, Encode(data, k, r)[i], i, size)
    {
      ChunkHolds(data, k, i, size);
    }
    EvenlyCutBy(data, k, Encode(data, k, r), size);
  }

  lemma PacketsCut(data: seq<byte>, k: nat, r: nat, size: nat)
    requires k >= 2 && r >= 1 && size == ChunkSize(|data|, k)
    ensures var packets := Encode(data, k, r);
            |packets| == k + r && (forall i :: 0 <= i < k ==> packets[i] == Chunk(data, k, i)) &&
            forall i :: 0 <= i < |packets| ==> |packets[i]| == size
  {
    hide StripeXor, ChunkSize;
  }

  lemma ChunkHolds(data: seq<byte>, k: nat, i: nat, size: nat)
    requires k > 0 && size == ChunkSize(|data|, k)
    ensures HoldsSlice(data, Chunk(data, k, i), i, size)
  {
    hide ChunkSize;
  }

  lemma EvenlyCutBy(data: seq<byte>, k: nat, packets: seq<seq<byte>>, size: nat)
    requires k > 0 && size == ChunkSize(|data|, k) && forall i :: 0 <= i < |packets| ==> |packets[i]| == size
    ensures EvenlyCut(data, k, packets, size)
  {
    LeastCover(|data|, k, size);
  }

  lemma ParitiesStand(data: seq<byte>, k: nat, r: nat, size: nat)
    requires k >= 2 && r >= 1 && size == ChunkSize(|data|, k)
    ensures var packets := Encode(data, k, r);
            forall j, p :: 0 <= j < r && 0 <= p < size ==>
              packets[k + j][p] == XorAll(Column(packets[..k], Stripe(k, r, j), p))
  {
    hide StripeXor, XorAll, Column, Stripe, Chunk;
    var packets, chunks := Encode(data, k, r), Chunks(data, k);
    assert packets[..k] == chunks;
    forall j, p | 0 <= j < r && 0 <= p < size
      ensures packets[k + j][p] == XorAll(Column(chunks, Stripe(k, r, j), p))
    {
      StripeXorIsColumn(chunks, r, j, p, k);
    }
  }
}
