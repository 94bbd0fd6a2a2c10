/** Exactly which losses the decoder survives. */
module FecRecovery {
  import opened Wrappers
  import opened Bytes
  import opened Fec

  /** What arrives when the packets marked in `lost` do not. */
  function Erase(packets: seq<seq<byte>>, lost: seq<bool>): (received: Packets)
    requires |packets| == |lost|
  {
    seq(|packets|, i requires 0 <= i < |packets| => if lost[i] then None else Some(packets[i]))
  }

  /** Send `data` and decode what arrives. */
  ghost function Transmit(data: seq<byte>, k: nat, r: nat, lost: seq<bool>): Option<seq<byte>>
    requires k > 0 && |lost| == |Encode(data, k, r)|
  {
    Decode(Erase(Encode(data, k, r), lost), k, r, |data|)
  }

  /** No data packet of stripe `j` is lost, or exactly one is and the stripe's parity arrived. */
  ghost predicate StripeRecoverable(lost: seq<bool>, k: nat, r: nat, j: nat)
    requires r > 0 && |lost| == k + r && j < r
  {
    || (forall i :: 0 <= i < k && i % r == j ==> !lost[i])
    || (!lost[k + j] && exists i :: OnlyLoss(lost, k, r, j, i))
  }

  ghost predicate OnlyLoss(lost: seq<bool>, k: nat, r: nat, j: nat, i: nat)
    requires r > 0 && |lost| == k + r
  {
    i < k && i % r == j && lost[i] && forall m :: 0 <= m < k && m % r == j && m != i ==> !lost[m]
  }

  ghost predicate Recoverable(lost: seq<bool>, k: nat, r: nat)
    requires r > 0 && |lost| == k + r
  {
    forall j :: 0 <= j < r ==> StripeRecoverable(lost, k, r, j)
  }

  // ---------------------------------------------------------------- the early cut on total losses

  function CountTrue(lost: seq<bool>): nat {
    if lost == [] then 0 else CountTrue(lost[..|lost| - 1]) + if lost[|lost| - 1] then 1 else 0
  }

  lemma {:induction false} CountLostErase(packets: seq<seq<byte>>, lost: seq<bool>)
    requires |packets| == |lost|
    ensures CountLost(Erase(packets, lost)) == CountTrue(lost)
  {
    if lost != [] {
      var n := |lost| - 1;
      CountLostErase(packets[..n], lost[..n]);
      assert Erase(packets, lost)[..n] == Erase(packets[..n], lost[..n]);
    }
  }

  ghost function LostSet(lost: seq<bool>): set<nat> {
    set i | 0 <= i < |lost| && lost[i]
  }

  lemma {:induction false} CountTrueIsCardinality(lost: seq<bool>)
    ensures CountTrue(lost) == |LostSet(lost)|
  {
    if lost != [] {
      var n := |lost| - 1;
      CountTrueIsCardinality(lost[..n]);
      assert LostSet(lost) == LostSet(lost[..n]) + if lost[n] then {n} else {};
    }
  }

  /** The stripe a packet belongs to, data or parity. */
  function StripeOf(k: nat, r: nat, i: nat): nat
    requires r > 0
  {
    if i < k then i % r else i - k
  }

  /** Indices in pairwise different stripes below `n` number at most `n`. */
  lemma {:induction false} DistinctStripes(indices: set<nat>, k: nat, r: nat, n: nat)
    requires r > 0
    requires forall i :: i in indices ==> StripeOf(k, r, i) < n
    requires forall i, m :: i in indices && m in indices && i != m ==> StripeOf(k, r, i) != StripeOf(k, r, m)
    ensures |indices| <= n
  {
    if i :| i in indices && StripeOf(k, r, i) == n - 1 {
      DistinctStripes(indices - {i}, k, r, n - 1);
    } else if n > 0 {
      DistinctStripes(indices, k, r, n - 1);
    } else {
      assert indices == {};
    }
  }

  /** The cut at `total_lost > r` rejects no recoverable pattern. */
  lemma RecoverableLosesAtMostR(lost: seq<bool>, k: nat, r: nat)
    requires r > 0 && |lost| == k + r && Recoverable(lost, k, r)
    ensures CountTrue(lost) <= r
  {
    CountTrueIsCardinality(lost);
    forall i, m | i in LostSet(lost) && m in LostSet(lost) && i != m
      ensures StripeOf(k, r, i) != StripeOf(k, r, m)
    {
      assert StripeRecoverable(lost, k, r, StripeOf(k, r, i));
    }
    DistinctStripes(LostSet(lost), k, r, r);
  }

  // ---------------------------------------------------------------- one chunk

  function XorAll(bytes: seq<byte>): byte {
    if bytes == [] then 0 else XorByte(XorAll(bytes[..|bytes| - 1]), bytes[|bytes| - 1])
  }

  /** Any one byte can be taken out of an XOR and put back at the end. */
  lemma {:induction false} XorAllTakeOut(bytes: seq<byte>, t: nat)
    requires t < |bytes|
    ensures XorAll(bytes) == XorByte(XorAll(bytes[t := 0]), bytes[t])
  {
    var last := |bytes| - 1;
    if t == last {
      assert bytes[t := 0][..last] == bytes[..last];
      XorByteZero(XorAll(bytes[..last]));
    } else {
      XorAllTakeOut(bytes[..last], t);
      assert bytes[t := 0][..last] == bytes[..last][t := 0];
      XorByteSwap(XorAll(bytes[..last][t := 0]), bytes[t], bytes[last]);
    }
  }

  /** The bytes at `pos` of the chunks listed. */
  function Column(chunks: seq<seq<byte>>, indices: seq<nat>, pos: nat): seq<byte>
    requires forall t :: 0 <= t < |indices| ==> indices[t] < |chunks|
  {
    seq<byte>(|indices|, t requires 0 <= t < |indices| => ByteAt(chunks[indices[t]], pos))
  }

  lemma {:induction false} StripeXorIsColumn(chunks: seq<seq<byte>>, r: nat, j: nat, pos: nat, n: nat)
    requires r > 0 && n <= |chunks|
    ensures StripeXor(chunks, r, j, pos, n) == XorAll(Column(chunks, Stripe(n, r, j), pos))
  {
    if n > 0 {
      StripeXorIsColumn(chunks, r, j, pos, n - 1);
      if (n - 1) % r == j {
        var column := Column(chunks, Stripe(n, r, j), pos);
        assert column[..|column| - 1] == Column(chunks, Stripe(n - 1, r, j), pos);
      }
    }
  }

  function KnownColumn(d: Packets, indices: seq<nat>, miss: nat, pos: nat): seq<byte> {
    seq<byte>(|indices|, t requires 0 <= t < |indices| => Known(d, miss, indices[t], pos))
  }

  lemma {:induction false} XorKnownIsColumn(d: Packets, indices: seq<nat>, miss: nat, pos: nat)
    ensures XorKnown(d, indices, miss, pos) == XorAll(KnownColumn(d, indices, miss, pos))
  {
    if indices != [] {
      var last := |indices| - 1;
      XorKnownIsColumn(d, indices[..last], miss, pos);
      assert KnownColumn(d, indices, miss, pos)[..last] == KnownColumn(d, indices[..last], miss, pos);
    }
  }

  /** A stripe's parity is the XOR of its other packets with the missing chunk. */
  lemma ParityIsKnownXorMissing(chunks: seq<seq<byte>>, d: Packets, r: nat, j: nat, miss: nat, pos: nat)
    requires r > 0 && |chunks| == |d| && miss < |chunks| && miss % r == j
    requires forall i :: 0 <= i < |d| && i % r == j && i != miss ==> d[i] == Some(chunks[i])
    ensures StripeXor(chunks, r, j, pos, |chunks|) ==
            XorByte(XorKnown(d, Stripe(|chunks|, r, j), miss, pos), ByteAt(chunks[miss], pos))
  {
    var stripe := Stripe(|chunks|, r, j);
    var column := Column(chunks, stripe, pos);
    assert miss in stripe;
    var t :| 0 <= t < |stripe| && stripe[t] == miss;
    StripeXorIsColumn(chunks, r, j, pos, |chunks|);
    XorKnownIsColumn(d, stripe, miss, pos);
    KnownColumnDiffers(chunks, d, stripe, miss, pos, t);
    XorAllTakeOut(column, t);
  }

  lemma KnownColumnDiffers(chunks: seq<seq<byte>>, d: Packets, stripe: seq<nat>, miss: nat, pos: nat, t: nat)
    requires |chunks| == |d| && t < |stripe| && stripe[t] == miss
    requires forall a :: 0 <= a < |stripe| ==> stripe[a] < |chunks|
    requires Increasing(stripe)
    requires forall a :: 0 <= a < |stripe| && stripe[a] != miss ==> d[stripe[a]] == Some(chunks[stripe[a]])
    ensures KnownColumn(d, stripe, miss, pos) == Column(chunks, stripe, pos)[t := 0]
  {
  }

  lemma RecoverableChunk(data: seq<byte>, k: nat, r: nat, lost: seq<bool>, i: nat)
    requires k >= 2 && r >= 1 && |lost| == k + r && Recoverable(lost, k, r) && i < k
    ensures DecodedChunk(Erase(Encode(data, k, r), lost), k, r, i) == Some(Chunk(data, k, i))
  {
    var packets := Erase(Encode(data, k, r), lost);
    if lost[i] {
      var chunks := Chunks(data, k);
      var j := i % r;
      assert StripeRecoverable(lost, k, r, j);
      var d := packets[..k];
      var parity := packets[k + j].value;
      assert parity == Parity(chunks, r, ChunkSize(|data|, k), j);
      forall pos: nat | pos < |parity|
        ensures XorByte(parity[pos], XorKnown(d, Stripe(k, r, j), i, pos)) == Chunk(data, k, i)[pos]
      {
        ParityIsKnownXorMissing(chunks, d, r, j, i, pos);
        XorByteUndo(XorKnown(d, Stripe(k, r, j), i, pos), ByteAt(chunks[i], pos));
      }
      assert DecodedChunk(packets, k, r, i).value == Chunk(data, k, i);
    }
  }

  lemma UnrecoverableChunk(data: seq<byte>, k: nat, r: nat, lost: seq<bool>) returns (i: nat)
    requires k >= 2 && r >= 1 && |lost| == k + r && !Recoverable(lost, k, r)
    ensures i < k && DecodedChunk(Erase(Encode(data, k, r), lost), k, r, i) == None
  {
    var packets := Erase(Encode(data, k, r), lost);
    var j :| 0 <= j < r && !StripeRecoverable(lost, k, r, j);
    i :| 0 <= i < k && i % r == j && lost[i];
    if !lost[k + j] {
      assert !OnlyLoss(lost, k, r, j, i);
      var m :| 0 <= m < k && m % r == j && m != i && lost[m];
      assert packets[..k][m].None?;
    }
  }

  // ---------------------------------------------------------------- the whole message

  lemma ChunksCoverData(total: nat, k: nat)
    requires k > 0
    ensures k * ChunkSize(total, k) >= total
  {
    var q := ChunkSize(total, k);
    assert total + k - 1 == q * k + (total + k - 1) % k;
  }

  /** The first `n` chunks joined are the data padded with zeros. */
  lemma {:induction false} JoinChunks(data: seq<byte>, k: nat, ds: Packets)
    requires k > 0 && |ds| <= k
    requires forall i :: 0 <= i < |ds| ==> ds[i] == Some(Chunk(data, k, i))
    ensures |Join(ds)| == |ds| * ChunkSize(|data|, k)
    ensures forall m :: 0 <= m < |Join(ds)| ==> Join(ds)[m] == ByteAt(data, m)
  {
    if ds != [] {
      var n := |ds| - 1;
      JoinChunks(data, k, ds[..n]);
      var size := ChunkSize(|data|, k);
      var base := n * size;
      assert |ds| * size == base + size;
      assert forall p :: 0 <= p < size ==> Chunk(data, k, n)[p] == ByteAt(data, base + p);
      assert Join(ds) == Join(ds[..n]) + Chunk(data, k, n);
    }
  }

  /** For every message, every k >= 2 and r >= 1 and every loss pattern: the decoder gives the message
      back when each stripe is recoverable, and nothing otherwise. */
  lemma RecoveryExact(data: seq<byte>, k: nat, r: nat, lost: seq<bool>)
    requires k >= 2 && r >= 1 && |lost| == k + r
    ensures Transmit(data, k, r, lost) == if Recoverable(lost, k, r) then Some(data) else None
  {
    var packets := Erase(Encode(data, k, r), lost);
    var ds := DecodedChunks(packets, k, r);
    CountLostErase(Encode(data, k, r), lost);
    if Recoverable(lost, k, r) {
      RecoverableLosesAtMostR(lost, k, r);
      forall i | 0 <= i < k
        ensures ds[i] == Some(Chunk(data, k, i))
      {
        RecoverableChunk(data, k, r, lost, i);
      }
      JoinChunks(data, k, ds);
      ChunksCoverData(|data|, k);
      assert Truncate(Join(ds), |data|) == data;
    } else {
      var i := UnrecoverableChunk(data, k, r, lost);
      assert ds[i] == None;
    }
  }

  lemma {:induction false} FirstReceivedOfCopies(data: seq<byte>, packets: Packets)
    requires forall i :: 0 <= i < |packets| ==> packets[i] == None || packets[i] == Some(data)
    ensures FirstReceived(packets) == if exists i :: 0 <= i < |packets| && packets[i].Some? then Some(data) else None
  {
    if packets != [] && packets[0].None? {
      FirstReceivedOfCopies(data, packets[1..]);
      if i :| 0 <= i < |packets| && packets[i].Some? {
        assert packets[1..][i - 1].Some?;
      }
    }
  }

  /** With k = 1 every packet is a copy: the message survives exactly when some packet does. */
  lemma CopiesExact(data: seq<byte>, r: nat, lost: seq<bool>)
    requires |lost| == 1 + r
    ensures Transmit(data, 1, r, lost) == if exists i :: 0 <= i < |lost| && !lost[i] then Some(data) else None
  {
    var packets := Erase(Encode(data, 1, r), lost);
    FirstReceivedOfCopies(data, packets);
    assert forall i :: 0 <= i < |lost| ==> packets[i].Some? == !lost[i];
    assert Truncate(data, |data|) == data;
  }

  /** With r = 0 there is one packet, whatever k is. */
  lemma UnprotectedExact(data: seq<byte>, k: nat, lost: seq<bool>)
    requires k > 0 && |lost| == 1
    ensures Transmit(data, k, 0, lost) == if lost[0] then None else Some(data)
  {
    assert Truncate(data, |data|) == data;
  }

  /** "Any 2 of 4" is not what the code does: with k = 2 and r = 2, losing data packet 0 and
      parity packet 0 loses the message. */
  lemma TwoOfFourIsNotEnough(data: seq<byte>)
    ensures Transmit(data, 2, 2, [true, false, true, false]) == None
  {
    var lost := [true, false, true, false];
    assert !StripeRecoverable(lost, 2, 2, 0) by {
      assert lost[0] && 0 % 2 == 0;
    }
    RecoveryExact(data, 2, 2, lost);
  }
}
