/** The second implementation of the error-correcting code, used where the native one is missing: it sends the same
    packets and gives the same answer on any list of packets whatever. */
module FecFallback {
  import opened Arithmetic
  import opened Wrappers
  import opened Bytes
  import opened Fec

  /** A slice, whose bounds may lie beyond the end, padded on the right. */
  method SliceAndPad(data: seq<byte>, start: nat, end: nat, size: nat) returns (chunk: seq<byte>)
    requires start <= end <= start + size || end <= |data| <= start
    ensures |chunk| == size
    ensures forall pos :: 0 <= pos < size && start + pos < end ==> chunk[pos] == ByteAt(data, start + pos)
    ensures forall pos :: 0 <= pos < size && start + pos >= end ==> chunk[pos] == 0
  {
    var low, high := Min(start, |data|), Min(end, |data|);
    chunk := if low <= high then data[low..high] else [];
    chunk := chunk + Zeros(size - |chunk|);
  }

  /** XORs the bytes of `known` into a bytearray, as far as both reach. */
  method XorInto(acc: array<byte>, known: seq<byte>)
    modifies acc
    ensures forall pos :: 0 <= pos < acc.Length ==> acc[pos] == XorByte(old(acc[pos]), ByteAt(known, pos))
  {
    for pos := 0 to |known|
      invariant forall q :: 0 <= q < acc.Length ==>
        acc[q] == if q < pos then XorByte(old(acc[q]), known[q]) else old(acc[q])
    {
      if pos < acc.Length {
        acc[pos] := XorByte(acc[pos], known[pos]);
      }
    }
    forall q | |known| <= q < acc.Length
      ensures XorByte(acc[q], 0) == acc[q]
    {
      XorByteZero(acc[q]);
    }
  }

  /** r bytearrays of zeros. */
  method ZeroRows(r: nat, size: nat) returns (rows: seq<array<byte>>)
    ensures |rows| == r && Distinct(rows)
    ensures forall j :: 0 <= j < r ==> fresh(rows[j]) && rows[j][..] == Zeros(size)
  {
    rows := [];
    while |rows| < r
      invariant |rows| <= r && Distinct(rows)
      invariant forall j :: 0 <= j < |rows| ==> fresh(rows[j]) && rows[j][..] == Zeros(size)
    {
      var row := new byte[size](_ => 0);
      assert row[..] == Zeros(size);
      rows := rows + [row];
    }
  }

  predicate Distinct(rows: seq<array<byte>>) {
    forall i, j :: 0 <= i < j < |rows| ==> rows[i] != rows[j]
  }

  /** Row `j` holds the XOR of the first `n` chunks of its stripe. */
  ghost predicate RowHolds(row: array<byte>, chunks: seq<seq<byte>>, r: nat, size: nat, j: nat, n: nat)
    requires r > 0 && n <= |chunks|
    reads row
  {
    row.Length == size && forall pos :: 0 <= pos < size ==> row[pos] == StripeXor(chunks, r, j, pos, n)
  }

  /** The parities as a list of bytearrays, each chunk XORed into the one of its stripe. */
  method ParityRows(chunks: seq<seq<byte>>, r: nat, size: nat) returns (parities: seq<seq<byte>>)
    requires r > 0
    ensures parities == Parities(chunks, r, size)
  {
    var rows := ZeroRows(r, size);
    forall j | 0 <= j < r
      ensures RowHolds(rows[j], chunks, r, size, j, 0)
    {
      assert rows[j][..] == Zeros(size);
    }
    for i := 0 to |chunks|
      invariant forall j :: 0 <= j < r ==> fresh(rows[j]) && RowHolds(rows[j], chunks, r, size, j, i)
    {
      XorInto(rows[i % r], chunks[i]);
    }
    parities := [];
    for j := 0 to r
      invariant |parities| == j && forall m :: 0 <= m < j ==> parities[m] == Parity(chunks, r, size, m)
    {
      assert rows[j][..] == Parity(chunks, r, size, j);
      parities := parities + [rows[j][..]];
    }
  }

  method Encode(data: seq<byte>, k: int, r: nat) returns (res: Result<seq<seq<byte>>, FecError>)
    ensures k <= 0 ==> res == Failure(KMustBePositive)
    ensures k > 0 ==> res == Success(Fec.Encode(data, k, r))
  {
    if k <= 0 {
      return Failure(KMustBePositive);
    }
    if r == 0 {
      return Success([data]);
    }
    if k == 1 {
      var copies := [data] + seq(r, _ => data);
      assert copies == Fec.Encode(data, k, r);
      return Success(copies);
    }
    var size := ChunkSize(|data|, k);
    var chunks: seq<seq<byte>> := [];
    for i := 0 to k
      invariant |chunks| == i && forall m :: 0 <= m < i ==> chunks[m] == Chunk(data, k, m)
    {
      var start := i * size;
      var chunk := SliceAndPad(data, start, Min(start + size, |data|), size);
      assert forall pos :: 0 <= pos < size ==> Chunk(data, k, i)[pos] == ByteAt(data, start + pos);
      assert chunk == Chunk(data, k, i);
      chunks := chunks + [chunk];
    }
    assert chunks == Chunks(data, k);
    var parities := ParityRows(chunks, r, size);
    return Success(chunks + parities);
  }

  /** The indices of a stripe that are still missing; every index looked at exists. */
  method ListMissing(recovered: Packets, stripe: seq<nat>) returns (missing: seq<nat>)
    requires forall a :: 0 <= a < |stripe| ==> stripe[a] < |recovered|
    requires Increasing(stripe)
    ensures missing == MissingIn(recovered, stripe)
  {
    missing := [];
    for t := 0 to |stripe|
      invariant missing == MissingIn(recovered, stripe[..t])
    {
      assert stripe[..t + 1][..t] == stripe[..t];
      if recovered[stripe[t]].None? {
        missing := missing + [stripe[t]];
      }
    }
    assert stripe[..|stripe|] == stripe;
  }

  /** The missing packet of a stripe: a copy of the parity with every known packet of the stripe XORed in. */
  method XorTogether(recovered: Packets, parity: seq<byte>, stripe: seq<nat>, miss: nat) returns (out: seq<byte>)
    requires forall a :: 0 <= a < |stripe| ==> stripe[a] < |recovered|
    ensures out == seq<byte>(|parity|, pos requires 0 <= pos < |parity| =>
      XorByte(parity[pos], XorKnown(recovered, stripe, miss, pos)))
  {
    var acc := new byte[|parity|](pos requires 0 <= pos < |parity| => parity[pos]);
    forall pos | 0 <= pos < |parity|
      ensures acc[pos] == XorByte(parity[pos], XorKnown(recovered, stripe[..0], miss, pos))
    {
      XorByteZero(parity[pos]);
    }
    for t := 0 to |stripe|
      invariant forall pos :: 0 <= pos < |parity| ==>
        acc[pos] == XorByte(parity[pos], XorKnown(recovered, stripe[..t], miss, pos))
    {
      forall q | 0 <= q < |parity|
        ensures XorKnownGrows(recovered, parity[q], stripe, t, miss, q)
      {
        XorKnownStep(recovered, parity[q], stripe, t, miss, q);
      }
      if stripe[t] == miss || recovered[stripe[t]].None? {
        continue;
      }
      XorInto(acc, recovered[stripe[t]].value);
    }
    assert stripe[..|stripe|] == stripe;
    out := acc[..];
  }

  /** One arrived parity packet settles its stripe. */
  method RecoverStripe(packets: Packets, k: nat, r: nat, j: nat, recovered: Packets) returns (after: Packets)
    requires r > 0 && k + j < |packets| && packets[k + j].Some? && RecoveredBelow(packets, k, r, j, recovered)
    ensures RecoveredBelow(packets, k, r, j + 1, after)
  {
    var parity := packets[k + j].value;
    var stripe := Stripe(k, r, j);
    var missing := ListMissing(recovered, stripe);
    if |missing| == 1 {
      var miss := missing[0];
      SoleMissing(packets[..k], recovered, k, r, j);
      var acc := XorTogether(recovered, parity, stripe, miss);
      OneSettled(packets, k, r, j, recovered, miss, acc);
      after := recovered[miss := Some(acc)];
    } else {
      NoneSettled(packets, k, r, j, recovered);
      after := recovered;
    }
  }

  method Recover(packets: Packets, k: nat, r: nat) returns (recovered: Packets)
    requires r > 0
    ensures recovered == DecodedChunks(packets, k, r)
  {
    recovered := packets[..Min(k, |packets|)];
    var parityPackets := packets[Min(k, |packets|)..];
    for j := 0 to |parityPackets|
      invariant RecoveredBelow(packets, k, r, j, recovered)
    {
      if parityPackets[j].Some? {
        recovered := RecoverStripe(packets, k, r, j, recovered);
      }
    }
  }

  method CountNone(packets: Packets) returns (n: nat)
    ensures n == CountLost(packets)
  {
    n := 0;
    var i := 0;
    while i < |packets|
      invariant i <= |packets| && n == CountLost(packets[..i])
    {
      assert packets[..i + 1][..i] == packets[..i];
      n := if packets[i] == None then n + 1 else n;
      i := i + 1;
    }
    assert packets[..|packets|] == packets;
  }

  /** The packets joined, then sliced to the original length. */
  method JoinReceived(packets: Packets, originalLen: nat) returns (result: seq<byte>)
    requires AllReceived(packets)
    ensures result == Truncate(Join(packets), originalLen)
  {
    result := [];
    for i := 0 to |packets|
      invariant result == Join(packets[..i])
    {
      assert packets[..i + 1][..i] == packets[..i];
      result := result + packets[i].value;
    }
    assert packets[..|packets|] == packets;
    result := Slice(result, 0, originalLen);
  }

  method Decode(packets: Packets, k: nat, r: nat, originalLen: nat) returns (res: Option<seq<byte>>)
    ensures res == Fec.Decode(packets, k, r, originalLen)
  {
    if packets == [] {
      return None;
    }
    if r == 0 {
      return MapTruncate(packets[0], originalLen);
    }
    if k == 1 {
      for i := 0 to |packets|
        invariant FirstReceived(packets) == FirstReceived(packets[i..])
      {
        if packets[i].Some? {
          return Some(Truncate(packets[i].value, originalLen));
        }
        assert packets[i..][1..] == packets[i + 1..];
      }
      return None;
    }
    var lost := CountNone(packets);
    if lost > r {
      return None;
    }
    var dataPackets := packets[..Min(k, |packets|)];
    if AllReceived(dataPackets) {
      assert DecodedChunks(packets, k, r) == dataPackets;
      var joined := JoinReceived(dataPackets, originalLen);
      return Some(joined);
    }
    var recovered := Recover(packets, k, r);
    if !AllReceived(recovered) {
      return None;
    }
    var joined := JoinReceived(recovered, originalLen);
    return Some(joined);
  }
}
