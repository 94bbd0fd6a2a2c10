/** XOR systematic forward error correction: splitting data into chunks, XOR parity stripes,
    and rebuilding the data from whatever packets arrived. */
module Fec {
  import opened Arithmetic
  import opened Wrappers
  import opened Bytes

  datatype FecError = KMustBePositive

  // ---------------------------------------------------------------- specification

  function ChunkSize(total: nat, k: nat): nat
    requires k > 0
  {
    (total + k - 1) / k
  }

  /** The byte at `pos`, reading zeros beyond the end. */
  function ByteAt(s: seq<byte>, pos: nat): byte {
    if pos < |s| then s[pos] else 0
  }

  /** Data chunk `i`: the data cut at multiples of the chunk size, padded with zeros. */
  function Chunk(data: seq<byte>, k: nat, i: nat): (c: seq<byte>)
    requires k > 0
  {
    var size := ChunkSize(|data|, k);
    seq<byte>(size, pos requires 0 <= pos < size => ByteAt(data, i * size + pos))
  }

  function Chunks(data: seq<byte>, k: nat): (cs: seq<seq<byte>>)
    requires k > 0
  {
    seq(k, i requires 0 <= i < k => Chunk(data, k, i))
  }

  /** The XOR, at byte `pos`, of the first `n` chunks that belong to stripe `j`. */
  function StripeXor(chunks: seq<seq<byte>>, r: nat, j: nat, pos: nat, n: nat): byte
    requires r > 0 && n <= |chunks|
  {
    if n == 0 then 0
    else if (n - 1) % r == j then XorByte(StripeXor(chunks, r, j, pos, n - 1), ByteAt(chunks[n - 1], pos))
    else StripeXor(chunks, r, j, pos, n - 1)
  }

  function Parity(chunks: seq<seq<byte>>, r: nat, size: nat, j: nat): seq<byte>
    requires r > 0
  {
    seq<byte>(size, pos requires 0 <= pos < size => StripeXor(chunks, r, j, pos, |chunks|))
  }

  function Parities(chunks: seq<seq<byte>>, r: nat, size: nat): seq<seq<byte>>
    requires r > 0
  {
    seq(r, j requires 0 <= j < r => Parity(chunks, r, size, j))
  }

  /** The packets the encoder sends: k data packets, then r parity packets. */
  function Encode(data: seq<byte>, k: nat, r: nat): (packets: seq<seq<byte>>)
    requires k > 0
    ensures |packets| == if r == 0 then 1 else k + r
  {
    if r == 0 then [data]
    else if k == 1 then seq(1 + r, _ => data)
    else Chunks(data, k) + Parities(Chunks(data, k), r, ChunkSize(|data|, k))
  }

  type Packets = seq<Option<seq<byte>>>

  function CountLost(packets: Packets): nat {
    if packets == [] then 0
    else CountLost(packets[..|packets| - 1]) + if packets[|packets| - 1].None? then 1 else 0
  }

  /** The indices below `n` that belong to stripe `j`, in increasing order. */
  function Stripe(n: nat, r: nat, j: nat): (s: seq<nat>)
    requires r > 0
    ensures forall i: nat :: i in s <==> i < n && i % r == j
    ensures forall a :: 0 <= a < |s| ==> s[a] < n && s[a] % r == j
    ensures Increasing(s)
  {
    if n == 0 then []
    else if (n - 1) % r == j then Stripe(n - 1, r, j) + [n - 1]
    else Stripe(n - 1, r, j)
  }

  /** What a packet position adds to an XOR at byte `pos`: nothing when it is lost or is `miss`. */
  function Known(packets: Packets, miss: nat, i: nat, pos: nat): byte {
    if i != miss && i < |packets| && packets[i].Some? then ByteAt(packets[i].value, pos) else 0
  }

  /** The XOR, at byte `pos`, of the known packets at the listed indices. */
  function XorKnown(packets: Packets, indices: seq<nat>, miss: nat, pos: nat): byte {
    if indices == [] then 0
    else
      var last := |indices| - 1;
      XorByte(XorKnown(packets, indices[..last], miss, pos), Known(packets, miss, indices[last], pos))
  }

  /** Position `i` is the only data packet of its stripe that is missing. */
  ghost predicate OnlyMissing(dataPackets: Packets, r: nat, i: nat)
    requires r > 0 && i < |dataPackets|
  {
    && dataPackets[i].None?
    && forall m :: 0 <= m < |dataPackets| && m % r == i % r && m != i ==> dataPackets[m].Some?
  }

  /** What the decoder ends up holding for data packet `i`: the packet itself when it arrived, the
      XOR of its stripe when it is the only one missing there and the parity arrived, else nothing. */
  ghost function DecodedChunk(packets: Packets, k: nat, r: nat, i: nat): Option<seq<byte>>
    requires r > 0 && i < Min(k, |packets|)
  {
    var dataPackets := packets[..Min(k, |packets|)];
    var j := i % r;
    if packets[i].Some? then packets[i]
    else if k + j < |packets| && packets[k + j].Some? && OnlyMissing(dataPackets, r, i) then
      var parity := packets[k + j].value;
      Some(seq<byte>(|parity|, pos requires 0 <= pos < |parity| =>
        XorByte(parity[pos], XorKnown(dataPackets, Stripe(k, r, j), i, pos))))
    else None
  }

  ghost function DecodedChunks(packets: Packets, k: nat, r: nat): (ds: Packets)
    requires r > 0
  {
    seq(Min(k, |packets|), i requires 0 <= i < Min(k, |packets|) => DecodedChunk(packets, k, r, i))
  }

  function FirstReceived(packets: Packets): Option<seq<byte>> {
    if packets == [] then None
    else if packets[0].Some? then packets[0]
    else FirstReceived(packets[1..])
  }

  predicate AllReceived(packets: Packets) {
    forall i :: 0 <= i < |packets| ==> packets[i].Some?
  }

  /** The received packets joined in order. */
  function Join(packets: Packets): seq<byte> {
    if packets == [] then []
    else
      var last := packets[|packets| - 1];
      Join(packets[..|packets| - 1]) + if last.Some? then last.value else []
  }

  function Truncate(s: seq<byte>, len: nat): seq<byte> {
    s[..Min(len, |s|)]
  }

  function MapTruncate(o: Option<seq<byte>>, len: nat): Option<seq<byte>> {
    if o.Some? then Some(Truncate(o.value, len)) else None
  }

  /** What the decoder returns, on any list of packets whatever. */
  ghost function Decode(packets: Packets, k: nat, r: nat, originalLen: nat): Option<seq<byte>> {
    if packets == [] then None
    else if r == 0 then MapTruncate(packets[0], originalLen)
    else if k == 1 then MapTruncate(FirstReceived(packets), originalLen)
    else if CountLost(packets) > r then None
    else if AllReceived(DecodedChunks(packets, k, r)) then
      Some(Truncate(Join(DecodedChunks(packets, k, r)), originalLen))
    else None
  }

  // ---------------------------------------------------------------- the recovery loop's steps

  /** Two packet lists agree on every index of stripe `j`. */
  ghost predicate AgreeOnStripe(a: Packets, b: Packets, r: nat, j: nat)
    requires r > 0
  {
    |a| == |b| && forall i :: 0 <= i < |a| && i % r == j ==> a[i] == b[i]
  }

  lemma SoleMissing(dataPackets: Packets, recovered: Packets, k: nat, r: nat, j: nat)
    requires r > 0 && |dataPackets| <= k && AgreeOnStripe(dataPackets, recovered, r, j)
    requires |MissingIn(recovered, Stripe(k, r, j))| == 1
    ensures var miss := MissingIn(recovered, Stripe(k, r, j))[0];
            miss < |dataPackets| && miss % r == j && OnlyMissing(dataPackets, r, miss)
  {
    var missing := MissingIn(recovered, Stripe(k, r, j));
    var miss := missing[0];
    assert miss in missing;
    forall m | 0 <= m < |dataPackets| && m % r == j && m != miss
      ensures dataPackets[m].Some?
    {
      assert recovered[m].None? ==> m in missing;
    }
  }

  lemma OnlyMissingIsSole(dataPackets: Packets, recovered: Packets, k: nat, r: nat, i: nat)
    requires r > 0 && i < |dataPackets| <= k && AgreeOnStripe(dataPackets, recovered, r, i % r)
    requires OnlyMissing(dataPackets, r, i)
    ensures |MissingIn(recovered, Stripe(k, r, i % r))| == 1
  {
    var missing := MissingIn(recovered, Stripe(k, r, i % r));
    assert i in missing;
    assert forall m :: m in missing ==> m == i;
    assert missing[0] in missing && missing[|missing| - 1] in missing;
  }

  lemma {:induction false} SameKnown(a: Packets, b: Packets, r: nat, j: nat, stripe: seq<nat>, miss: nat, pos: nat)
    requires r > 0 && AgreeOnStripe(a, b, r, j)
    requires forall t :: 0 <= t < |stripe| ==> stripe[t] % r == j
    ensures XorKnown(a, stripe, miss, pos) == XorKnown(b, stripe, miss, pos)
  {
    if stripe != [] {
      var last := |stripe| - 1;
      SameKnown(a, b, r, j, stripe[..last], miss, pos);
    }
  }

  /** The loop over the parity packets has settled every stripe below `j` and touched no other. */
  ghost predicate RecoveredBelow(packets: Packets, k: nat, r: nat, j: nat, recovered: Packets)
    requires r > 0
  {
    && |recovered| == Min(k, |packets|)
    && forall i :: 0 <= i < |recovered| ==>
      recovered[i] == if i % r < j then DecodedChunk(packets, k, r, i) else packets[i]
  }

  lemma DecodedFromParity(packets: Packets, k: nat, r: nat, recovered: Packets, miss: nat)
    requires r > 0 && miss < Min(k, |packets|)
    requires AgreeOnStripe(packets[..Min(k, |packets|)], recovered, r, miss % r)
    requires OnlyMissing(packets[..Min(k, |packets|)], r, miss)
    requires k + miss % r < |packets| && packets[k + miss % r].Some?
    ensures var parity := packets[k + miss % r].value;
            DecodedChunk(packets, k, r, miss) ==
            Some(seq<byte>(|parity|, pos requires 0 <= pos < |parity| =>
              XorByte(parity[pos], XorKnown(recovered, Stripe(k, r, miss % r), miss, pos))))
  {
    var dataPackets := packets[..Min(k, |packets|)];
    var j := miss % r;
    var stripe := Stripe(k, r, j);
    assert forall t :: 0 <= t < |stripe| ==> stripe[t] in stripe;
    forall pos: nat
      ensures XorKnown(dataPackets, stripe, miss, pos) == XorKnown(recovered, stripe, miss, pos)
    {
      SameKnown(dataPackets, recovered, r, j, stripe, miss, pos);
    }
    var parity := packets[k + j].value;
    assert DecodedChunk(packets, k, r, miss).value ==
      seq<byte>(|parity|, pos requires 0 <= pos < |parity| =>
        XorByte(parity[pos], XorKnown(recovered, stripe, miss, pos)));
  }

  /** Filling in a stripe's only missing packet settles the stripe. */
  lemma OneSettled(packets: Packets, k: nat, r: nat, j: nat, recovered: Packets, miss: nat, acc: seq<byte>)
    requires r > 0 && k + j < |packets| && packets[k + j].Some? && RecoveredBelow(packets, k, r, j, recovered)
    requires miss < k && miss % r == j && OnlyMissing(packets[..k], r, miss)
    requires var parity := packets[k + j].value;
             acc == seq<byte>(|parity|, pos requires 0 <= pos < |parity| =>
               XorByte(parity[pos], XorKnown(recovered, Stripe(k, r, j), miss, pos)))
    ensures RecoveredBelow(packets, k, r, j + 1, recovered[miss := Some(acc)])
  {
    DecodedFromParity(packets, k, r, recovered, miss);
  }

  /** A stripe not yet settled is as it arrived. */
  lemma StripeAgrees(packets: Packets, k: nat, r: nat, j: nat, recovered: Packets)
    requires r > 0 && k <= |packets| && RecoveredBelow(packets, k, r, j, recovered)
    ensures |recovered| == k && AgreeOnStripe(packets[..k], recovered, r, j)
  {
  }

  /** A stripe that does not miss exactly one packet is left as it is. */
  lemma NoneSettled(packets: Packets, k: nat, r: nat, j: nat, recovered: Packets)
    requires r > 0 && k + j < |packets| && RecoveredBelow(packets, k, r, j, recovered)
    ensures |MissingIn(recovered, Stripe(k, r, j))| != 1 ==> RecoveredBelow(packets, k, r, j + 1, recovered)
  {
    if |MissingIn(recovered, Stripe(k, r, j))| != 1 {
      forall i | 0 <= i < k && i % r == j
        ensures !OnlyMissing(packets[..k], r, i)
      {
        if OnlyMissing(packets[..k], r, i) {
          OnlyMissingIsSole(packets[..k], recovered, k, r, i);
        }
      }
    }
  }

  // ---------------------------------------------------------------- the code

  /** One zero-padded chunk: a zeroed buffer with the data copied over its front. */
  method BuildChunk(data: seq<byte>, k: nat, i: nat) returns (chunk: seq<byte>)
    requires k > 0
    ensures chunk == Chunk(data, k, i)
  {
    var size := ChunkSize(|data|, k);
    var start := i * size;
    var end := Min(start + size, |data|);
    var buffer := new byte[size](_ => 0);
    if start < |data| {
      forall pos | 0 <= pos < end - start {
        buffer[pos] := data[start + pos];
      }
    }
    chunk := buffer[..];
    ghost var expected := Chunk(data, k, i);
    assert forall pos :: 0 <= pos < size ==> expected[pos] == ByteAt(data, start + pos);
    assert forall pos :: 0 <= pos < size ==> chunk[pos] == ByteAt(data, start + pos);
  }

  method FecEncode(data: seq<byte>, k: nat, r: nat) returns (res: Result<seq<seq<byte>>, FecError>)
    ensures k == 0 ==> res == Failure(KMustBePositive)
    ensures k > 0 ==> res == Success(Encode(data, k, r))
  {
    if k == 0 {
      return Failure(KMustBePositive);
    }
    if r == 0 {
      return Success([data]);
    }
    if k == 1 {
      var copies := [data];
      for n := 0 to r
        invariant |copies| == 1 + n && forall i :: 0 <= i < |copies| ==> copies[i] == data
      {
        copies := copies + [data];
      }
      assert copies == Encode(data, k, r);
      return Success(copies);
    }
    var size := ChunkSize(|data|, k);
    var chunks: seq<seq<byte>> := [];
    for i := 0 to k
      invariant |chunks| == i && forall m :: 0 <= m < i ==> chunks[m] == Chunk(data, k, m)
    {
      var chunk := BuildChunk(data, k, i);
      chunks := chunks + [chunk];
    }
    assert chunks == Chunks(data, k);
    var parities := XorParities(chunks, r, size);
    return Success(chunks + parities);
  }

  /** XORs every chunk into its stripe's buffer, byte by byte, in place. */
  method XorParities(chunks: seq<seq<byte>>, r: nat, size: nat) returns (parities: seq<seq<byte>>)
    requires r > 0
    requires forall i :: 0 <= i < |chunks| ==> |chunks[i]| == size
    ensures parities == Parities(chunks, r, size)
  {
    var buffer := new byte[r, size]((_, _) => 0);
    for i := 0 to |chunks|
      invariant forall j, pos :: 0 <= j < r && 0 <= pos < size ==>
        buffer[j, pos] == StripeXor(chunks, r, j, pos, i)
    {
      var j := i % r;
      for pos := 0 to size
        invariant forall m, q :: 0 <= m < r && 0 <= q < size ==>
          buffer[m, q] == StripeXor(chunks, r, m, q, if m == j && q < pos then i + 1 else i)
      {
        buffer[j, pos] := XorByte(buffer[j, pos], chunks[i][pos]);
      }
    }
    parities := [];
    for j := 0 to r
      invariant |parities| == j && forall m :: 0 <= m < j ==> parities[m] == Parity(chunks, r, size, m)
    {
      var row := seq<byte>(size, pos requires 0 <= pos < size reads buffer => buffer[j, pos]);
      assert row == Parity(chunks, r, size, j);
      parities := parities + [row];
    }
  }

  predicate Increasing(indices: seq<nat>) {
    forall a, b :: 0 <= a < b < |indices| ==> indices[a] < indices[b]
  }

  /** The missing data packets of a stripe, in increasing order. */
  function MissingIn(recovered: Packets, stripe: seq<nat>): (missing: seq<nat>)
    requires Increasing(stripe)
    ensures forall i: nat :: i in missing <==> i in stripe && i < |recovered| && recovered[i].None?
    ensures Increasing(missing)
  {
    if stripe == [] then []
    else
      var last, before := stripe[|stripe| - 1], stripe[..|stripe| - 1];
      InLastOrBefore(stripe);
      var rest := MissingIn(recovered, before);
      BelowLast(stripe, rest);
      rest + if last < |recovered| && recovered[last].None? then [last] else []
  }

  lemma InLastOrBefore(stripe: seq<nat>)
    requires stripe != []
    ensures forall i: nat :: i in stripe <==> i in stripe[..|stripe| - 1] || i == stripe[|stripe| - 1]
  {
    assert stripe == stripe[..|stripe| - 1] + [stripe[|stripe| - 1]];
  }

  lemma BelowLast(stripe: seq<nat>, rest: seq<nat>)
    requires stripe != [] && Increasing(stripe) && Increasing(rest)
    requires forall i: nat :: i in rest ==> i in stripe[..|stripe| - 1]
    ensures Increasing(rest + [stripe[|stripe| - 1]])
  {
    forall a | 0 <= a < |rest|
      ensures rest[a] < stripe[|stripe| - 1]
    {
      var i := rest[a];
      assert i in rest && i in stripe[..|stripe| - 1];
    }
  }

  /** Taking one more packet of the stripe in: the accumulator is XORed with its byte. */
  ghost predicate XorKnownGrows(d: Packets, p: byte, stripe: seq<nat>, t: nat, miss: nat, pos: nat)
    requires t < |stripe|
  {
    var before := XorByte(p, XorKnown(d, stripe[..t], miss, pos));
    var after := XorByte(p, XorKnown(d, stripe[..t + 1], miss, pos));
    var byte := Known(d, miss, stripe[t], pos);
    after == XorByte(before, byte) && (byte == 0 ==> after == before)
  }

  lemma XorKnownStep(d: Packets, p: byte, stripe: seq<nat>, t: nat, miss: nat, pos: nat)
    requires t < |stripe|
    ensures XorKnownGrows(d, p, stripe, t, miss, pos)
  {
    assert stripe[..t + 1][..t] == stripe[..t];
    var known := XorKnown(d, stripe[..t], miss, pos);
    XorByteAssociates(p, known, Known(d, miss, stripe[t], pos));
    XorByteZero(XorByte(p, known));
  }

  /** The loop over the bytes of one known packet, bounded by the accumulator. */
  method XorPacket(acc: array<byte>, known: seq<byte>)
    modifies acc
    ensures forall q :: 0 <= q < acc.Length ==> acc[q] == XorByte(old(acc[q]), ByteAt(known, q))
  {
    var pos := 0;
    while pos < |known| && pos < acc.Length
      invariant pos <= acc.Length && pos <= |known|
      invariant forall q :: 0 <= q < pos ==> acc[q] == XorByte(old(acc[q]), known[q])
      invariant forall q :: pos <= q < acc.Length ==> acc[q] == old(acc[q])
    {
      acc[pos] := XorByte(acc[pos], known[pos]);
      pos := pos + 1;
    }
    forall q | pos <= q < acc.Length
      ensures XorByte(acc[q], ByteAt(known, q)) == acc[q]
    {
      XorByteZero(acc[q]);
    }
  }

  /** XORs the known packets of a stripe into a copy of its parity, in place. */
  method XorStripe(recovered: Packets, parity: seq<byte>, stripe: seq<nat>, miss: nat) returns (out: seq<byte>)
    ensures out == seq<byte>(|parity|, pos requires 0 <= pos < |parity| =>
      XorByte(parity[pos], XorKnown(recovered, stripe, miss, pos)))
  {
    var acc := new byte[|parity|](pos requires 0 <= pos < |parity| => parity[pos]);
    forall pos | 0 <= pos < |parity|
      ensures acc[pos] == XorByte(parity[pos], XorKnown(recovered, stripe[..0], miss, pos))
    {
      XorByteZero(parity[pos]);
    }
    for t := 0 to |stripe|
      invariant forall pos :: 0 <= pos < |parity| ==>
        acc[pos] == XorByte(parity[pos], XorKnown(recovered, stripe[..t], miss, pos))
    {
      var idx := stripe[t];
      forall q | 0 <= q < |parity|
        ensures XorKnownGrows(recovered, parity[q], stripe, t, miss, q)
      {
        XorKnownStep(recovered, parity[q], stripe, t, miss, q);
      }
      if idx != miss && idx < |recovered| && recovered[idx].Some? {
        XorPacket(acc, recovered[idx].value);
      }
    }
    assert stripe[..|stripe|] == stripe;
    out := acc[..];
  }

  method CountMissing(packets: Packets) returns (n: nat)
    ensures n == CountLost(packets)
  {
    n := 0;
    for i := 0 to |packets|
      invariant n == CountLost(packets[..i])
    {
      assert packets[..i + 1][..i] == packets[..i];
      if packets[i].None? {
        n := n + 1;
      }
    }
    assert packets[..|packets|] == packets;
  }

  /** Appends the received packets and cuts the result to the original length. */
  method Reassemble(packets: Packets, originalLen: nat) returns (result: seq<byte>)
    ensures result == Truncate(Join(packets), originalLen)
  {
    result := [];
    for i := 0 to |packets|
      invariant result == Join(packets[..i])
    {
      assert packets[..i + 1][..i] == packets[..i];
      if packets[i].Some? {
        result := result + packets[i].value;
      }
    }
    assert packets[..|packets|] == packets;
    result := Truncate(result, originalLen);
  }

  method FecDecode(packets: Packets, k: nat, r: nat, originalLen: nat) returns (res: Option<seq<byte>>)
    ensures res == Decode(packets, k, r, originalLen)
  {
    if packets == [] {
      return None;
    }
    if r == 0 {
      return MapTruncate(packets[0], originalLen);
    }
    if k == 1 {
      for i := 0 to |packets|
        invariant FirstReceived(packets) == FirstReceived(packets[i..])
      {
        if packets[i].Some? {
          return Some(Truncate(packets[i].value, originalLen));
        }
        assert packets[i..][1..] == packets[i + 1..];
      }
      return None;
    }
    var totalLost := CountMissing(packets);
    if totalLost > r {
      return None;
    }
    var dataPackets := packets[..Min(k, |packets|)];
    ghost var decoded := DecodedChunks(packets, k, r);
    if AllReceived(dataPackets) {
      assert decoded == dataPackets;
      var result := Reassemble(dataPackets, originalLen);
      return Some(result);
    }
    var recovered := RecoverStripes(packets, k, r);
    if !AllReceived(recovered) {
      return None;
    }
    var result := Reassemble(recovered, originalLen);
    return Some(result);
  }

  /** The loop's body for a parity packet that arrived: it settles the parity's stripe. */
  method RecoverStripe(packets: Packets, k: nat, r: nat, j: nat, recovered: Packets) returns (after: Packets)
    requires r > 0 && k + j < |packets| && packets[k + j].Some? && RecoveredBelow(packets, k, r, j, recovered)
    ensures RecoveredBelow(packets, k, r, j + 1, after)
  {
    hide RecoveredBelow, MissingIn, Stripe;
    var stripe := Stripe(k, r, j);
    var missing := MissingIn(recovered, stripe);
    if |missing| == 1 {
      var miss := missing[0];
      StripeAgrees(packets, k, r, j, recovered);
      SoleMissing(packets[..k], recovered, k, r, j);
      var acc := XorStripe(recovered, packets[k + j].value, stripe, miss);
      OneSettled(packets, k, r, j, recovered, miss, acc);
      after := recovered[miss := Some(acc)];
    } else {
      NoneSettled(packets, k, r, j, recovered);
      after := recovered;
    }
  }

  /** The recovery loop over the parity packets. */
  method RecoverStripes(packets: Packets, k: nat, r: nat) returns (recovered: Packets)
    requires r > 0
    ensures recovered == DecodedChunks(packets, k, r)
  {
    recovered := packets[..Min(k, |packets|)];
    var parityPackets := if |packets| > k then packets[k..] else [];
    for j := 0 to |parityPackets|
      invariant RecoveredBelow(packets, k, r, j, recovered)
    {
      if parityPackets[j].None? {
        continue;
      }
      recovered := RecoverStripe(packets, k, r, j, recovered);
    }
  }
}
