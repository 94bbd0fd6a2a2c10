/** The in-flight packet window: additions with eviction, acknowledgements, timeouts and removals. */
module GhostWindows {
  import opened Bytes

  // ---------------------------------------------------------------- values

  datatype Entry = Entry(sentAt: nat, hash: seq<byte>)

  type Pending = map<nat, Entry>

  /** The contents of a window. */
  datatype State = State(pending: Pending, acked: nat, lost: nat, rtts: seq<real>)

  const EMPTY: State := State(map[], 0, 0, [])

  /** The sizes a window is created with. */
  datatype Limits = Limits(maxSize: nat, rttMax: nat)

  datatype Op =
    | Add(seqNum: nat, sentAt: nat, payloadHash: seq<byte>)
    | Ack(seqNum: nat, now: nat)
    | DetectLoss(now: nat, expectedRtt: real, mult: real)
    | Remove(seqNum: nat)
    | Reset

  /** The first eight bytes, padded with zeros. */
  function Hash8(payloadHash: seq<byte>): (h: seq<byte>)
    ensures |h| == 8
  {
    seq<byte>(8, i requires 0 <= i < 8 => if i < |payloadHash| then payloadHash[i] else 0)
  }

  function RttMs(sentAt: nat, now: nat): real {
    (if now >= sentAt then now - sentAt else 0) as real / 1000000.0
  }

  const U64_MAX: nat := 0xFFFF_FFFF_FFFF_FFFF

  /** A float cast to u64: towards zero, and saturating at both ends. */
  function ToU64(x: real): (n: nat)
    ensures n <= U64_MAX
  {
    if x < 0.0 then 0 else if x.Floor > U64_MAX then U64_MAX else x.Floor
  }

  function ThresholdNs(expectedRtt: real, mult: real): nat {
    ToU64(expectedRtt * mult * 1000000.0)
  }

  predicate Expired(entry: Entry, now: nat, threshold: nat) {
    now >= entry.sentAt && now - entry.sentAt > threshold
  }

  function ExpiredSet(pending: Pending, now: nat, threshold: nat): set<nat> {
    set k | k in pending && Expired(pending[k], now, threshold)
  }

  /** A quarter of the entries is dropped, rounded down, and none dropped is newer than one kept. */
  ghost predicate Evicted(before: Pending, after: Pending) {
    && after.Keys <= before.Keys && (forall k :: k in after ==> after[k] == before[k])
    && |before| - |after| == |before| / 4
    && forall gone, kept :: gone in before && gone !in after && kept in after ==>
      before[gone].sentAt <= before[kept].sentAt
  }

  /** One more sample at the end; with the buffer full, the oldest goes. */
  function PushRtt(rtts: seq<real>, rttMax: nat, rtt: real): seq<real> {
    (if |rtts| >= rttMax && rtts != [] then rtts[1..] else rtts) + [rtt]
  }

  /** With room for no samples the code removes from an empty buffer, which panics. */
  predicate AckPanics(s: State, limits: Limits, seqNum: nat) {
    seqNum in s.pending && limits.rttMax == 0 && s.rtts == []
  }

  // ---------------------------------------------------------------- steps

  ghost predicate AddStep(s: State, s': State, maxSize: nat, seqNum: nat, entry: Entry) {
    var inserted := s.pending[seqNum := entry];
    && (if |inserted| > maxSize then Evicted(inserted, s'.pending) else s'.pending == inserted)
    && s' == s.(pending := s'.pending, lost := s.lost + |inserted| - |s'.pending|)
  }

  function AckStep(s: State, limits: Limits, seqNum: nat, now: nat): State {
    if seqNum !in s.pending then s
    else
      var acked := s.(pending := s.pending - {seqNum}, acked := s.acked + 1);
      if AckPanics(s, limits, seqNum) then acked
      else acked.(rtts := PushRtt(s.rtts, limits.rttMax, RttMs(s.pending[seqNum].sentAt, now)))
  }

  function DetectStep(s: State, now: nat, threshold: nat): State {
    var gone := ExpiredSet(s.pending, now, threshold);
    s.(pending := s.pending - gone, lost := s.lost + |gone|)
  }

  /** What an operation may do to a window. Only eviction among equally old entries is left open. */
  ghost predicate Next(s: State, op: Op, s': State, limits: Limits) {
    match op
    case Add(seqNum, sentAt, payloadHash) => AddStep(s, s', limits.maxSize, seqNum, Entry(sentAt, Hash8(payloadHash)))
    case Ack(seqNum, now) => s' == AckStep(s, limits, seqNum, now)
    case DetectLoss(now, expectedRtt, mult) => s' == DetectStep(s, now, ThresholdNs(expectedRtt, mult))
    case Remove(seqNum) => s' == s.(pending := s.pending - {seqNum})
    case Reset => s' == EMPTY
  }

  // ---------------------------------------------------------------- the code

  datatype AckResult = Rtt(ms: real) | NotPending | Panicked

  type Ages = seq<(nat, nat)>

  predicate SortedByAge(byAge: Ages) {
    forall i, j :: 0 <= i < j < |byAge| ==> byAge[i].1 <= byAge[j].1
  }

  predicate DistinctKeys(byAge: Ages) {
    forall i, j :: 0 <= i < j < |byAge| ==> byAge[i].0 != byAge[j].0
  }

  ghost predicate Lists(byAge: Ages, pending: Pending) {
    && (forall i {:trigger byAge[i]} :: 0 <= i < |byAge| ==>
      byAge[i].0 in pending && byAge[i].1 == pending[byAge[i].0].sentAt)
    && (forall k {:trigger pending[k]} :: k in pending ==> (k, pending[k].sentAt) in byAge)
  }

  /** The sequence numbers and send times of a window, each once, oldest first. */
  ghost predicate ListsByAge(byAge: Ages, pending: Pending) {
    |byAge| == |pending| && SortedByAge(byAge) && DistinctKeys(byAge) && Lists(byAge, pending)
  }

  function InsertAt(byAge: Ages, at: nat, x: (nat, nat)): (more: Ages)
    requires at <= |byAge|
    ensures |more| == |byAge| + 1 && more[at] == x
    ensures forall i :: 0 <= i < at ==> more[i] == byAge[i]
    ensures forall i :: at < i < |more| ==> more[i] == byAge[i - 1]
    ensures forall y :: y in more <==> y in byAge || y == x
  {
    assert byAge == byAge[..at] + byAge[at..];
    byAge[..at] + [x] + byAge[at..]
  }

  lemma InsertedDistinct(byAge: Ages, at: nat, x: (nat, nat))
    requires at <= |byAge| && DistinctKeys(byAge) && forall i :: 0 <= i < |byAge| ==> byAge[i].0 != x.0
    ensures DistinctKeys(InsertAt(byAge, at, x))
  {
  }

  lemma InsertedSorted(byAge: Ages, at: nat, x: (nat, nat))
    requires at <= |byAge| && SortedByAge(byAge)
    requires forall i :: 0 <= i < at ==> byAge[i].1 <= x.1
    requires forall i :: at <= i < |byAge| ==> x.1 <= byAge[i].1
    ensures SortedByAge(InsertAt(byAge, at, x))
  {
  }

  lemma InsertedLists(byAge: Ages, at: nat, pending: Pending, k: nat, entry: Entry)
    requires at <= |byAge| && Lists(byAge, pending) && k !in pending
    ensures Lists(InsertAt(byAge, at, (k, entry.sentAt)), pending[k := entry])
  {
    var more := InsertAt(byAge, at, (k, entry.sentAt));
    forall i | 0 <= i < |more|
      ensures more[i].0 in pending[k := entry] && more[i].1 == pending[k := entry][more[i].0].sentAt
    {
      assert more[i] in more;
      assert i != at ==> more[i] in byAge;
    }
  }

  /** An entry put behind those not newer than it and before the others leaves the list sorted. */
  lemma InsertedByAge(byAge: Ages, at: nat, pending: Pending, k: nat, entry: Entry)
    requires ListsByAge(byAge, pending) && k !in pending && at <= |byAge|
    requires forall i :: 0 <= i < at ==> byAge[i].1 <= entry.sentAt
    requires at < |byAge| ==> entry.sentAt < byAge[at].1
    ensures ListsByAge(InsertAt(byAge, at, (k, entry.sentAt)), pending[k := entry])
  {
    NewerFrom(byAge, at, entry.sentAt);
    OtherKeys(byAge, pending, k);
    hide SortedByAge, DistinctKeys, Lists;
    InsertedSorted(byAge, at, (k, entry.sentAt));
    InsertedDistinct(byAge, at, (k, entry.sentAt));
    InsertedLists(byAge, at, pending, k, entry);
  }

  lemma NewerFrom(byAge: Ages, at: nat, sentAt: nat)
    requires SortedByAge(byAge) && (at < |byAge| ==> sentAt < byAge[at].1)
    ensures forall i :: at <= i < |byAge| ==> sentAt <= byAge[i].1
  {
  }

  lemma OtherKeys(byAge: Ages, pending: Pending, k: nat)
    requires Lists(byAge, pending) && k !in pending
    ensures forall i :: 0 <= i < |byAge| ==> byAge[i].0 != k
  {
  }

  method InsertByAge(byAge: Ages, ghost pending: Pending, k: nat, entry: Entry) returns (more: Ages)
    requires ListsByAge(byAge, pending) && k !in pending
    ensures ListsByAge(more, pending[k := entry])
  {
    hide ListsByAge;
    var at := 0;
    while at < |byAge| && byAge[at].1 <= entry.sentAt
      invariant at <= |byAge|
      invariant forall i :: 0 <= i < at ==> byAge[i].1 <= entry.sentAt
    {
      at := at + 1;
    }
    InsertedByAge(byAge, at, pending, k, entry);
    more := InsertAt(byAge, at, (k, entry.sentAt));
  }

  /** The part of a window already walked. */
  ghost function Walked(pending: Pending, todo: set<nat>): Pending {
    pending - todo
  }

  lemma WalkedOneMore(pending: Pending, todo: set<nat>, k: nat)
    requires k in todo && k in pending
    ensures k !in Walked(pending, todo)
    ensures Walked(pending, todo - {k}) == Walked(pending, todo)[k := pending[k]]
  {
  }

  /** The window's entries collected and sorted by age. */
  method SortByAge(pending: Pending) returns (byAge: Ages)
    ensures ListsByAge(byAge, pending)
  {
    byAge := [];
    var todo := pending.Keys;
    assert Walked(pending, todo) == map[];
    while todo != {}
      invariant todo <= pending.Keys
      invariant ListsByAge(byAge, Walked(pending, todo))
      decreases todo
    {
      var k :| k in todo;
      WalkedOneMore(pending, todo, k);
      byAge := InsertByAge(byAge, Walked(pending, todo), k, pending[k]);
      todo := todo - {k};
    }
    assert Walked(pending, {}) == pending;
  }

  /** The window without its `n` oldest entries. */
  ghost function DropOldest(pending: Pending, byAge: Ages, n: nat): Pending
    requires n <= |byAge|
  {
    pending - FirstKeys(byAge, n)
  }

  ghost function FirstKeys(byAge: Ages, n: nat): set<nat>
    requires n <= |byAge|
  {
    set j | 0 <= j < n :: byAge[j].0
  }

  lemma OneMoreDropped(pending: Pending, byAge: Ages, n: nat)
    requires ListsByAge(byAge, pending) && n < |byAge|
    ensures DropOldest(pending, byAge, n + 1) == DropOldest(pending, byAge, n) - {byAge[n].0}
    ensures byAge[n].0 in DropOldest(pending, byAge, n)
  {
    assert FirstKeys(byAge, n + 1) == FirstKeys(byAge, n) + {byAge[n].0};
  }

  lemma DroppedIsOlder(pending: Pending, byAge: Ages, n: nat, gone: nat, kept: nat)
    requires ListsByAge(byAge, pending) && n <= |byAge| && gone in pending
    requires gone !in DropOldest(pending, byAge, n) && kept in DropOldest(pending, byAge, n)
    ensures pending[gone].sentAt <= pending[kept].sentAt
  {
    var i :| 0 <= i < n && byAge[i].0 == gone;
    assert (kept, pending[kept].sentAt) in byAge;
    var j :| 0 <= j < |byAge| && byAge[j] == (kept, pending[kept].sentAt);
    assert j >= n;
  }

  lemma DroppingOldestEvicts(pending: Pending, byAge: Ages)
    requires ListsByAge(byAge, pending)
    ensures var after := DropOldest(pending, byAge, |pending| / 4);
            |pending| - |after| == |pending| / 4 ==> Evicted(pending, after)
  {
    hide SortedByAge, DistinctKeys, Lists, FirstKeys;
    var after := DropOldest(pending, byAge, |pending| / 4);
    forall gone, kept | gone in pending && gone !in after && kept in after
      ensures pending[gone].sentAt <= pending[kept].sentAt
    {
      DroppedIsOlder(pending, byAge, |pending| / 4, gone, kept);
    }
  }

  /** The expired entries, each once, in whatever order the table is walked. */
  method FindExpired(pending: Pending, now: nat, threshold: nat) returns (lost: seq<nat>)
    ensures forall k :: k in lost <==> k in ExpiredSet(pending, now, threshold)
    ensures forall i, j :: 0 <= i < j < |lost| ==> lost[i] != lost[j]
  {
    lost := [];
    var todo := pending.Keys;
    while todo != {}
      invariant todo <= pending.Keys
      invariant forall k :: k in lost <==> k in ExpiredSet(pending, now, threshold) && k !in todo
      invariant forall i, j :: 0 <= i < j < |lost| ==> lost[i] != lost[j]
      decreases todo
    {
      var k :| k in todo;
      if Expired(pending[k], now, threshold) {
        lost := lost + [k];
      }
      todo := todo - {k};
    }
  }

  ghost function FirstOf(keys: seq<nat>, n: nat): set<nat>
    requires n <= |keys|
  {
    set j | 0 <= j < n :: keys[j]
  }

  lemma OneMoreOf(keys: seq<nat>, n: nat)
    requires n < |keys| && forall i, j :: 0 <= i < j < |keys| ==> keys[i] != keys[j]
    ensures FirstOf(keys, n + 1) == FirstOf(keys, n) + {keys[n]} && keys[n] !in FirstOf(keys, n)
  {
  }

  lemma {:induction false} FirstOfSize(keys: seq<nat>, n: nat)
    requires n <= |keys| && forall i, j :: 0 <= i < j < |keys| ==> keys[i] != keys[j]
    ensures |FirstOf(keys, n)| == n
  {
    if n == 0 {
      assert FirstOf(keys, 0) == {};
    } else {
      FirstOfSize(keys, n - 1);
      OneMoreOf(keys, n - 1);
    }
  }

  // ---------------------------------------------------------------- what the numbers mean

  /** Nanoseconds a packet has been under way; 0 when the clock is behind its time stamp. */
  function Age(sentAt: nat, now: nat): nat {
    if now >= sentAt then now - sentAt else 0
  }

  /** A packet is lost exactly when it is older than `mult` times the expected round trip, given in milliseconds:
      rounding the threshold to nanoseconds, and cutting it off at 64 bits, change nothing. */
  lemma LostExactly(pending: Pending, now: nat, expectedRtt: real, mult: real, k: nat)
    requires now <= U64_MAX
    ensures k in ExpiredSet(pending, now, ThresholdNs(expectedRtt, mult)) <==>
            k in pending && Age(pending[k].sentAt, now) > 0 &&
            Age(pending[k].sentAt, now) as real > expectedRtt * mult * 1000000.0
  {
    if k in pending {
      CastKeepsOrder(Age(pending[k].sentAt, now), expectedRtt * mult * 1000000.0);
    }
  }

  lemma CastKeepsOrder(age: nat, x: real)
    requires age <= U64_MAX
    ensures age > ToU64(x) <==> age > 0 && age as real > x
  {
  }

  /** A round-trip time is the packet's age in milliseconds. */
  lemma RttIsAge(sentAt: nat, now: nat)
    ensures RttMs(sentAt, now) * 1000000.0 == Age(sentAt, now) as real
  {
  }

  /** What an addition leaves: everything while there is room; above the size, all but a quarter rounded down, and
      nothing kept is older than anything dropped. */
  ghost predicate Leaves(before: Pending, after: Pending, maxSize: nat, seqNum: nat, sentAt: nat) {
    var all := before.Keys + {seqNum};
    && after.Keys <= all && |after| == |all| - (if |all| > maxSize then |all| / 4 else 0)
    && forall gone, kept :: gone in all && gone !in after && kept in after ==>
      (if gone == seqNum then sentAt else before[gone].sentAt) <= after[kept].sentAt
  }

  lemma AddLeaves(before: Pending, after: Pending, maxSize: nat, seqNum: nat, entry: Entry)
    requires var all := before[seqNum := entry]; if |all| > maxSize then Evicted(all, after) else after == all
    ensures Leaves(before, after, maxSize, seqNum, entry.sentAt)
    ensures seqNum in after ==> after[seqNum] == entry
    ensures forall k :: k in after && k != seqNum ==> k in before && after[k] == before[k]
  {
    assert before[seqNum := entry].Keys == before.Keys + {seqNum};
  }

  /** Up to eight bytes of the hash are kept, and the rest is zero. */
  predicate KeepsHash(entry: Entry, payloadHash: seq<byte>) {
    |entry.hash| == 8 && forall i :: 0 <= i < 8 ==> entry.hash[i] == if i < |payloadHash| then payloadHash[i] else 0
  }

  lemma HashIsKept(sentAt: nat, payloadHash: seq<byte>)
    ensures KeepsHash(Entry(sentAt, Hash8(payloadHash)), payloadHash)
  {
  }

  class GhostWindow {
    var window: Pending
    const maxSize: nat
    var totalAcked: nat
    var totalLost: nat
    var rttSamples: seq<real>
    const rttMaxSamples: nat

    ghost function View(): State
      reads this
    {
      State(window, totalAcked, totalLost, rttSamples)
    }

    ghost function Sizes(): Limits {
      Limits(maxSize, rttMaxSamples)
    }

    constructor (maxSize: nat, rttMaxSamples: nat)
      ensures View() == EMPTY && Sizes() == Limits(maxSize, rttMaxSamples)
    {
      this.maxSize, this.rttMaxSamples := maxSize, rttMaxSamples;
      window, totalAcked, totalLost, rttSamples := map[], 0, 0, [];
    }

    method Add(seqNum: nat, sentAt: nat, payloadHash: seq<byte>)
      modifies this
      ensures Next(old(View()), Op.Add(seqNum, sentAt, payloadHash), View(), Sizes())
      ensures Leaves(old(window), window, maxSize, seqNum, sentAt)
      ensures totalLost == old(totalLost) + |old(window).Keys + {seqNum}| - |window|
      ensures seqNum in window ==> window[seqNum].sentAt == sentAt && KeepsHash(window[seqNum], payloadHash)
      ensures forall k :: k in window && k != seqNum ==> k in old(window) && window[k] == old(window)[k]
    {
      hide Evicted, Leaves, Hash8, KeepsHash, AckStep, DetectStep;
      window := window[seqNum := Entry(sentAt, Hash8(payloadHash))];
      assert window.Keys == old(window).Keys + {seqNum};
      if |window| > maxSize {
        EvictOldest();
      }
      HashIsKept(sentAt, payloadHash);
      AddLeaves(old(window), window, maxSize, seqNum, Entry(sentAt, Hash8(payloadHash)));
    }

    method EvictOldest()
      modifies this`window, this`totalLost
      ensures Evicted(old(window), window)
      ensures totalLost == old(totalLost) + |old(window)| - |window|
    {
      var evictN := |window| / 4;
      if evictN == 0 {
        return;
      }
      var byAge := SortByAge(window);
      ghost var before := window;
      assert DropOldest(before, byAge, 0) == before;
      for i := 0 to evictN
        invariant totalLost == old(totalLost) + i
        invariant window == DropOldest(before, byAge, i) && |window| == |before| - i
      {
        OneMoreDropped(before, byAge, i);
        window := window - {byAge[i].0};
        totalLost := totalLost + 1;
      }
      DroppingOldestEvicts(before, byAge);
    }

    method ImplicitAck(seqNum: nat, now: nat) returns (r: AckResult)
      modifies this
      ensures Next(old(View()), Ack(seqNum, now), View(), Sizes())
      ensures r == if seqNum !in old(window) then NotPending
                   else if AckPanics(old(View()), Sizes(), seqNum) then Panicked
                   else Rtt(RttMs(old(window)[seqNum].sentAt, now))
      ensures r.Rtt? ==> r.ms * 1000000.0 == Age(old(window)[seqNum].sentAt, now) as real
      ensures r.Rtt? ==> rttSamples != [] && rttSamples[|rttSamples| - 1] == r.ms
    {
      if seqNum !in window {
        return NotPending;
      }
      var entry := window[seqNum];
      window := window - {seqNum};
      var rtt := RttMs(entry.sentAt, now);
      RttIsAge(entry.sentAt, now);
      totalAcked := totalAcked + 1;
      if |rttSamples| >= rttMaxSamples {
        if rttSamples == [] {
          return Panicked;
        }
        rttSamples := rttSamples[1..];
      }
      rttSamples := rttSamples + [rtt];
      return Rtt(rtt);
    }

    method DetectLoss(now: nat, expectedRtt: real, mult: real) returns (lost: seq<nat>)
      modifies this
      ensures Next(old(View()), Op.DetectLoss(now, expectedRtt, mult), View(), Sizes())
      ensures forall k :: k in lost <==> k in ExpiredSet(old(window), now, ThresholdNs(expectedRtt, mult))
      ensures forall i, j :: 0 <= i < j < |lost| ==> lost[i] != lost[j]
      ensures now <= U64_MAX ==> forall k :: k in lost <==>
                k in old(window) && Age(old(window)[k].sentAt, now) > 0 &&
                Age(old(window)[k].sentAt, now) as real > expectedRtt * mult * 1000000.0
      ensures forall k :: k in window <==> k in old(window) && k !in lost
      ensures forall k :: k in window ==> window[k] == old(window)[k]
      ensures totalLost == old(totalLost) + |lost| && totalAcked == old(totalAcked) && rttSamples == old(rttSamples)
    {
      if now <= U64_MAX {
        forall k
          ensures k in ExpiredSet(window, now, ThresholdNs(expectedRtt, mult)) <==>
                  k in window && Age(window[k].sentAt, now) > 0 &&
                  Age(window[k].sentAt, now) as real > expectedRtt * mult * 1000000.0
        {
          LostExactly(window, now, expectedRtt, mult, k);
        }
      }
      lost := FindExpired(window, now, ThresholdNs(expectedRtt, mult));
      FirstOfSize(lost, |lost|);
      assert FirstOf(lost, |lost|) == ExpiredSet(window, now, ThresholdNs(expectedRtt, mult));
      RemoveLost(lost);
    }

    method RemoveLost(lost: seq<nat>)
      requires forall i, j :: 0 <= i < j < |lost| ==> lost[i] != lost[j]
      modifies this`window, this`totalLost
      ensures window == old(window) - FirstOf(lost, |lost|)
      ensures totalLost == old(totalLost) + |FirstOf(lost, |lost|)|
    {
      assert window - FirstOf(lost, 0) == window;
      for i := 0 to |lost|
        invariant window == old(window) - FirstOf(lost, i)
        invariant totalLost == old(totalLost) + |FirstOf(lost, i)|
      {
        OneMoreOf(lost, i);
        window := window - {lost[i]};
        totalLost := totalLost + 1;
      }
    }

    method Remove(seqNum: nat) returns (present: bool)
      modifies this
      ensures Next(old(View()), Op.Remove(seqNum), View(), Sizes())
      ensures present == (seqNum in old(window))
    {
      present := seqNum in window;
      window := window - {seqNum};
    }

    method Reset()
      modifies this
      ensures Next(old(View()), Op.Reset, View(), Sizes())
    {
      window, totalAcked, totalLost, rttSamples := map[], 0, 0, [];
    }
  }
}
