/** What every run of the in-flight window keeps. */
module GhostWindowRuns {
  import opened Bytes
  import opened Sequences
  import opened GhostWindows

  ghost predicate Stepped(states: seq<State>, ops: seq<Op>, limits: Limits, i: nat)
    requires i < |ops| && |states| == |ops| + 1
  {
    Next(states[i], ops[i], states[i + 1], limits)
  }

  /** A run: the states an operation sequence leads through, starting from a new window. */
  ghost predicate Trace(states: seq<State>, ops: seq<Op>, limits: Limits) {
    && |states| == |ops| + 1 && states[0] == EMPTY
    && forall i {:trigger Stepped(states, ops, limits, i)} :: 0 <= i < |ops| ==> Stepped(states, ops, limits, i)
  }

  // ---------------------------------------------------------------- counts since the last reset

  predicate Admits(s: State, op: Op) {
    op.Add? && op.seqNum !in s.pending
  }

  predicate Removes(s: State, op: Op) {
    op.Remove? && op.seqNum in s.pending
  }

  predicate Acknowledges(s: State, op: Op) {
    op.Ack? && op.seqNum in s.pending
  }

  function One(b: bool): nat {
    if b then 1 else 0
  }

  /** Additions of sequence numbers not then in the window. */
  function Admitted(states: seq<State>, ops: seq<Op>, n: nat): nat
    requires n <= |ops| && |states| == |ops| + 1
  {
    if n == 0 || ops[n - 1].Reset? then 0 else Admitted(states, ops, n - 1) + One(Admits(states[n - 1], ops[n - 1]))
  }

  /** Explicit removals of sequence numbers then in the window. */
  function Removed(states: seq<State>, ops: seq<Op>, n: nat): nat
    requires n <= |ops| && |states| == |ops| + 1
  {
    if n == 0 || ops[n - 1].Reset? then 0 else Removed(states, ops, n - 1) + One(Removes(states[n - 1], ops[n - 1]))
  }

  /** The round-trip times of all acknowledged packets, oldest first. */
  function AckedRtts(states: seq<State>, ops: seq<Op>, n: nat): seq<real>
    requires n <= |ops| && |states| == |ops| + 1
  {
    if n == 0 || ops[n - 1].Reset? then []
    else
      var s, op := states[n - 1], ops[n - 1];
      var before := AckedRtts(states, ops, n - 1);
      if Acknowledges(s, op) then before + [RttMs(s.pending[op.seqNum].sentAt, op.now)] else before
  }

  function Cap(limits: Limits): nat {
    if limits.maxSize > 3 then limits.maxSize else 3
  }

  // ---------------------------------------------------------------- one step

  lemma WithoutCount(pending: Pending, keys: set<nat>)
    requires keys <= pending.Keys
    ensures |pending - keys| == |pending| - |keys|
  {
    assert (pending - keys).Keys == pending.Keys - keys;
    assert |pending.Keys - keys| == |pending.Keys| - |keys|;
  }

  /** Everything a window holds or has accounted for. */
  function Total(s: State): nat {
    |s.pending| + s.acked + s.lost
  }

  lemma StepConserves(s: State, op: Op, s': State, limits: Limits)
    requires Next(s, op, s', limits)
    ensures if op.Reset? then Total(s') == 0 else Total(s') + One(Removes(s, op)) == Total(s) + One(Admits(s, op))
  {
    match op
    case Reset =>
    case Add(seqNum, sentAt, hash) => AddGrowsByOne(s.pending, seqNum, Entry(sentAt, Hash8(hash)));
    case Ack(seqNum, _) => DropOne(s.pending, seqNum);
    case DetectLoss(now, rtt, mult) => WithoutCount(s.pending, ExpiredSet(s.pending, now, ThresholdNs(rtt, mult)));
    case Remove(seqNum) => DropOne(s.pending, seqNum);
  }

  lemma AddGrowsByOne(pending: Pending, k: nat, entry: Entry)
    ensures |pending[k := entry]| == |pending| + if k in pending then 0 else 1
  {
    if k in pending {
      assert pending[k := entry].Keys == pending.Keys;
    } else {
      assert pending[k := entry].Keys == pending.Keys + {k};
    }
  }

  lemma DropOne(pending: Pending, k: nat)
    ensures |pending - {k}| == |pending| - if k in pending then 1 else 0
  {
    if k in pending {
      WithoutCount(pending, {k});
    } else {
      assert pending - {k} == pending;
    }
  }

  lemma AddBounds(s: State, s': State, limits: Limits, k: nat, entry: Entry)
    requires AddStep(s, s', limits.maxSize, k, entry) && |s.pending| <= Cap(limits)
    ensures |s'.pending| <= Cap(limits)
  {
    AddGrowsByOne(s.pending, k, entry);
  }

  lemma StepBounds(s: State, op: Op, s': State, limits: Limits)
    requires Next(s, op, s', limits) && |s.pending| <= Cap(limits)
    ensures |s'.pending| <= Cap(limits)
  {
    match op
    case Add(seqNum, sentAt, hash) => AddBounds(s, s', limits, seqNum, Entry(sentAt, Hash8(hash)));
    case Ack(seqNum, _) => DropOne(s.pending, seqNum);
    case DetectLoss(now, rtt, mult) => WithoutCount(s.pending, ExpiredSet(s.pending, now, ThresholdNs(rtt, mult)));
    case Remove(seqNum) => DropOne(s.pending, seqNum);
    case Reset =>
  }

  // ---------------------------------------------------------------- whole runs

  /** Conservation: since the last reset, every packet admitted is pending, acknowledged, lost or removed. */
  lemma {:induction false} Conservation(states: seq<State>, ops: seq<Op>, limits: Limits, n: nat)
    requires Trace(states, ops, limits) && n <= |ops|
    ensures Admitted(states, ops, n) ==
            |states[n].pending| + states[n].acked + states[n].lost + Removed(states, ops, n)
  {
    if n > 0 {
      Conservation(states, ops, limits, n - 1);
      TraceConserves(states, ops, limits, n - 1);
    }
  }

  lemma TraceConserves(states: seq<State>, ops: seq<Op>, limits: Limits, i: nat)
    requires Trace(states, ops, limits) && i < |ops|
    ensures var s, op, s' := states[i], ops[i], states[i + 1];
            if op.Reset? then Total(s') == 0 else Total(s') + One(Removes(s, op)) == Total(s) + One(Admits(s, op))
  {
    assert Stepped(states, ops, limits, i);
    StepConserves(states[i], ops[i], states[i + 1], limits);
  }

  /** The window never holds more than the larger of its size limit and three. */
  lemma {:induction false} Bounded(states: seq<State>, ops: seq<Op>, limits: Limits, n: nat)
    requires Trace(states, ops, limits) && n <= |ops|
    ensures |states[n].pending| <= Cap(limits)
  {
    if n > 0 {
      Bounded(states, ops, limits, n - 1);
      assert Stepped(states, ops, limits, n - 1);
      StepBounds(states[n - 1], ops[n - 1], states[n], limits);
    }
  }

  /** Three is needed: a window of size 0 holds three packets, because a quarter of three is none. */
  lemma SmallWindowsOverflow(limits: Limits)
    requires limits.maxSize < 3
    ensures exists states: seq<State>, ops: seq<Op> :: Trace(states, ops, limits) && |states[|ops|].pending| == 3
  {
    var e := Entry(0, Hash8([]));
    var ops := [Add(0, 0, []), Add(1, 0, []), Add(2, 0, [])];
    var p1: Pending := map[0 := e];
    var p2, p3 := p1[1 := e], p1[1 := e][2 := e];
    var states := [EMPTY, State(p1, 0, 0, []), State(p2, 0, 0, []), State(p3, 0, 0, [])];
    AddGrowsByOne(map[], 0, e);
    AddGrowsByOne(p1, 1, e);
    AddGrowsByOne(p2, 2, e);
    assert Stepped(states, ops, limits, 0);
    assert Stepped(states, ops, limits, 1);
    assert Stepped(states, ops, limits, 2);
    assert Trace(states, ops, limits);
  }

  lemma PushKeepsNewest(all: seq<real>, n: nat, x: real)
    requires n >= 1
    ensures PushRtt(Newest(all, n), n, x) == Newest(all + [x], n)
  {
    var more, cut := all + [x], |all| + 1 - n;
    if cut > 0 {
      assert more[cut..] == all[cut..] + [x];
      assert Newest(all, n)[1..] == all[cut..];
    }
  }

  /** The round-trip times acknowledged since the last reset, one operation later. */
  function RttsAfter(s: State, op: Op, all: seq<real>): seq<real> {
    if op.Reset? then []
    else if Acknowledges(s, op) then all + [RttMs(s.pending[op.seqNum].sentAt, op.now)]
    else all
  }

  lemma StepRtts(s: State, op: Op, s': State, limits: Limits, all: seq<real>)
    requires Next(s, op, s', limits) && limits.rttMax >= 1
    requires s.rtts == Newest(all, limits.rttMax) && |all| == s.acked
    ensures var all' := RttsAfter(s, op, all);
            s'.rtts == Newest(all', limits.rttMax) && |all'| == s'.acked
  {
    if Acknowledges(s, op) {
      PushKeepsNewest(all, limits.rttMax, RttMs(s.pending[op.seqNum].sentAt, op.now));
    }
  }

  /** With room for at least one sample, the buffer holds the most recent round-trip times. */
  lemma {:induction false} RttsAreRecent(states: seq<State>, ops: seq<Op>, limits: Limits, n: nat)
    requires Trace(states, ops, limits) && n <= |ops| && limits.rttMax >= 1
    ensures states[n].rtts == Newest(AckedRtts(states, ops, n), limits.rttMax)
    ensures |AckedRtts(states, ops, n)| == states[n].acked
  {
    if n > 0 {
      RttsAreRecent(states, ops, limits, n - 1);
      TraceRtts(states, ops, limits, n - 1, AckedRtts(states, ops, n - 1));
    }
  }

  lemma TraceRtts(states: seq<State>, ops: seq<Op>, limits: Limits, i: nat, all: seq<real>)
    requires Trace(states, ops, limits) && i < |ops| && limits.rttMax >= 1
    requires states[i].rtts == Newest(all, limits.rttMax) && |all| == states[i].acked
    ensures var s, op, s' := states[i], ops[i], states[i + 1];
            var all' := RttsAfter(s, op, all);
            s'.rtts == Newest(all', limits.rttMax) && |all'| == s'.acked
  {
    assert Stepped(states, ops, limits, i);
    StepRtts(states[i], ops[i], states[i + 1], limits, all);
  }

  /** With room for none, the buffer stays empty and every acknowledgement of a pending packet panics;
      with room for one or more, none does. */
  lemma {:induction false} PanicsExactly(states: seq<State>, ops: seq<Op>, limits: Limits, n: nat, seqNum: nat)
    requires Trace(states, ops, limits) && n <= |ops|
    ensures limits.rttMax == 0 ==> states[n].rtts == []
    ensures AckPanics(states[n], limits, seqNum) <==> limits.rttMax == 0 && seqNum in states[n].pending
  {
    if n > 0 && limits.rttMax == 0 {
      PanicsExactly(states, ops, limits, n - 1, seqNum);
      assert Stepped(states, ops, limits, n - 1);
    }
  }

  /** For one: in a window with no room for samples, acknowledging the first packet added panics. */
  lemma FirstAckPanics(maxSize: nat, seqNum: nat, sentAt: nat, payloadHash: seq<byte>)
    ensures var limits, op := Limits(maxSize, 0), Add(seqNum, sentAt, payloadHash);
            var added := State(map[seqNum := Entry(sentAt, Hash8(payloadHash))], 0, 0, []);
            Trace([EMPTY, added], [op], limits) && AckPanics(added, limits, seqNum)
  {
    var limits, op := Limits(maxSize, 0), Add(seqNum, sentAt, payloadHash);
    var added := State(map[seqNum := Entry(sentAt, Hash8(payloadHash))], 0, 0, []);
    assert EMPTY.pending[seqNum := Entry(sentAt, Hash8(payloadHash))] == added.pending;
    assert Stepped([EMPTY, added], [op], limits, 0);
  }

  /** A second look at the same time with the same threshold finds nothing more. */
  lemma DetectIsIdempotent(s: State, now: nat, threshold: nat)
    ensures ExpiredSet(DetectStep(s, now, threshold).pending, now, threshold) == {}
    ensures DetectStep(DetectStep(s, now, threshold), now, threshold) == DetectStep(s, now, threshold)
  {
    var once := DetectStep(s, now, threshold);
    assert ExpiredSet(once.pending, now, threshold) == {};
    assert once.pending - {} == once.pending;
  }
}
