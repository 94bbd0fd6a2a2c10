/** What every run of an adaptive session keeps, whatever data, ticks and network changes arrive. */
module AdaptiveSessionRuns {
  import opened Arithmetic
  import opened Sequences
  import opened AdaptiveSessions

  // ---------------------------------------------------------------- two kinds of step

  predicate Edge(source: Phase, target: Phase) {
    (source == Connecting && target == Active) || (source == Active && target == Ghost) ||
    (source == Ghost && (target == Active || target == Closed))
  }

  predicate Stays(s: Session, t: Session) {
    t.phase == s.phase && t.history == s.history && t.transitions == s.transitions &&
    t.main == s.main && t.perOrder == s.perOrder
  }

  predicate Follows(s: Session, t: Session) {
    && Edge(s.phase, t.phase)
    && t.history == Newest(s.history + [s.phase], HISTORY_LENGTH)
    && |t.transitions| == |s.transitions| + 1 && t.transitions[..|s.transitions|] == s.transitions
    && t.transitions[|s.transitions|].source == s.phase && t.transitions[|s.transitions|].target == t.phase
    && t.main == Learn(s.main, s.phase, t.phase) && t.perOrder == LearnAll(s.perOrder, s.phase, t.phase)
  }

  /** Every event either leaves phase, records and estimates alone, or follows one edge. */
  lemma StaysOrFollows(s: Session, e: Event)
    ensures Stays(s, Step(s, e)) || Follows(s, Step(s, e))
  {
    var t := Step(s, e);
    if t.phase != s.phase {
      assert t.transitions[..|s.transitions|] == s.transitions;
    }
  }

  function RunFrom(network: NetworkType, heard: real, entered: real, events: seq<Event>): Session {
    Run(Begin(network, heard, entered), events)
  }

  lemma LastStep(network: NetworkType, heard: real, entered: real, events: seq<Event>)
    requires events != []
    ensures var before := RunFrom(network, heard, entered, Front(events));
            var after := RunFrom(network, heard, entered, events);
            Stays(before, after) || Follows(before, after)
  {
    StaysOrFollows(RunFrom(network, heard, entered, Front(events)), events[|events| - 1]);
  }

  // ---------------------------------------------------------------- the record of transitions

  function Count(ts: seq<Transition>, source: Phase, target: Phase): nat {
    if ts == [] then 0
    else
      var last := ts[|ts| - 1];
      Count(ts[..|ts| - 1], source, target) + if last.source == source && last.target == target then 1 else 0
  }

  /** The recorded transitions are a path of the phase graph from CONNECTING to the present phase. */
  predicate IsPath(ts: seq<Transition>, phase: Phase) {
    if ts == [] then phase == Connecting
    else
      var last := ts[|ts| - 1];
      last.target == phase && Edge(last.source, phase) && IsPath(ts[..|ts| - 1], last.source)
  }

  lemma {:induction false} TransitionsArePath(network: NetworkType, heard: real, entered: real, events: seq<Event>)
    ensures var s := RunFrom(network, heard, entered, events); IsPath(s.transitions, s.phase)
  {
    if events != [] {
      TransitionsArePath(network, heard, entered, Front(events));
      LastStep(network, heard, entered, events);
    }
  }

  /** Into each phase goes one transition more than comes out exactly while the session is in it. */
  predicate Balanced(ts: seq<Transition>, phase: Phase) {
    && Count(ts, Active, Ghost) - Count(ts, Ghost, Active) - Count(ts, Ghost, Closed) ==
      (if phase == Ghost then 1 else 0)
    && Count(ts, Connecting, Active) + Count(ts, Ghost, Active) - Count(ts, Active, Ghost) ==
      (if phase == Active then 1 else 0)
    && Count(ts, Ghost, Closed) == (if phase == Closed then 1 else 0)
    && Count(ts, Connecting, Active) == (if phase == Connecting then 0 else 1)
  }

  lemma {:induction false} FlowLaw(network: NetworkType, heard: real, entered: real, events: seq<Event>)
    ensures var s := RunFrom(network, heard, entered, events); Balanced(s.transitions, s.phase)
  {
    if events != [] {
      FlowLaw(network, heard, entered, Front(events));
      LastStep(network, heard, entered, events);
    }
  }

  /** The estimator's counters are the counts of the recorded transitions. */
  lemma {:induction false} CountersMatchRecord(network: NetworkType, heard: real, entered: real, events: seq<Event>)
    ensures var s := RunFrom(network, heard, entered, events);
            s.main.activeToGhost == Count(s.transitions, Active, Ghost) == s.main.actives &&
            s.main.ghostToActive == Count(s.transitions, Ghost, Active) &&
            s.main.ghostToClosed == Count(s.transitions, Ghost, Closed) &&
            s.main.ghosts == s.main.ghostToActive + s.main.ghostToClosed
  {
    if events != [] {
      hide Count;
      CountersMatchRecord(network, heard, entered, Front(events));
      LastStep(network, heard, entered, events);
      var s, t := RunFrom(network, heard, entered, Front(events)), RunFrom(network, heard, entered, events);
      if Follows(s, t) {
        CountsOneMore(s, t);
      }
    }
  }

  function Sources(ts: seq<Transition>): (r: seq<Phase>)
    ensures |r| == |ts| && forall i :: 0 <= i < |ts| ==> r[i] == ts[i].source
  {
    seq(|ts|, i requires 0 <= i < |ts| => ts[i].source)
  }

  /** The history is the last at most 20 phases left. */
  lemma {:induction false} HistoryLaw(network: NetworkType, heard: real, entered: real, events: seq<Event>)
    ensures var s := RunFrom(network, heard, entered, events);
            s.history == Newest(Sources(s.transitions), HISTORY_LENGTH)
  {
    if events != [] {
      HistoryLaw(network, heard, entered, Front(events));
      LastStep(network, heard, entered, events);
      var s, t := RunFrom(network, heard, entered, Front(events)), RunFrom(network, heard, entered, events);
      if Follows(s, t) {
        assert Sources(t.transitions) == Sources(s.transitions) + [s.phase];
        NewestOfNewest(Sources(s.transitions), s.phase, HISTORY_LENGTH);
      }
    }
  }

  /** The five estimators kept for model selection never differ from the main one. */
  lemma {:induction false} EstimatorsAgree(network: NetworkType, heard: real, entered: real, events: seq<Event>)
    ensures var s := RunFrom(network, heard, entered, events);
            |s.perOrder| == MEMORY_ORDERS && forall i :: 0 <= i < MEMORY_ORDERS ==> s.perOrder[i] == s.main
  {
    if events != [] {
      EstimatorsAgree(network, heard, entered, Front(events));
      LastStep(network, heard, entered, events);
    }
  }

  // ---------------------------------------------------------------- clocks and profiles

  function TotalLasted(ts: seq<Transition>): real {
    if ts == [] then 0.0 else TotalLasted(ts[..|ts| - 1]) + ts[|ts| - 1].lasted
  }

  /** The time that passed between the second and the third reading of the clock, over all transitions of a run. */
  function Between(network: NetworkType, heard: real, entered: real, events: seq<Event>): real {
    if events == [] then 0.0
    else
      var before, after := RunFrom(network, heard, entered, Front(events)), RunFrom(network, heard, entered, events);
      Between(network, heard, entered, Front(events)) +
      if |after.transitions| > |before.transitions|
      then Last(events).clock.entered - Last(events).clock.measured else 0.0
  }

  lemma MoveAddsDuration(s: Session, e: Event)
    ensures var t := Step(s, e);
            if |t.transitions| > |s.transitions|
            then !e.SetNetwork? && t.entered == e.clock.entered &&
                 TotalLasted(t.transitions) == TotalLasted(s.transitions) + (e.clock.measured - s.entered)
            else t.entered == s.entered && t.transitions == s.transitions
  {
    var t := Step(s, e);
    if |t.transitions| > |s.transitions| {
      assert t.transitions[..|s.transitions|] == s.transitions;
    }
  }

  /** The recorded durations, and the time between the two readings of each transition, add up to the time from the
      start to the last transition, whatever the clock does. */
  lemma {:induction false} DurationsAddUp(network: NetworkType, heard: real, entered: real, events: seq<Event>)
    ensures var s := RunFrom(network, heard, entered, events);
            TotalLasted(s.transitions) + Between(network, heard, entered, events) == s.entered - entered
  {
    if events != [] {
      DurationsAddUp(network, heard, entered, Front(events));
      MoveAddsDuration(RunFrom(network, heard, entered, Front(events)), Last(events));
    }
  }

  /** The clock does not go back between the second and the third reading. */
  predicate Forward(events: seq<Event>) {
    forall i :: 0 <= i < |events| && !events[i].SetNetwork? ==> events[i].clock.measured <= events[i].clock.entered
  }

  lemma {:induction false} BetweenIsPositive(network: NetworkType, heard: real, entered: real, events: seq<Event>)
    requires Forward(events)
    ensures Between(network, heard, entered, events) >= 0.0
  {
    if events != [] {
      BetweenIsPositive(network, heard, entered, Front(events));
      MoveAddsDuration(RunFrom(network, heard, entered, Front(events)), Last(events));
    }
  }

  /** So with a clock that does not go back, the durations never exceed the time from the start to the last
      transition. */
  lemma DurationsFallShort(network: NetworkType, heard: real, entered: real, events: seq<Event>)
    requires Forward(events)
    ensures var s := RunFrom(network, heard, entered, events); TotalLasted(s.transitions) <= s.entered - entered
  {
    DurationsAddUp(network, heard, entered, events);
    BetweenIsPositive(network, heard, entered, events);
  }

  function LastHeard(heard: real, events: seq<Event>): real {
    if events == [] then heard
    else match events[|events| - 1]
      case Data(now, _) => now
      case _ => LastHeard(heard, Front(events))
  }

  function LastDetected(network: NetworkType, events: seq<Event>): NetworkType {
    if events == [] then network
    else match events[|events| - 1]
      case SetNetwork(detected) => detected
      case _ => LastDetected(network, Front(events))
  }

  /** The idle clock runs from the last data in any phase, and the profile is that of the last detected network. */
  lemma {:induction false} ClockAndProfileLaw(network: NetworkType, heard: real, entered: real, events: seq<Event>)
    ensures var s := RunFrom(network, heard, entered, events);
            s.lastData == LastHeard(heard, events) && s.profile == ProfileOf(LastDetected(network, events))
  {
    if events != [] {
      ClockAndProfileLaw(network, heard, entered, Front(events));
    }
  }

  // ---------------------------------------------------------------- closing

  /** Once CLOSED, always CLOSED, and nothing is recorded or learnt any more. */
  lemma {:induction false} ClosedIsFinal(s: Session, events: seq<Event>)
    requires s.phase == Closed
    ensures Stays(s, Run(s, events))
  {
    if events != [] {
      ClosedIsFinal(s, Front(events));
      StaysOrFollows(Run(s, Front(events)), events[|events| - 1]);
    }
  }

  /** Whether some tick's gap passes the idle limit, and whether a later one passes the hard limit. */
  predicate WentIdle(gaps: seq<real>, idle: real) {
    exists i :: 0 <= i < |gaps| && gaps[i] > idle
  }

  predicate WentHard(gaps: seq<real>, idle: real, hard: real) {
    exists i, j :: 0 <= i < j < |gaps| && gaps[i] > idle && gaps[j] > hard
  }

  function Ticks(heard: real, gaps: seq<real>, clocks: seq<Readings>): seq<Event>
    requires |clocks| == |gaps|
  {
    seq(|gaps|, i requires 0 <= i < |gaps| => Tick(heard + gaps[i], clocks[i]))
  }

  function PhaseAfter(gaps: seq<real>, idle: real, hard: real): Phase {
    if WentHard(gaps, idle, hard) then Closed else if WentIdle(gaps, idle) then Ghost else Active
  }

  lemma PhaseAfterOneMore(gaps: seq<real>, last: real, idle: real, hard: real)
    ensures PhaseAfter([], idle, hard) == Active
    ensures PhaseAfter(gaps + [last], idle, hard) ==
            match PhaseAfter(gaps, idle, hard)
            case Active => if last > idle then Ghost else Active
            case Ghost => if last > hard then Closed else Ghost
            case _ => Closed
  {
    OneGapMore(gaps, last, idle, hard);
  }

  /** Silence: with ticks only, in any order, an active session is CLOSED exactly when a tick beyond the hard limit
      comes after one beyond the idle limit, so never by one tick alone; GHOST when only the idle limit was passed;
      and ACTIVE otherwise. */
  lemma {:induction false} SilenceLaw(s: Session, gaps: seq<real>, clocks: seq<Readings>)
    requires s.phase == Active && |clocks| == |gaps|
    ensures Run(s, Ticks(s.lastData, gaps, clocks)).phase == PhaseAfter(gaps, s.profile.idle, s.profile.hard)
    ensures var t := Run(s, Ticks(s.lastData, gaps, clocks)); t.lastData == s.lastData && t.profile == s.profile
  {
    if gaps == [] {
      PhaseAfterOneMore([], 0.0, s.profile.idle, s.profile.hard);
    } else {
      var less, last := gaps[..|gaps| - 1], gaps[|gaps| - 1];
      SilenceLaw(s, less, Front(clocks));
      TicksOneMore(s.lastData, gaps, clocks);
      PhaseAfterOneMore(less, last, s.profile.idle, s.profile.hard);
      assert less + [last] == gaps;
      hide Ticks, PhaseAfter;
      TickDecides(Run(s, Ticks(s.lastData, less, Front(clocks))), s.lastData + last, Last(clocks));
    }
  }

  lemma TicksOneMore(heard: real, gaps: seq<real>, clocks: seq<Readings>)
    requires |clocks| == |gaps| && gaps != []
    ensures var ticks := Ticks(heard, gaps, clocks);
            ticks != [] && Front(ticks) == Ticks(heard, Front(gaps), Front(clocks)) &&
            Last(ticks) == Tick(heard + Last(gaps), Last(clocks))
  {
  }

  lemma TickDecides(s: Session, now: real, clock: Readings)
    ensures var t, gap := Step(s, Tick(now, clock)), now - s.lastData;
            && t.lastData == s.lastData && t.profile == s.profile
            && t.phase == if s.phase == Active && gap > s.profile.idle then Ghost
                          else if s.phase == Ghost && gap > s.profile.hard then Closed else s.phase
  {
  }

  lemma OneGapMore(gaps: seq<real>, last: real, idle: real, hard: real)
    ensures WentIdle(gaps + [last], idle) <==> WentIdle(gaps, idle) || last > idle
    ensures WentHard(gaps + [last], idle, hard) <==>
            WentHard(gaps, idle, hard) || (WentIdle(gaps, idle) && last > hard)
    ensures WentHard(gaps, idle, hard) ==> WentIdle(gaps, idle)
  {
    var more := gaps + [last];
    assert more[|gaps|] == last;
    assert forall i :: 0 <= i < |gaps| ==> more[i] == gaps[i];
    if WentIdle(gaps, idle) {
      var i :| 0 <= i < |gaps| && gaps[i] > idle;
      assert more[i] > idle;
    }
    if WentHard(gaps, idle, hard) {
      var i, j :| 0 <= i < j < |gaps| && gaps[i] > idle && gaps[j] > hard;
      assert more[i] > idle && more[j] > hard;
    }
  }

  // ---------------------------------------------------------------- the estimates

  predicate IsRate(x: real) {
    0.0 <= x <= 1.0
  }

  predicate Sound(e: Estimate) {
    0.0 < e.alpha < 1.0 && IsRate(e.pd) && IsRate(e.pr) && IsRate(e.q) && e.pr + e.q <= 1.0
  }

  lemma NonNegative(a: real, b: real)
    requires a >= 0.0 && b >= 0.0
    ensures a * b >= 0.0
  {
  }

  lemma Complement(a: real, b: real)
    ensures a * (1.0 - b) == a - a * b
  {
  }

  lemma BlendKeepsRate(alpha: real, observed: real, x: real)
    requires 0.0 < alpha < 1.0 && IsRate(observed) && IsRate(x)
    ensures IsRate(Blend(alpha, observed, x))
    ensures 1.0 - Blend(alpha, observed, x) == alpha * (1.0 - observed) + (1.0 - alpha) * (1.0 - x)
  {
    NonNegative(alpha, observed);
    NonNegative(alpha, 1.0 - observed);
    NonNegative(1.0 - alpha, x);
    NonNegative(1.0 - alpha, 1.0 - x);
    Complement(alpha, observed);
    Complement(1.0 - alpha, x);
  }

  lemma BlendTogether(alpha: real, pr: real, q: real, a: real, b: real)
    requires a + b == 1.0
    ensures 1.0 - (Blend(alpha, a, pr) + Blend(alpha, b, q)) == (1.0 - alpha) * (1.0 - (pr + q))
  {
    assert alpha * a + alpha * b == alpha * (a + b);
  }

  function OutGap(e: Estimate): real {
    1.0 - (e.pr + e.q)
  }

  function DownGap(e: Estimate): real {
    1.0 - e.pd
  }

  lemma WentDown(e: Estimate)
    requires Sound(e)
    ensures IsRate(Blend(e.alpha, 1.0, e.pd)) && 1.0 - Blend(e.alpha, 1.0, e.pd) == (1.0 - e.alpha) * DownGap(e)
  {
    BlendKeepsRate(e.alpha, 1.0, e.pd);
  }

  lemma CameOut(e: Estimate, up: real, closed: real)
    requires Sound(e) && IsRate(up) && IsRate(closed) && up + closed == 1.0
    ensures IsRate(Blend(e.alpha, up, e.pr)) && IsRate(Blend(e.alpha, closed, e.q))
    ensures 1.0 - (Blend(e.alpha, up, e.pr) + Blend(e.alpha, closed, e.q)) == (1.0 - e.alpha) * OutGap(e) >= 0.0
  {
    BlendKeepsRate(e.alpha, up, e.pr);
    BlendKeepsRate(e.alpha, closed, e.q);
    BlendTogether(e.alpha, e.pr, e.q, up, closed);
    NonNegative(1.0 - e.alpha, OutGap(e));
  }

  /** One edge shrinks the gap it informs by the factor 1 - alpha and leaves the other alone. */
  lemma LearnShrinks(e: Estimate, source: Phase, target: Phase)
    requires Sound(e) && Edge(source, target)
    ensures Sound(Learn(e, source, target)) && Learn(e, source, target).alpha == e.alpha
    ensures OutGap(Learn(e, source, target)) == if source == Ghost then (1.0 - e.alpha) * OutGap(e) else OutGap(e)
    ensures DownGap(Learn(e, source, target)) == if source == Active then (1.0 - e.alpha) * DownGap(e) else DownGap(e)
  {
    if source == Active {
      WentDown(e);
    } else if source == Ghost && target == Active {
      CameOut(e, 1.0, 0.0);
    } else if source == Ghost {
      CameOut(e, 0.0, 1.0);
    }
  }

  lemma PriorIsSound(network: NetworkType)
    ensures Sound(Prior(ProfileOf(network)))
  {
  }

  /** A gap after n exits. */
  predicate Geometric(gap: real, first: real, factor: real, n: nat) {
    gap == Pow(factor, n) * first
  }

  lemma GeometricStep(gap: real, first: real, factor: real, n: nat)
    requires Geometric(gap, first, factor, n)
    ensures Geometric(factor * gap, first, factor, n + 1)
  {
    var p := Pow(factor, n);
    assert factor * (p * first) == (factor * p) * first;
  }

  /** The estimate after g exits from GHOST and a exits from ACTIVE. */
  predicate Shrunk(e: Estimate, prior: Estimate, g: nat, a: nat) {
    && Sound(e) && e.alpha == prior.alpha
    && Geometric(OutGap(e), OutGap(prior), 1.0 - prior.alpha, g)
    && Geometric(DownGap(e), DownGap(prior), 1.0 - prior.alpha, a)
  }

  lemma ShrinksOut(e: Estimate, prior: Estimate, g: nat, a: nat, target: Phase)
    requires Shrunk(e, prior, g, a) && Edge(Ghost, target)
    ensures Shrunk(Learn(e, Ghost, target), prior, g + 1, a)
  {
    LearnShrinks(e, Ghost, target);
    GeometricStep(OutGap(e), OutGap(prior), 1.0 - prior.alpha, g);
  }

  lemma ShrinksDown(e: Estimate, prior: Estimate, g: nat, a: nat, target: Phase)
    requires Shrunk(e, prior, g, a) && Edge(Active, target)
    ensures Shrunk(Learn(e, Active, target), prior, g, a + 1)
  {
    LearnShrinks(e, Active, target);
    GeometricStep(DownGap(e), DownGap(prior), 1.0 - prior.alpha, a);
  }

  function Exits(ts: seq<Transition>, source: Phase): nat {
    if ts == [] then 0
    else Exits(ts[..|ts| - 1], source) + if ts[|ts| - 1].source == source then 1 else 0
  }

  /** The estimates stay probabilities, and the gaps shrink geometrically: by exactly (1 - alpha) for each exit from
      GHOST, and for each exit from ACTIVE, with the alpha of the first profile, even when the network changes. */
  lemma {:induction false} EstimatorLaw(network: NetworkType, heard: real, entered: real, events: seq<Event>)
    ensures var s := RunFrom(network, heard, entered, events);
            Shrunk(s.main, Prior(ProfileOf(network)), Exits(s.transitions, Ghost), Exits(s.transitions, Active))
  {
    if events == [] {
      PriorIsSound(network);
    } else {
      EstimatorLaw(network, heard, entered, Front(events));
      LastStep(network, heard, entered, events);
      var s, t := RunFrom(network, heard, entered, Front(events)), RunFrom(network, heard, entered, events);
      if Follows(s, t) {
        var g, a := Exits(s.transitions, Ghost), Exits(s.transitions, Active);
        if s.phase == Ghost {
          ShrinksOut(s.main, Prior(ProfileOf(network)), g, a, t.phase);
        } else if s.phase == Active {
          ShrinksDown(s.main, Prior(ProfileOf(network)), g, a, t.phase);
        }
      }
    }
  }

  /** For any profile: a rate starts at 1 / limit, cut off at 1. */
  lemma PriorExactly(p: Profile)
    requires p.idle > 0.0 && p.hard > 0.0
    ensures var e := Prior(p);
            && e.alpha == p.alpha && 0.0 < e.pd <= 1.0 && 0.0 < e.q <= 1.0
            && e.pd * p.idle <= 1.0 && (e.pd == 1.0 || e.pd * p.idle == 1.0)
            && e.q * p.hard <= 1.0 && (e.q == 1.0 || e.q * p.hard == 1.0)
            && e.actives == e.activeToGhost == e.ghosts == e.ghostToActive == e.ghostToClosed == 0
  {
    Inverse(p.idle);
    Inverse(p.hard);
  }

  lemma Inverse(x: real)
    requires x > 0.0
    ensures 1.0 / x > 0.0 && 1.0 / x * x == 1.0 && (1.0 / x > 1.0 ==> x < 1.0)
  {
    var y := 1.0 / x;
    assert y * x == 1.0;
    if y <= 0.0 {
      NonNegative(-y, x);
      assert false;
    }
    if y > 1.0 && x >= 1.0 {
      NonNegative(y - 1.0, x);
      NonNegative(x - 1.0, y - 1.0);
    }
  }

  /** For any transition the estimator is told: only the phase left is informed; p_d moves towards 1 on a drop to GHOST
      and towards 0 otherwise. */
  lemma LearnExactly(e: Estimate, source: Phase, target: Phase)
    ensures var t, keep := Learn(e, source, target), 1.0 - e.alpha;
            && t.alpha == e.alpha
            && (source != Active ==> t.pd == e.pd)
            && (source == Active ==> t.pd == keep * e.pd + if target == Ghost then e.alpha else 0.0)
            && (source != Ghost || target == Connecting || target == Ghost ==> t.pr == e.pr && t.q == e.q)
            && t.actives == e.actives + (if source == Active then 1 else 0)
            && t.ghosts == e.ghosts + (if source == Ghost then 1 else 0)
            && t.activeToGhost == e.activeToGhost + (if source == Active && target == Ghost then 1 else 0)
            && t.ghostToActive == e.ghostToActive + (if source == Ghost && target == Active then 1 else 0)
            && t.ghostToClosed == e.ghostToClosed + (if source == Ghost && target == Closed then 1 else 0)
  {
  }

  // ---------------------------------------------------------------- each rate by itself

  /** What is left of a quantity after `n` steps that each keep the same part of it. */
  function Left(first: real, keep: real, n: nat): real {
    Pow(keep, n) * first
  }

  lemma LeftStep(first: real, keep: real, n: nat)
    ensures keep * Left(first, keep, n) == Left(first, keep, n + 1) && Left(first, keep, 0) == first
  {
    var p := Pow(keep, n);
    assert keep * (p * first) == (keep * p) * first;
  }

  /** What the rates are after `down` drops from ACTIVE to GHOST, `woken` returns, and perhaps the end: `pd` and `pr`
      rise towards 1, `q` falls towards 0, and the end turns both of the latter round once. */
  predicate Rates(e: Estimate, p: Profile, down: nat, woken: nat, ended: bool)
    requires p.idle > 0.0 && p.hard > 0.0
  {
    var keep := 1.0 - p.alpha;
    var backs, endings := 1.0 - Left(0.2, keep, woken), Left(1.0 / p.hard, keep, woken);
    && e.alpha == p.alpha
    && e.pd == 1.0 - Left(1.0 - 1.0 / p.idle, keep, down)
    && e.pr == (if ended then keep * backs else backs)
    && e.q == (if ended then p.alpha + keep * endings else endings)
  }

  lemma RatesAtStart(network: NetworkType)
    ensures Rates(Prior(ProfileOf(network)), ProfileOf(network), 0, 0, false)
  {
    var p := ProfileOf(network);
    LeftStep(0.2, 1.0 - p.alpha, 0);
    LeftStep(1.0 / p.hard, 1.0 - p.alpha, 0);
    LeftStep(1.0 - 1.0 / p.idle, 1.0 - p.alpha, 0);
    hide Left;
  }

  lemma RatesDown(e: Estimate, p: Profile, down: nat, woken: nat)
    requires p.idle > 0.0 && p.hard > 0.0 && Rates(e, p, down, woken, false)
    ensures Rates(Learn(e, Active, Ghost), p, down + 1, woken, false)
  {
    hide Left;
    LeftStep(1.0 - 1.0 / p.idle, 1.0 - p.alpha, down);
    BlendOne(p.alpha, Left(1.0 - 1.0 / p.idle, 1.0 - p.alpha, down));
  }

  lemma RatesWoken(e: Estimate, p: Profile, down: nat, woken: nat)
    requires p.idle > 0.0 && p.hard > 0.0 && Rates(e, p, down, woken, false)
    ensures Rates(Learn(e, Ghost, Active), p, down, woken + 1, false)
  {
    hide Left;
    LeftStep(0.2, 1.0 - p.alpha, woken);
    LeftStep(1.0 / p.hard, 1.0 - p.alpha, woken);
    BlendOne(p.alpha, Left(0.2, 1.0 - p.alpha, woken));
    BlendZero(p.alpha, Left(1.0 / p.hard, 1.0 - p.alpha, woken));
  }

  lemma RatesEnded(e: Estimate, p: Profile, down: nat, woken: nat)
    requires p.idle > 0.0 && p.hard > 0.0 && Rates(e, p, down, woken, false)
    ensures Rates(Learn(e, Ghost, Closed), p, down, woken, true)
  {
    hide Left;
    BlendZero(p.alpha, e.pr);
    BlendOne(p.alpha, 1.0 - e.q);
  }

  lemma BlendOne(alpha: real, rest: real)
    ensures Blend(alpha, 1.0, 1.0 - rest) == 1.0 - (1.0 - alpha) * rest == alpha + (1.0 - alpha) * (1.0 - rest)
  {
  }

  lemma BlendZero(alpha: real, current: real)
    ensures Blend(alpha, 0.0, current) == (1.0 - alpha) * current
  {
  }

  lemma RatesStep(e: Estimate, p: Profile, down: nat, woken: nat, source: Phase, target: Phase)
    requires p.idle > 0.0 && p.hard > 0.0 && Rates(e, p, down, woken, false) && Edge(source, target)
    ensures source == Active ==> Rates(Learn(e, source, target), p, down + 1, woken, false)
    ensures source == Ghost && target == Active ==> Rates(Learn(e, source, target), p, down, woken + 1, false)
    ensures source == Ghost && target == Closed ==> Rates(Learn(e, source, target), p, down, woken, true)
    ensures source == Connecting ==> Learn(e, source, target) == e
  {
    hide Rates;
    RatesDown(e, p, down, woken);
    RatesWoken(e, p, down, woken);
    RatesEnded(e, p, down, woken);
  }

  /** In every run each rate is the one its own transitions give, from 1 / idle, 0.8 and 1 / hard on: a return to
      ACTIVE raises the rate of returns and lowers the rate of endings, and CLOSED does the opposite. */
  lemma {:induction false} RatesLaw(network: NetworkType, heard: real, entered: real, events: seq<Event>)
    ensures var s, p := RunFrom(network, heard, entered, events), ProfileOf(network);
            p.idle > 0.0 && p.hard > 0.0 &&
            Rates(s.main, p, Count(s.transitions, Active, Ghost), Count(s.transitions, Ghost, Active),
                  s.phase == Closed)
  {
    hide Rates, Learn, ProfileOf, Follows, Step;
    ProfilesArePositive(network);
    if events == [] {
      RatesAtStart(network);
    } else {
      RatesLaw(network, heard, entered, Front(events));
      LastStep(network, heard, entered, events);
      var s, t := RunFrom(network, heard, entered, Front(events)), RunFrom(network, heard, entered, events);
      if Follows(s, t) {
        RatesFollow(s, t, ProfileOf(network));
      }
    }
  }

  lemma RatesFollow(s: Session, t: Session, p: Profile)
    requires p.idle > 0.0 && p.hard > 0.0 && Follows(s, t)
    requires Rates(s.main, p, Count(s.transitions, Active, Ghost), Count(s.transitions, Ghost, Active),
                   s.phase == Closed)
    ensures Rates(t.main, p, Count(t.transitions, Active, Ghost), Count(t.transitions, Ghost, Active),
                  t.phase == Closed)
  {
    CountsOneMore(s, t);
    hide Rates, Learn, Count;
    RatesStep(s.main, p, Count(s.transitions, Active, Ghost), Count(s.transitions, Ghost, Active), s.phase, t.phase);
  }

  lemma ProfilesArePositive(network: NetworkType)
    ensures ProfileOf(network).idle > 0.0 && ProfileOf(network).hard > 0.0
  {
  }

  lemma CountsOneMore(s: Session, t: Session)
    requires Follows(s, t)
    ensures forall a, b :: Count(t.transitions, a, b) ==
                           Count(s.transitions, a, b) + if s.phase == a && t.phase == b then 1 else 0
  {
  }

  // ---------------------------------------------------------------- data

  /** Data brings any session that has not ended to ACTIVE, at the time it came; a move is recorded with the first
      reading of the clock. */
  lemma DataWakes(s: Session, now: real, clock: Readings)
    ensures var t := Step(s, Data(now, clock));
            && t.phase == (if s.phase == Closed then Closed else Active) && t.lastData == now && t.profile == s.profile
            && |t.transitions| == |s.transitions| + (if t.phase == s.phase then 0 else 1)
            && (t.phase != s.phase ==> t.transitions[|s.transitions|].at == clock.stamp)
  {
  }

  /** Whatever came before: from the last data on, with ticks only, the phase depends on the gaps alone, unless the
      session had ended before. */
  lemma AfterData(network: NetworkType, heard: real, entered: real, events: seq<Event>, now: real, clock: Readings,
      gaps: seq<real>, clocks: seq<Readings>)
    requires |clocks| == |gaps|
    ensures var before, data := RunFrom(network, heard, entered, events), events + [Data(now, clock)];
            var woken := RunFrom(network, heard, entered, data);
            Run(woken, Ticks(now, gaps, clocks)).phase ==
            if before.phase == Closed then Closed else PhaseAfter(gaps, before.profile.idle, before.profile.hard)
  {
    var before, data := RunFrom(network, heard, entered, events), events + [Data(now, clock)];
    assert Front(data) == events;
    DataWakes(before, now, clock);
    var woken := RunFrom(network, heard, entered, data);
    if before.phase == Closed {
      ClosedIsFinal(woken, Ticks(now, gaps, clocks));
    } else {
      SilenceLaw(woken, gaps, clocks);
    }
  }
}
