/** The adaptive session: four phases, and running estimates of how often they change. Arithmetic is over the
    reals; the time of each call is an input. */
module AdaptiveSessions {
  import opened Sequences

  // ---------------------------------------------------------------- values

  datatype Phase = Connecting | Active | Ghost | Closed

  datatype NetworkType = CriticalIot | StandardIot | BatchSensor | Mobile | Lan | WanChallenged

  datatype Profile = Profile(network: NetworkType, idle: real, hard: real, alpha: real)

  function ProfileOf(network: NetworkType): Profile {
    match network
    case CriticalIot => Profile(network, 5.0, 30.0, 0.2)
    case StandardIot => Profile(network, 30.0, 300.0, 0.1)
    case BatchSensor => Profile(network, 120.0, 600.0, 0.05)
    case Mobile => Profile(network, 15.0, 120.0, 0.15)
    case Lan => Profile(network, 60.0, 600.0, 0.05)
    case WanChallenged => Profile(network, 45.0, 240.0, 0.12)
  }

  datatype Transition = Transition(source: Phase, target: Phase, at: real, lasted: real)

  /** Running estimates, and the counts behind them. */
  datatype Estimate = Estimate(
    alpha: real, pd: real, pr: real, q: real,
    actives: nat, activeToGhost: nat, ghosts: nat, ghostToActive: nat, ghostToClosed: nat)

  function AtMostOne(x: real): real {
    if x <= 1.0 then x else 1.0
  }

  function Prior(p: Profile): Estimate
    requires p.idle > 0.0 && p.hard > 0.0
  {
    Estimate(p.alpha, AtMostOne(1.0 / p.idle), 0.8, AtMostOne(1.0 / p.hard), 0, 0, 0, 0, 0)
  }

  function Blend(alpha: real, observed: real, current: real): real {
    alpha * observed + (1.0 - alpha) * current
  }

  /** What one transition teaches. */
  function Learn(e: Estimate, source: Phase, target: Phase): Estimate {
    match source
    case Active =>
      var seen := if target == Ghost then 1 else 0;
      e.(actives := e.actives + 1, activeToGhost := e.activeToGhost + seen, pd := Blend(e.alpha, seen as real, e.pd))
    case Ghost =>
      var counted := e.(ghosts := e.ghosts + 1);
      (match target
       case Active =>
         counted.(ghostToActive := e.ghostToActive + 1, pr := Blend(e.alpha, 1.0, e.pr), q := Blend(e.alpha, 0.0, e.q))
       case Closed =>
         counted.(ghostToClosed := e.ghostToClosed + 1, pr := Blend(e.alpha, 0.0, e.pr), q := Blend(e.alpha, 1.0, e.q))
       case _ => counted)
    case _ => e
  }

  const MEMORY_ORDERS: nat := 5
  const HISTORY_LENGTH: nat := 20

  datatype Session = Session(
    profile: Profile, phase: Phase, lastData: real, entered: real,
    history: seq<Phase>, transitions: seq<Transition>, main: Estimate, perOrder: seq<Estimate>)

  function LearnAll(es: seq<Estimate>, source: Phase, target: Phase): (r: seq<Estimate>)
    ensures |r| == |es| && forall i :: 0 <= i < |es| ==> r[i] == Learn(es[i], source, target)
  {
    seq(|es|, i requires 0 <= i < |es| => Learn(es[i], source, target))
  }

  /** A transition reads the clock three times: for its time stamp, for its duration, and for the phase it enters. */
  datatype Readings = Readings(stamp: real, measured: real, entered: real)

  function Move(s: Session, target: Phase, clock: Readings): Session {
    s.(phase := target, entered := clock.entered,
       history := Newest(s.history + [s.phase], HISTORY_LENGTH),
       transitions := s.transitions + [Transition(s.phase, target, clock.stamp, clock.measured - s.entered)],
       main := Learn(s.main, s.phase, target),
       perOrder := LearnAll(s.perOrder, s.phase, target))
  }

  function Begin(network: NetworkType, heard: real, entered: real): Session {
    var p := ProfileOf(network);
    Session(p, Connecting, heard, entered, [], [], Prior(p), seq(MEMORY_ORDERS, i => Prior(p)))
  }

  datatype Event =
    | Data(now: real, clock: Readings)
    | Tick(now: real, clock: Readings)
    | SetNetwork(detected: NetworkType)

  function OnData(s: Session, now: real, clock: Readings): Session {
    var heard := s.(lastData := now);
    if s.phase == Ghost || s.phase == Connecting then Move(heard, Active, clock) else heard
  }

  function OnTick(s: Session, now: real, clock: Readings): Session {
    var gap := now - s.lastData;
    if s.phase == Active && gap > s.profile.idle then Move(s, Ghost, clock)
    else if s.phase == Ghost && gap > s.profile.hard then Move(s, Closed, clock)
    else s
  }

  function OnNetwork(s: Session, detected: NetworkType): Session {
    if detected != s.profile.network then s.(profile := ProfileOf(detected)) else s
  }

  function Step(s: Session, e: Event): Session {
    match e
    case Data(now, clock) => OnData(s, now, clock)
    case Tick(now, clock) => OnTick(s, now, clock)
    case SetNetwork(detected) => OnNetwork(s, detected)
  }

  function Run(s: Session, events: seq<Event>): Session {
    if events == [] then s else Step(Run(s, events[..|events| - 1]), events[|events| - 1])
  }

  // ---------------------------------------------------------------- the code

  class OnlineMarkovEstimator {
    const alpha: real
    var pd: real
    var pr: real
    var q: real
    var actives: nat
    var activeToGhost: nat
    var ghosts: nat
    var ghostToActive: nat
    var ghostToClosed: nat

    constructor (profile: Profile)
      requires profile.idle > 0.0 && profile.hard > 0.0
      ensures View() == Prior(profile)
    {
      alpha := profile.alpha;
      pd, pr, q := AtMostOne(1.0 / profile.idle), 0.8, AtMostOne(1.0 / profile.hard);
      actives, activeToGhost, ghosts, ghostToActive, ghostToClosed := 0, 0, 0, 0, 0;
    }

    ghost function View(): Estimate
      reads this
    {
      Estimate(alpha, pd, pr, q, actives, activeToGhost, ghosts, ghostToActive, ghostToClosed)
    }

    method Update(source: Phase, target: Phase)
      modifies this
      ensures View() == Learn(old(View()), source, target)
    {
      if source == Active {
        actives := actives + 1;
        var observed := 0.0;
        if target == Ghost {
          activeToGhost := activeToGhost + 1;
          observed := 1.0;
        }
        pd := alpha * observed + (1.0 - alpha) * pd;
      } else if source == Ghost {
        ghosts := ghosts + 1;
        if target == Active {
          ghostToActive := ghostToActive + 1;
          pr := alpha * 1.0 + (1.0 - alpha) * pr;
          q := alpha * 0.0 + (1.0 - alpha) * q;
        } else if target == Closed {
          ghostToClosed := ghostToClosed + 1;
          pr := alpha * 0.0 + (1.0 - alpha) * pr;
          q := alpha * 1.0 + (1.0 - alpha) * q;
        }
      }
    }
  }

  class AdaptiveGhostSession {
    var profile: Profile
    var phase: Phase
    var lastData: real
    var entered: real
    var history: seq<Phase>
    var transitions: seq<Transition>
    const estimator: OnlineMarkovEstimator
    const perOrder: seq<OnlineMarkovEstimator>

    ghost predicate Valid() {
      && estimator !in perOrder
      && forall i, j :: 0 <= i < j < |perOrder| ==> perOrder[i] != perOrder[j]
    }

    ghost function View(): Session
      reads this, estimator, perOrder
    {
      Session(profile, phase, lastData, entered, history, transitions, estimator.View(), Views(perOrder))
    }

    constructor (network: NetworkType, heard: real, entered: real)
      ensures Valid() && fresh(estimator) && (forall i :: 0 <= i < |perOrder| ==> fresh(perOrder[i]))
      ensures View() == Begin(network, heard, entered)
    {
      var p := ProfileOf(network);
      var main := new OnlineMarkovEstimator(p);
      var made: seq<OnlineMarkovEstimator> := [];
      while |made| < MEMORY_ORDERS
        invariant |made| <= MEMORY_ORDERS && main !in made && main.View() == Prior(p)
        invariant forall i :: 0 <= i < |made| ==> fresh(made[i]) && made[i].View() == Prior(p)
        invariant forall i, j :: 0 <= i < j < |made| ==> made[i] != made[j]
      {
        var next := new OnlineMarkovEstimator(p);
        made := made + [next];
      }
      profile, phase, lastData, this.entered := p, Connecting, heard, entered;
      history, transitions := [], [];
      estimator, perOrder := main, made;
    }

    method SetNetwork(detected: NetworkType)
      modifies this
      ensures View() == OnNetwork(old(View()), detected)
    {
      var next := ProfileOf(detected);
      if next.network != profile.network {
        profile := next;
      }
    }

    method OnDataReceived(now: real, clock: Readings)
      requires Valid()
      modifies this, estimator, perOrder
      ensures View() == OnData(old(View()), now, clock)
    {
      lastData := now;
      if phase == Ghost || phase == Connecting {
        MoveTo(Active, clock);
      }
    }

    method Tick(now: real, clock: Readings) returns (r: Phase)
      requires Valid()
      modifies this, estimator, perOrder
      ensures View() == OnTick(old(View()), now, clock) && r == phase
    {
      var gap := now - lastData;
      if phase == Active {
        if gap > profile.idle {
          MoveTo(Ghost, clock);
        }
      } else if phase == Ghost {
        if gap > profile.hard {
          MoveTo(Closed, clock);
        }
      }
      r := phase;
    }

    method TeachAll(source: Phase, target: Phase)
      requires Valid()
      modifies perOrder
      ensures Views(perOrder) == LearnAll(old(Views(perOrder)), source, target)
    {
      for k := 0 to |perOrder|
        invariant forall i :: 0 <= i < k ==> perOrder[i].View() == Learn(old(perOrder[i].View()), source, target)
        invariant forall i :: k <= i < |perOrder| ==> perOrder[i].View() == old(perOrder[i].View())
      {
        perOrder[k].Update(source, target);
      }
    }

    method Teach(source: Phase, target: Phase)
      requires Valid()
      modifies estimator, perOrder
      ensures estimator.View() == Learn(old(estimator.View()), source, target)
      ensures Views(perOrder) == LearnAll(old(Views(perOrder)), source, target)
    {
      hide Learn, LearnAll;
      estimator.Update(source, target);
      label Updated:
      assert Views(perOrder) == old(Views(perOrder));
      TeachAll(source, target);
      assert old@Updated(Views(perOrder)) == old(Views(perOrder));
    }

    method Record(target: Phase, clock: Readings)
      modifies this
      ensures phase == target && entered == clock.entered && profile == old(profile) && lastData == old(lastData)
      ensures history == Newest(old(history) + [old(phase)], HISTORY_LENGTH)
      ensures transitions ==
        old(transitions) + [Transition(old(phase), target, clock.stamp, clock.measured - old(entered))]
    {
      transitions := transitions + [Transition(phase, target, clock.stamp, clock.measured - entered)];
      history := history + [phase];
      if |history| > HISTORY_LENGTH {
        history := history[|history| - HISTORY_LENGTH..];
      }
      phase, entered := target, clock.entered;
    }

    method MoveTo(target: Phase, clock: Readings)
      requires Valid()
      modifies this, estimator, perOrder
      ensures View() == Move(old(View()), target, clock)
    {
      hide Learn, LearnAll, Views, Newest;
      Teach(phase, target);
      Record(target, clock);
    }
  }

  ghost function Views(es: seq<OnlineMarkovEstimator>): (r: seq<Estimate>)
    reads es
    ensures |r| == |es| && forall i :: 0 <= i < |es| ==> r[i] == es[i].View()
  {
    seq(|es|, i requires 0 <= i < |es| reads es => es[i].View())
  }
}
