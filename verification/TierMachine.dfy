/**
 delivery/tier.go: the adaptive delivery state machine, as a value and as the class that
 updates it in place.
 */
module TierMachines {

  import opened Domain

  datatype Tier = Full | Degraded | Minimal
  datatype Band = Good | DegradedBand | MinimalBand
  datatype Reason = GoodHealth | HighRTT | HighJitter | MissingReports | ForcedOverride | Recovery | Initial

  datatype Thresholds = Thresholds(
    fullMaxRTT: real, fullMaxJitter: real, minimalMinRTT: real, minimalMinJitter: real,
    degradeStreak: int, recoverStreak: int, reportHold: int, reportDegrade: int)

  function Classify(th: Thresholds, rtt: real, jitter: real): Band {
    if rtt >= th.minimalMinRTT || jitter >= th.minimalMinJitter then MinimalBand
    else if rtt >= th.fullMaxRTT || jitter >= th.fullMaxJitter then DegradedBand
    else Good
  }

  function Rank(t: Tier): int {
    match t case Full => 2 case Degraded => 1 case Minimal => 0
  }

  function OneStepDown(t: Tier): Tier {
    if t.Full? then Degraded else Minimal
  }

  function BandReason(b: Band): Reason {
    if b.MinimalBand? then HighJitter else HighRTT
  }

  const CAP := 16

  function Bump(streak: nat, counts: bool): nat {
    if !counts then 0 else if streak + 1 > CAP then CAP else streak + 1
  }

  /** The automatic part: what the health reports drive. */
  datatype Auto = Auto(tier: Tier, good: nat, bad: nat, minimal: nat, recovery: nat, watchdog: bool)

  datatype State = State(auto: Auto, tier: Tier, override: Option<Tier>, reason: Reason)

  const FRESH := State(Auto(Full, 0, 0, 0, 0, false), Full, None, Initial)

  function Counted(a: Auto, b: Band): Auto {
    a.(good := Bump(a.good, b.Good?), minimal := Bump(a.minimal, b.MinimalBand?),
       bad := Bump(a.bad, !b.Good?), recovery := Bump(a.recovery, !b.MinimalBand?), watchdog := false)
  }

  /** The tier the streaks call for. */
  function Decide(a: Auto, th: Thresholds): Tier {
    match a.tier
    case Full => if a.bad >= th.degradeStreak then Degraded else Full
    case Degraded =>
      if a.minimal >= th.degradeStreak then Minimal
      else if a.good >= th.recoverStreak then Full
      else Degraded
    case Minimal => if a.recovery >= th.recoverStreak then Degraded else Minimal
  }

  function ObserveAuto(a: Auto, b: Band, th: Thresholds): Auto {
    var c := Counted(a, b);
    c.(tier := Decide(c, th))
  }

  function ReasonAfter(old_: Tier, next: Tier, b: Band, reason: Reason): Reason {
    if next == old_ then reason
    else if Rank(next) < Rank(old_) then BandReason(b)
    else if next.Full? then GoodHealth
    else Recovery
  }

  function MissingAuto(a: Auto, age: int, th: Thresholds): Auto {
    if age >= th.reportDegrade then Dropped(a, Minimal)
    else if age >= th.reportHold && !a.watchdog then Dropped(a, OneStepDown(a.tier))
    else a
  }

  /** A drop that changes nothing leaves the streaks alone. */
  function Dropped(a: Auto, target: Tier): Auto {
    if target == a.tier then a.(watchdog := true) else Auto(target, 0, 0, 0, 0, true)
  }

  datatype Event =
    | Report(band: Band)
    | Silence(age: int)
    | Force(tier: Tier)
    | Clear
    | Reconnect

  function Effective(s: State): Tier {
    if s.override.Some? then s.override.value else s.auto.tier
  }

  function Next(s: State, e: Event, th: Thresholds): State {
    match e
    case Report(b) =>
      var a := ObserveAuto(s.auto, b, th);
      State(a, if s.override.Some? then s.tier else a.tier, s.override, ReasonAfter(s.auto.tier, a.tier, b, s.reason))
    case Silence(age) =>
      var a := MissingAuto(s.auto, age, th);
      if a.tier == s.auto.tier then s.(auto := a)
      else State(a, if s.override.Some? then s.tier else a.tier, s.override, MissingReports)
    case Force(tier) => s.(override := Some(tier), tier := tier, reason := ForcedOverride)
    case Clear => if s.override.None? then s else State(s.auto, s.auto.tier, None, Recovery)
    case Reconnect => State(Auto(Full, 0, 0, 0, 0, s.auto.watchdog), Full, None, Initial)
  }

  datatype Transition = Transition(from: Tier, to: Tier, changed: bool)

  class TierMachine {
    const th: Thresholds
    var autoTier: Tier
    var tier: Tier
    var override: Option<Tier>
    var goodStreak: nat
    var badStreak: nat
    var minimalStreak: nat
    var recoveryStreak: nat
    var watchdogApplied: bool
    var reason: Reason

    ghost function Automatic(): Auto
      reads this
    {
      Auto(autoTier, goodStreak, badStreak, minimalStreak, recoveryStreak, watchdogApplied)
    }

    ghost function State_(): State
      reads this
    {
      State(Automatic(), tier, override, reason)
    }

    /** The effective tier is the override, or else the automatic tier. */
    ghost predicate Coherent()
      reads this
    {
      tier == Effective(State_())
    }

    /** What a method reports is exactly how the effective tier moved. */
    twostate predicate Reports(tr: Transition)
      reads this
    {
      tr == Transition(old(tier), tier, old(tier) != tier)
    }

    constructor (th: Thresholds)
      ensures this.th == th && State_() == FRESH && Coherent()
    {
      this.th := th;
      autoTier, tier, override, reason := Full, Full, None, Initial;
      goodStreak, badStreak, minimalStreak, recoveryStreak := 0, 0, 0, 0;
      watchdogApplied := false;
    }

    method Observe(rtt: real, jitter: real) returns (tr: Transition)
      requires Coherent()
      modifies this
      ensures Coherent() && State_() == Next(old(State_()), Report(Classify(th, rtt, jitter)), th) && Reports(tr)
    {
      var band := Classify(th, rtt, jitter);
      UpdateStreaks(band);
      watchdogApplied := false;
      var next, why := autoTier, reason;
      match autoTier {
        case Full =>
          if badStreak >= th.degradeStreak {
            next, why := Degraded, BandReason(band);
          }
        case Degraded =>
          if minimalStreak >= th.degradeStreak {
            next, why := Minimal, BandReason(band);
          } else if goodStreak >= th.recoverStreak {
            next, why := Full, GoodHealth;
          }
        case Minimal =>
          if recoveryStreak >= th.recoverStreak {
            next, why := Degraded, Recovery;
          }
      }
      var changed := next != autoTier;
      autoTier := next;
      reason := why;
      if override.Some? {
        return Transition(tier, tier, false);
      }
      var previous := tier;
      tier := autoTier;
      return Transition(previous, tier, changed && previous != tier);
    }

    method UpdateStreaks(band: Band)
      modifies this`goodStreak, this`badStreak, this`minimalStreak, this`recoveryStreak
      ensures Automatic() == Counted(old(Automatic()), band).(watchdog := watchdogApplied)
    {
      if band == Good { goodStreak := goodStreak + 1; } else { goodStreak := 0; }
      if band == MinimalBand { minimalStreak := minimalStreak + 1; } else { minimalStreak := 0; }
      if band != Good { badStreak := badStreak + 1; } else { badStreak := 0; }
      if band != MinimalBand { recoveryStreak := recoveryStreak + 1; } else { recoveryStreak := 0; }
      goodStreak := if goodStreak < CAP then goodStreak else CAP;
      badStreak := if badStreak < CAP then badStreak else CAP;
      minimalStreak := if minimalStreak < CAP then minimalStreak else CAP;
      recoveryStreak := if recoveryStreak < CAP then recoveryStreak else CAP;
    }

    method OnMissingReports(age: int) returns (tr: Transition)
      requires Coherent()
      modifies this
      ensures Coherent() && State_() == Next(old(State_()), Silence(age), th) && Reports(tr)
    {
      var target;
      if age >= th.reportDegrade {
        target := Minimal;
        watchdogApplied := true;
      } else if age >= th.reportHold && !watchdogApplied {
        target := OneStepDown(autoTier);
        watchdogApplied := true;
      } else {
        return Transition(tier, tier, false);
      }
      if target == autoTier {
        return Transition(tier, tier, false);
      }
      autoTier := target;
      reason := MissingReports;
      goodStreak, badStreak, minimalStreak, recoveryStreak := 0, 0, 0, 0;
      if override.Some? {
        return Transition(tier, tier, false);
      }
      var previous := tier;
      tier := target;
      return Transition(previous, target, previous != target);
    }

    method ForceTier(to: Tier) returns (tr: Transition)
      requires Coherent()
      modifies this
      ensures Coherent() && State_() == Next(old(State_()), Force(to), th) && Reports(tr)
    {
      override := Some(to);
      var previous := tier;
      tier := to;
      reason := ForcedOverride;
      return Transition(previous, to, previous != to);
    }

    method ClearOverride() returns (tr: Transition)
      requires Coherent()
      modifies this
      ensures Coherent() && State_() == Next(old(State_()), Clear, th) && Reports(tr)
    {
      if override.None? {
        return Transition(tier, tier, false);
      }
      override := None;
      var previous := tier;
      tier := autoTier;
      reason := Recovery;
      return Transition(previous, tier, previous != tier);
    }

    /** The silence flag is not cleared here. */
    method OnReconnect() returns (tr: Transition)
      requires Coherent()
      modifies this
      ensures Coherent() && State_() == Next(old(State_()), Reconnect, th) && Reports(tr)
    {
      var previous := tier;
      override, autoTier, tier, reason := None, Full, Full, Initial;
      goodStreak, badStreak, minimalStreak, recoveryStreak := 0, 0, 0, 0;
      return Transition(previous, tier, previous != tier);
    }
  }

  /** HealthTracker: when the client last reported. */
  class HealthTracker {
    var hasReport: bool
    var lastReportAt: int

    constructor ()
      ensures !hasReport
    {
      hasReport, lastReportAt := false, 0;
    }

    method Ingest(receivedAt: int)
      modifies this
      ensures hasReport && lastReportAt == receivedAt
    {
      hasReport, lastReportAt := true, receivedAt;
    }

    /** The age the watchdog is given: never negative, and zero before any report. */
    method Age(now: int) returns (age: int)
      ensures age == AgeOf(if hasReport then Some(lastReportAt) else None, now)
    {
      age := 0;
      if hasReport {
        age := now - lastReportAt;
        if age < 0 {
          age := 0;
        }
      }
    }
  }

  function AgeOf(lastReport: Option<int>, now: int): int {
    if lastReport.Some? && now > lastReport.value then now - lastReport.value else 0
  }
}
