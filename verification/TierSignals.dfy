/**
 What the tier machine's inputs mean (delivery/tier.go): which measurements make which band,
 what a silence is, what an override does, and what a run of reports leads to.
 */
module TierSignals {
  import opened Domain
  import opened TierMachines
  import opened TierHistory

  // ----- measurements

  /** Either measure alone at its limit is enough for the worst band, whatever the other is;
      below both of those, either alone at its own limit is enough for the middle one. */
  lemma {:induction false} BandsExactly(th: Thresholds, rtt: real, jitter: real)
    ensures Classify(th, rtt, jitter) == MinimalBand <==> rtt >= th.minimalMinRTT || jitter >= th.minimalMinJitter
    ensures rtt < th.minimalMinRTT && jitter < th.minimalMinJitter ==>
      (Classify(th, rtt, jitter) == DegradedBand <==> rtt >= th.fullMaxRTT || jitter >= th.fullMaxJitter)
    ensures th.fullMaxRTT <= th.minimalMinRTT && th.fullMaxJitter <= th.minimalMinJitter ==>
      (Classify(th, rtt, jitter) == Good <==> rtt < th.fullMaxRTT && jitter < th.fullMaxJitter)
  {
  }

  function Badness(b: Band): int {
    match b case Good => 0 case DegradedBand => 1 case MinimalBand => 2
  }

  /** A worse measurement never gives a better band, in whatever order the limits are. */
  lemma {:induction false} WorseIsNoBetter(th: Thresholds, rtt: real, jitter: real, rtt': real, jitter': real)
    requires rtt <= rtt' && jitter <= jitter'
    ensures Badness(Classify(th, rtt, jitter)) <= Badness(Classify(th, rtt', jitter'))
  {
  }

  /** One health report. */
  datatype Measure = Measure(rtt: real, jitter: real)

  function Measured(th: Thresholds, measures: seq<Measure>): seq<Event> {
    if measures == [] then []
    else
      var n := |measures| - 1;
      Measured(th, measures[..n]) + [Report(Classify(th, measures[n].rtt, measures[n].jitter))]
  }

  lemma {:induction false} OneMoreMeasure(s: State, th: Thresholds, measures: seq<Measure>)
    requires measures != []
    ensures var n := |measures| - 1;
      Run(s, Measured(th, measures), th).auto
      == ObserveAuto(Run(s, Measured(th, measures[..n]), th).auto,
                     Classify(th, measures[n].rtt, measures[n].jitter), th)
  {
    var before := Measured(th, measures[..|measures| - 1]);
    assert Measured(th, measures)[..|before|] == before;
  }

  ghost predicate AllSlow(th: Thresholds, measures: seq<Measure>) {
    forall i :: 0 <= i < |measures| ==>
      measures[i].rtt >= th.minimalMinRTT || measures[i].jitter >= th.minimalMinJitter
  }

  /** After `n` slow reports from DEGRADED: MINIMAL, or still DEGRADED with all of them counted. */
  lemma {:induction false} SlowReportsCount(s: State, th: Thresholds, measures: seq<Measure>)
    requires s.auto.tier.Degraded? && 1 <= th.degradeStreak && 1 <= th.recoverStreak && AllSlow(th, measures)
    ensures var a, n := Run(s, Measured(th, measures), th).auto, |measures|;
      if a.tier.Minimal? then n > 0 && a.recovery == 0
      else a.tier.Degraded? && (n > 0 ==> a.minimal >= (if n <= CAP then n else CAP) && a.minimal < th.degradeStreak)
  {
    if measures != [] {
      var n := |measures| - 1;
      assert AllSlow(th, measures[..n]) by {
        assert forall i :: 0 <= i < n ==> measures[..n][i] == measures[i];
      }
      SlowReportsCount(s, th, measures[..n]);
      OneMoreMeasure(s, th, measures);
      SlowReport(Run(s, Measured(th, measures[..n]), th).auto, th);
    }
  }

  lemma {:induction false} SlowReport(a: Auto, th: Thresholds)
    requires 1 <= th.degradeStreak && 1 <= th.recoverStreak
    ensures var c := ObserveAuto(a, MinimalBand, th);
      && (a.tier.Minimal? ==> c.tier.Minimal? && c.recovery == 0)
      && (a.tier.Degraded? ==>
            && c.minimal == Bump(a.minimal, true) && c.recovery == 0
            && c.tier == if c.minimal >= th.degradeStreak then Minimal else Degraded)
  {
  }

  /** A DEGRADED client that is slow `degradeStreak` reports in a row is MINIMAL, by either
      measure, and may change measure from one report to the next. */
  lemma {:induction false} SlowClientIsMinimal(s: State, th: Thresholds, measures: seq<Measure>)
    requires s.auto.tier.Degraded? && 1 <= th.degradeStreak <= CAP && 1 <= th.recoverStreak
    requires AllSlow(th, measures) && |measures| >= th.degradeStreak
    ensures Run(s, Measured(th, measures), th).auto.tier == Minimal
  {
    SlowReportsCount(s, th, measures);
  }

  ghost predicate NoneGood(th: Thresholds, measures: seq<Measure>) {
    forall i :: 0 <= i < |measures| ==> Classify(th, measures[i].rtt, measures[i].jitter) != Good
  }

  lemma {:induction false} BadReport(a: Auto, b: Band, th: Thresholds)
    requires 1 <= th.recoverStreak && !b.Good?
    ensures var c := ObserveAuto(a, b, th);
      && c.good == 0 && c.bad == Bump(a.bad, true)
      && (a.tier.Full? ==> c.tier == if c.bad >= th.degradeStreak then Degraded else Full)
      && (!a.tier.Full? ==> !c.tier.Full?)
  {
  }

  /** No client stays at FULL through `degradeStreak` reports in a row that are not GOOD. */
  lemma {:induction false} BadClientIsNotFull(s: State, th: Thresholds, measures: seq<Measure>)
    requires 1 <= th.degradeStreak <= CAP && 1 <= th.recoverStreak && NoneGood(th, measures)
    ensures var a, n := Run(s, Measured(th, measures), th).auto, |measures|;
      && (n > 0 ==> a.bad >= if n <= CAP then n else CAP)
      && (n >= th.degradeStreak ==> !a.tier.Full?)
  {
    if measures != [] {
      var n := |measures| - 1;
      assert NoneGood(th, measures[..n]) by {
        assert forall i :: 0 <= i < n ==> measures[..n][i] == measures[i];
      }
      BadClientIsNotFull(s, th, measures[..n]);
      OneMoreMeasure(s, th, measures);
      BadReport(Run(s, Measured(th, measures[..n]), th).auto, Classify(th, measures[n].rtt, measures[n].jitter), th);
    }
  }

  // ----- silence

  /** The first limit of a silence costs one tier, and never two; the second takes everything. */
  lemma {:induction false} SilenceCosts(a: Auto, age: int, th: Thresholds)
    ensures var c := MissingAuto(a, age, th);
      && (age >= th.reportDegrade ==> Rank(c.tier) == 0 && c.watchdog)
      && (th.reportHold <= age < th.reportDegrade && !a.watchdog ==>
            Rank(c.tier) == (if Rank(a.tier) > 0 then Rank(a.tier) - 1 else 0) && c.watchdog)
      && (age < th.reportDegrade && (age < th.reportHold || a.watchdog) ==> c == a)
      && (c.tier != a.tier ==> c.good == c.bad == c.minimal == c.recovery == 0)
  {
  }

  /** The age of a report is the time since it, and a clock behind it makes it zero. */
  lemma {:induction false} AgeIsTimeSince(at: int, now: int)
    ensures AgeOf(Some(at), now) >= 0
    ensures now >= at ==> AgeOf(Some(at), now) == now - at
    ensures now < at ==> AgeOf(Some(at), now) == 0
    ensures AgeOf(None, now) == 0
  {
  }

  function Ages(at: int, times: seq<int>): seq<int> {
    seq(|times|, i requires 0 <= i < |times| => AgeOf(Some(at), times[i]))
  }

  /** So a client that has reported and then falls silent is seen: `reportHold` after its last
      report it has lost a tier, and `reportDegrade` after it, however often it was looked at
      before, it is at MINIMAL. */
  lemma {:induction false} SilenceIsSeen(s: State, at: int, times: seq<int>, th: Thresholds)
    requires !s.auto.watchdog && 0 < th.reportHold <= th.reportDegrade && times != []
    requires forall i :: 0 <= i < |times| ==> times[i] <= times[|times| - 1]
    ensures var r, silent := Run(s, Silences(Ages(at, times)), th).auto, times[|times| - 1] - at;
      && (silent >= th.reportDegrade ==> r.tier == Minimal)
      && (th.reportHold <= silent < th.reportDegrade ==>
            Rank(r.tier) == if Rank(s.auto.tier) > 0 then Rank(s.auto.tier) - 1 else 0)
      && (silent < th.reportHold ==> r.tier == s.auto.tier)
  {
    var ages, n := Ages(at, times), |times| - 1;
    SilenceClosedForm(s, ages, th);
    assert ages[n] == AgeOf(Some(at), times[n]);
    assert forall i :: 0 <= i < |ages| ==> ages[i] <= ages[n];
    ReachedByLast(ages, th.reportHold);
    ReachedByLast(ages, th.reportDegrade);
  }

  lemma {:induction false} ReachedByLast(ages: seq<int>, limit: int)
    requires ages != [] && forall i :: 0 <= i < |ages| ==> ages[i] <= ages[|ages| - 1]
    ensures Reaches(ages, limit) <==> ages[|ages| - 1] >= limit
  {
  }

  // ----- overrides

  ghost predicate NoneLifts(events: seq<Event>) {
    forall i :: 0 <= i < |events| ==> events[i].Report? || events[i].Silence?
  }

  lemma {:induction false} ForcedStays(s: State, t: Tier, events: seq<Event>, th: Thresholds)
    requires s.override == Some(t) && s.tier == t && NoneLifts(events)
    ensures var r := Run(s, events, th); r.override == Some(t) && r.tier == t
  {
    if events != [] {
      var n := |events| - 1;
      assert NoneLifts(events[..n]) by {
        assert forall i :: 0 <= i < n ==> events[..n][i] == events[i];
      }
      ForcedStays(s, t, events[..n], th);
    }
  }

  /** A forced tier is delivered whatever is reported or missing, until it is lifted; then the
      tier the reports have earned meanwhile is. A reconnection lifts it too, and starts at
      FULL with every streak at zero. */
  lemma {:induction false} ForcedUntilLifted(s: State, t: Tier, events: seq<Event>, th: Thresholds)
    requires NoneLifts(events)
    ensures var forced := Next(s, Force(t), th);
            var r := Run(forced, events, th);
      && r.tier == t
      && Next(r, Clear, th).tier == r.auto.tier == Run(s, events, th).auto.tier
      && Next(r, Clear, th).override == None
      && Next(r, Reconnect, th).tier == Full && Next(r, Reconnect, th).override == None
      && Next(r, Reconnect, th).auto == FRESH.auto.(watchdog := r.auto.watchdog)
  {
    ForcedStays(Next(s, Force(t), th), t, events, th);
    SameAutomatic(s, Next(s, Force(t), th), events, th);
  }

  lemma {:induction false} SameAutomatic(s: State, s': State, events: seq<Event>, th: Thresholds)
    requires s.auto == s'.auto && NoneLifts(events)
    ensures Run(s, events, th).auto == Run(s', events, th).auto
  {
    if events != [] {
      var n := |events| - 1;
      assert NoneLifts(events[..n]) by {
        assert forall i :: 0 <= i < n ==> events[..n][i] == events[i];
      }
      SameAutomatic(s, s', events[..n], th);
      assert !events[n].Reconnect?;
    }
  }

  // ----- reasons

  /** The reason says which way the tier last moved and on what: down on a report, high round
      trips or, from the worst band, high jitter; up, recovery or, at FULL, good health; on a
      silence, missing reports. A report that moves nothing leaves it. */
  lemma {:induction false} ReasonOfMove(s: State, e: Event, th: Thresholds)
    requires e.Report? || e.Silence?
    ensures var r, t := Next(s, e, th), Next(s, e, th).auto.tier;
      && (t == s.auto.tier ==> r.reason == s.reason)
      && (t != s.auto.tier && e.Silence? ==> r.reason == MissingReports)
      && (e.Report? && Rank(t) < Rank(s.auto.tier) ==> r.reason == if e.band.MinimalBand? then HighJitter else HighRTT)
      && (e.Report? && Rank(t) > Rank(s.auto.tier) ==> r.reason == if t.Full? then GoodHealth else Recovery)
  {
  }
}
