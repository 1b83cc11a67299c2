/**
 What the tier machine decides, told from the history of reports.
 */
module TierHistory {
  import opened Domain
  import opened TierMachines

  // ----- streaks as suffixes of the report history

  datatype Kind = IsGood | IsBad | IsMinimal | NotMinimal

  predicate Qualifies(k: Kind, b: Band) {
    match k
    case IsGood => b.Good?
    case IsBad => !b.Good?
    case IsMinimal => b.MinimalBand?
    case NotMinimal => !b.MinimalBand?
  }

  /** The longest suffix of qualifying reports, however long. */
  function Streak(bands: seq<Band>, k: Kind): nat {
    if bands == [] || !Qualifies(k, bands[|bands| - 1]) then 0
    else 1 + Streak(bands[..|bands| - 1], k)
  }

  lemma {:induction false} StreakIsLongestSuffix(bands: seq<Band>, k: Kind)
    ensures Streak(bands, k) <= |bands|
    ensures forall i :: |bands| - Streak(bands, k) <= i < |bands| ==> Qualifies(k, bands[i])
    ensures Streak(bands, k) < |bands| ==> !Qualifies(k, bands[|bands| - 1 - Streak(bands, k)])
  {
    if bands != [] && Qualifies(k, bands[|bands| - 1]) {
      StreakIsLongestSuffix(bands[..|bands| - 1], k);
    }
  }

  /** The specification: a tier, every report since the streaks were last reset, and the flag
      of the current silence. */
  datatype History = History(tier: Tier, bands: seq<Band>, watchdog: bool)

  function DecideByHistory(h: History, th: Thresholds): Tier {
    match h.tier
    case Full => if Streak(h.bands, IsBad) >= th.degradeStreak then Degraded else Full
    case Degraded =>
      if Streak(h.bands, IsMinimal) >= th.degradeStreak then Minimal
      else if Streak(h.bands, IsGood) >= th.recoverStreak then Full
      else Degraded
    case Minimal => if Streak(h.bands, NotMinimal) >= th.recoverStreak then Degraded else Minimal
  }

  function HistoryDrop(h: History, target: Tier): History {
    if target == h.tier then h.(watchdog := true) else History(target, [], true)
  }

  function NextHistory(h: History, e: Event, th: Thresholds): History {
    match e
    case Report(b) =>
      var h1 := History(h.tier, h.bands + [b], false);
      h1.(tier := DecideByHistory(h1, th))
    case Silence(age) =>
      if age >= th.reportDegrade then HistoryDrop(h, Minimal)
      else if age >= th.reportHold && !h.watchdog then HistoryDrop(h, OneStepDown(h.tier))
      else h
    case Reconnect => History(Full, [], h.watchdog)
    case _ => h
  }

  function Run(s: State, events: seq<Event>, th: Thresholds): State {
    if events == [] then s else Next(Run(s, events[..|events| - 1], th), events[|events| - 1], th)
  }

  function RunHistory(h: History, events: seq<Event>, th: Thresholds): History {
    if events == [] then h else NextHistory(RunHistory(h, events[..|events| - 1], th), events[|events| - 1], th)
  }

  function Capped(n: nat): nat {
    if n > CAP then CAP else n
  }

  ghost predicate Counts(a: Auto, h: History) {
    && a.tier == h.tier && a.watchdog == h.watchdog
    && a.good == Capped(Streak(h.bands, IsGood)) && a.bad == Capped(Streak(h.bands, IsBad))
    && a.minimal == Capped(Streak(h.bands, IsMinimal)) && a.recovery == Capped(Streak(h.bands, NotMinimal))
  }

  lemma {:induction false} StreakAppend(bands: seq<Band>, b: Band, k: Kind)
    ensures Streak(bands + [b], k) == if Qualifies(k, b) then Streak(bands, k) + 1 else 0
  {
    assert (bands + [b])[..|bands|] == bands;
  }

  lemma {:induction false} ReportCounts(a: Auto, h: History, b: Band, th: Thresholds)
    requires Counts(a, h) && th.degradeStreak <= CAP && th.recoverStreak <= CAP
    ensures Counts(ObserveAuto(a, b, th), NextHistory(h, Report(b), th))
  {
    StreakAppend(h.bands, b, IsGood);
    StreakAppend(h.bands, b, IsBad);
    StreakAppend(h.bands, b, IsMinimal);
    StreakAppend(h.bands, b, NotMinimal);
    var counted, told := Counted(a, b), History(h.tier, h.bands + [b], false);
    assert Counts(counted, told);
    assert Decide(counted, th) == DecideByHistory(told, th);
  }

  lemma {:induction false} SilenceCounts(a: Auto, h: History, age: int, th: Thresholds)
    requires Counts(a, h)
    ensures Counts(MissingAuto(a, age, th), NextHistory(h, Silence(age), th))
  {
  }

  lemma {:induction false} StepCounts(s: State, h: History, e: Event, th: Thresholds)
    requires Counts(s.auto, h) && th.degradeStreak <= CAP && th.recoverStreak <= CAP
    ensures Counts(Next(s, e, th).auto, NextHistory(h, e, th))
  {
    match e
    case Report(b) => ReportCounts(s.auto, h, b, th);
    case Silence(age) => SilenceCounts(s.auto, h, age, th);
    case _ =>
  }

  /** With thresholds up to the cap, capping the counters never shows: over every run the
      machine is in the tier that exact streaks over the report history give. */
  lemma {:induction false} MachineFollowsHistory(events: seq<Event>, th: Thresholds)
    requires th.degradeStreak <= CAP && th.recoverStreak <= CAP
    ensures Counts(Run(FRESH, events, th).auto, RunHistory(History(Full, [], false), events, th))
  {
    if events != [] {
      var before := events[..|events| - 1];
      MachineFollowsHistory(before, th);
      StepCounts(Run(FRESH, before, th), RunHistory(History(Full, [], false), before, th), events[|events| - 1], th);
    }
  }

  ghost predicate WithinCap(a: Auto) {
    a.good <= CAP && a.bad <= CAP && a.minimal <= CAP && a.recovery <= CAP
  }

  lemma {:induction false} CountersStayCapped(events: seq<Event>, th: Thresholds)
    ensures WithinCap(Run(FRESH, events, th).auto)
  {
    if events != [] {
      CountersStayCapped(events[..|events| - 1], th);
    }
  }

  /** Above the cap a threshold is out of reach: no report ever moves the tier that way,
      whatever the history. */
  lemma {:induction false} ThresholdAboveCapIsDead(events: seq<Event>, b: Band, th: Thresholds)
    ensures var before := Run(FRESH, events, th).auto.tier;
            var after := Run(FRESH, events + [Report(b)], th).auto.tier;
      && (th.recoverStreak > CAP ==> Rank(after) <= Rank(before))
      && (th.degradeStreak > CAP ==> Rank(after) >= Rank(before))
  {
    CountersStayCapped(events, th);
    assert (events + [Report(b)])[..|events|] == events;
  }

  // ----- overrides

  function WithoutOverrides(events: seq<Event>): seq<Event> {
    if events == [] then []
    else
      var e := events[|events| - 1];
      WithoutOverrides(events[..|events| - 1]) + if e.Force? || e.Clear? then [] else [e]
  }

  /** Overrides change delivery and nothing else: deleting every one of them from a trace
      leaves the automatic tier, all streaks and the silence flag as they were. */
  lemma {:induction false} OverridesDoNotInterfere(s: State, events: seq<Event>, th: Thresholds)
    ensures Run(s, events, th).auto == Run(s, WithoutOverrides(events), th).auto
  {
    if events != [] {
      var e, before := events[|events| - 1], events[..|events| - 1];
      OverridesDoNotInterfere(s, before, th);
      if e.Force? || e.Clear? {
        assert WithoutOverrides(events) == WithoutOverrides(before);
      } else {
        assert WithoutOverrides(events)[..|WithoutOverrides(before)|] == WithoutOverrides(before);
      }
    }
  }

  lemma {:induction false} EffectiveTier(s: State, events: seq<Event>, th: Thresholds)
    requires s.tier == Effective(s)
    ensures Run(s, events, th).tier == Effective(Run(s, events, th))
  {
    if events != [] {
      EffectiveTier(s, events[..|events| - 1], th);
    }
  }

  // ----- silence

  function Silences(ages: seq<int>): seq<Event> {
    if ages == [] then [] else Silences(ages[..|ages| - 1]) + [Silence(ages[|ages| - 1])]
  }

  ghost predicate Reaches(ages: seq<int>, limit: int) {
    exists i :: 0 <= i < |ages| && ages[i] >= limit
  }

  lemma {:induction false} OneMoreSilence(s: State, ages: seq<int>, th: Thresholds)
    requires ages != []
    ensures var n := |ages| - 1;
      Run(s, Silences(ages), th).auto == MissingAuto(Run(s, Silences(ages[..n]), th).auto, ages[n], th)
  {
    var before := Silences(ages[..|ages| - 1]);
    assert Silences(ages)[..|before|] == before;
  }

  /** One silence, however often and in whatever order it is looked at: MINIMAL if it ever
      reached the second limit, one step down if only the first, nothing otherwise. */
  lemma {:induction false} SilenceClosedForm(s: State, ages: seq<int>, th: Thresholds)
    requires !s.auto.watchdog
    ensures var r := Run(s, Silences(ages), th).auto;
      && r.tier == (if Reaches(ages, th.reportDegrade) then Minimal
                    else if Reaches(ages, th.reportHold) then OneStepDown(s.auto.tier)
                    else s.auto.tier)
      && (r.watchdog <==> Reaches(ages, th.reportDegrade) || Reaches(ages, th.reportHold))
  {
    if ages != [] {
      var n := |ages| - 1;
      SilenceClosedForm(s, ages[..n], th);
      OneMoreSilence(s, ages, th);
      ReachesOneMore(ages, th.reportDegrade);
      ReachesOneMore(ages, th.reportHold);
    }
  }

  lemma {:induction false} ReachesOneMore(ages: seq<int>, limit: int)
    requires ages != []
    ensures Reaches(ages, limit) <==> Reaches(ages[..|ages| - 1], limit) || ages[|ages| - 1] >= limit
  {
    var n := |ages| - 1;
    if Reaches(ages, limit) && ages[n] < limit {
      var i :| 0 <= i < |ages| && ages[i] >= limit;
      assert ages[..n][i] >= limit;
    }
    if Reaches(ages[..n], limit) {
      var i :| 0 <= i < n && ages[..n][i] >= limit;
      assert ages[i] >= limit;
    }
  }

  /** A client that never reports is never degraded, although the design says silence is not
      health: the watchdog is given age zero until there is a first report. */
  lemma {:induction false} NeverReportedNeverDegrades(times: seq<int>, th: Thresholds)
    requires th.reportHold > 0 && th.reportDegrade > 0
    ensures Run(FRESH, seq(|times|, i requires 0 <= i < |times| => Silence(AgeOf(None, times[i]))), th) == FRESH
  {
    var events := seq(|times|, i requires 0 <= i < |times| => Silence(AgeOf(None, times[i])));
    if times != [] {
      var n := |times| - 1;
      NeverReportedNeverDegrades(times[..n], th);
      assert events[..n] == seq(n, i requires 0 <= i < n => Silence(AgeOf(None, times[..n][i])));
    }
  }

  // ----- oscillation

  function Goods(events: seq<Event>): nat {
    if events == [] then 0
    else Goods(events[..|events| - 1]) + if events[|events| - 1] == Report(Good) then 1 else 0
  }

  /** How often the automatic tier entered FULL. */
  function Entries(s: State, events: seq<Event>, th: Thresholds): nat {
    if events == [] then 0
    else
      var before := events[..|events| - 1];
      Entries(s, before, th)
      + if !Run(s, before, th).auto.tier.Full? && Run(s, events, th).auto.tier.Full? then 1 else 0
  }

  ghost predicate NoReconnect(events: seq<Event>) {
    forall i :: 0 <= i < |events| ==> !events[i].Reconnect?
  }

  /** A connection cannot flap its way up: each entry into FULL is paid for with
      `recoverStreak` GOOD reports of its own. */
  lemma {:induction false} BoundedOscillation(events: seq<Event>, th: Thresholds)
    requires NoReconnect(events) && th.degradeStreak >= 1 && th.recoverStreak >= 1
    ensures Entries(FRESH, events, th) * th.recoverStreak <= Goods(events)
    ensures var a := Run(FRESH, events, th).auto;
      !a.tier.Full? ==> Entries(FRESH, events, th) * th.recoverStreak + a.good <= Goods(events)
  {
    if events != [] {
      var n := |events| - 1;
      assert NoReconnect(events[..n]) by {
        assert forall i :: 0 <= i < n ==> events[..n][i] == events[i];
      }
      BoundedOscillation(events[..n], th);
      OscillationStep(Run(FRESH, events[..n], th), events[n], th,
                      Entries(FRESH, events[..n], th), Entries(FRESH, events, th), Goods(events[..n]));
    }
  }

  lemma {:induction false} OscillationStep(s: State, e: Event, th: Thresholds, k: nat, k': nat, goods: nat)
    requires !e.Reconnect? && th.degradeStreak >= 1 && th.recoverStreak >= 1
    requires k * th.recoverStreak + (if s.auto.tier.Full? then 0 else s.auto.good) <= goods
    requires k' == k + if !s.auto.tier.Full? && Next(s, e, th).auto.tier.Full? then 1 else 0
    ensures var a := Next(s, e, th).auto;
      k' * th.recoverStreak + (if a.tier.Full? then 0 else a.good) <= goods + if e == Report(Good) then 1 else 0
  {
    assert (k + 1) * th.recoverStreak == k * th.recoverStreak + th.recoverStreak;
  }

  function Told(e: Event): seq<Band> {
    if e.Report? then [e.band] else []
  }

  /** The reports since the automatic tier last moved down, or since the start. */
  function SinceDown(s: State, events: seq<Event>, th: Thresholds): seq<Band> {
    if events == [] then []
    else
      var before, e := events[..|events| - 1], events[|events| - 1];
      var down := Rank(Run(s, events, th).auto.tier) < Rank(Run(s, before, th).auto.tier);
      if down then [] else SinceDown(s, before, th) + Told(e)
  }

  ghost predicate Earned(a: Auto, since: seq<Band>) {
    && a.good <= Streak(since, IsGood)
    && (a.tier.Minimal? ==> a.recovery <= Streak(since, NotMinimal))
  }

  /** What is left of the reports once the tier has moved. */
  function SinceMove(before: Tier, after: Tier, since: seq<Band>): seq<Band> {
    if Rank(after) < Rank(before) then [] else since
  }

  lemma {:induction false} ReportEarned(a: Auto, since: seq<Band>, b: Band, th: Thresholds)
    requires Earned(a, since) && th.degradeStreak >= 1
    ensures var c := ObserveAuto(a, b, th);
      Earned(c, SinceMove(a.tier, c.tier, since + [b]))
  {
    StreakAppend(since, b, IsGood);
    StreakAppend(since, b, NotMinimal);
    assert Streak([], IsGood) == 0 && Streak([], NotMinimal) == 0;
  }

  lemma {:induction false} SilenceEarned(a: Auto, since: seq<Band>, age: int, th: Thresholds)
    requires Earned(a, since)
    ensures var c := MissingAuto(a, age, th);
      Earned(c, SinceMove(a.tier, c.tier, since))
  {
  }

  lemma {:induction false} StreaksAreEarned(events: seq<Event>, th: Thresholds)
    requires NoReconnect(events) && th.degradeStreak >= 1
    ensures Earned(Run(FRESH, events, th).auto, SinceDown(FRESH, events, th))
  {
    if events != [] {
      var n, e := |events| - 1, events[|events| - 1];
      assert NoReconnect(events[..n]) by {
        assert forall i :: 0 <= i < n ==> events[..n][i] == events[i];
      }
      StreaksAreEarned(events[..n], th);
      var s, since := Run(FRESH, events[..n], th), SinceDown(FRESH, events[..n], th);
      EarnedStep(s, e, since, th);
      assert Run(FRESH, events, th) == Next(s, e, th);
      assert SinceDown(FRESH, events, th) == SinceMove(s.auto.tier, Next(s, e, th).auto.tier, since + Told(e));
    }
  }

  lemma {:induction false} EarnedStep(s: State, e: Event, since: seq<Band>, th: Thresholds)
    requires Earned(s.auto, since) && th.degradeStreak >= 1 && !e.Reconnect?
    ensures var c := Next(s, e, th).auto;
      Earned(c, SinceMove(s.auto.tier, c.tier, since + Told(e)))
  {
    assert since + [] == since;
    if e.Report? {
      ReportEarned(s.auto, since, e.band, th);
    } else if e.Silence? {
      SilenceEarned(s.auto, since, e.age, th);
    }
  }

  lemma {:induction false} StepUpEarned(s: State, e: Event, since: seq<Band>, th: Thresholds)
    requires Earned(s.auto, since) && th.degradeStreak >= 1 && !e.Reconnect?
    ensures var after := Next(s, e, th).auto.tier;
      Rank(after) > Rank(s.auto.tier) ==>
        && e.Report? && Rank(after) == Rank(s.auto.tier) + 1
        && Streak(since + Told(e), if after.Full? then IsGood else NotMinimal) >= th.recoverStreak
  {
    if e.Report? {
      StreakAppend(since, e.band, IsGood);
      StreakAppend(since, e.band, NotMinimal);
    }
  }

  lemma {:induction false} OneMoreEvent(s: State, events: seq<Event>, e: Event, th: Thresholds)
    ensures var before := Run(s, events, th);
      && Run(s, events + [e], th) == Next(before, e, th)
      && SinceDown(s, events + [e], th)
         == SinceMove(before.auto.tier, Next(before, e, th).auto.tier, SinceDown(s, events, th) + Told(e))
  {
    assert (events + [e])[..|events|] == events;
  }

  /** Every step up is taken by a report, and follows `recoverStreak` qualifying reports in a
      row since the last step down. */
  lemma {:induction false} EveryStepUpIsEarned(events: seq<Event>, e: Event, th: Thresholds)
    requires NoReconnect(events + [e]) && th.degradeStreak >= 1
    ensures var before := Run(FRESH, events, th).auto.tier;
            var after := Run(FRESH, events + [e], th).auto.tier;
            var since := SinceDown(FRESH, events + [e], th);
      Rank(after) > Rank(before) ==>
        && e.Report? && Rank(after) == Rank(before) + 1
        && Streak(since, if after.Full? then IsGood else NotMinimal) >= th.recoverStreak
  {
    var all := events + [e];
    assert NoReconnect(events) by {
      assert forall i :: 0 <= i < |events| ==> all[i] == events[i];
    }
    assert !all[|events|].Reconnect?;
    StreaksAreEarned(events, th);
    OneMoreEvent(FRESH, events, e, th);
    StepUpEarned(Run(FRESH, events, th), e, SinceDown(FRESH, events, th), th);
  }

  // ----- the way back from MINIMAL

  function Reports(events: seq<Event>): nat {
    if events == [] then 0 else Reports(events[..|events| - 1]) + if events[|events| - 1].Report? then 1 else 0
  }

  /** From the moment MINIMAL is entered, whatever happens, the tier is not above DEGRADED
      before `recoverStreak` reports and not FULL before one more. */
  lemma {:induction false} RecoveryTakesTime(s: State, events: seq<Event>, th: Thresholds)
    requires s.auto.tier.Minimal? && s.auto.recovery == 0
    requires NoReconnect(events) && th.degradeStreak >= 1
    ensures var a := Run(s, events, th).auto;
      && (a.tier.Minimal? ==> a.recovery <= Reports(events))
      && (!a.tier.Minimal? ==> Reports(events) >= th.recoverStreak)
      && (a.tier.Full? ==> Reports(events) >= th.recoverStreak + 1)
  {
    if events != [] {
      var n := |events| - 1;
      assert NoReconnect(events[..n]) by {
        assert forall i :: 0 <= i < n ==> events[..n][i] == events[i];
      }
      RecoveryTakesTime(s, events[..n], th);
    }
  }

  /** MINIMAL is always entered with no reports towards recovery. */
  lemma {:induction false} MinimalStartsFromZero(s: State, e: Event, th: Thresholds)
    requires th.degradeStreak >= 1
    requires !s.auto.tier.Minimal? && Next(s, e, th).auto.tier.Minimal?
    ensures Next(s, e, th).auto.recovery == 0
  {
  }

  function AllGood(n: nat): seq<Event> {
    seq(n, _ => Report(Good))
  }

  lemma {:induction false} OneMoreGood(s: State, th: Thresholds, n: nat)
    requires n > 0
    ensures Run(s, AllGood(n), th).auto == ObserveAuto(Run(s, AllGood(n - 1), th).auto, Good, th)
  {
    assert AllGood(n)[..n - 1] == AllGood(n - 1);
  }

  /** And that is attained: after a silence, `recoverStreak` good reports reach DEGRADED and
      one more reaches FULL, not another `recoverStreak`. */
  lemma {:induction false} FastestRecovery(s: State, th: Thresholds, n: nat)
    requires s.auto.tier.Minimal? && s.auto.recovery == 0 && s.auto.good == 0 && s.auto.minimal == 0
    requires 1 <= th.degradeStreak && 1 <= th.recoverStreak <= CAP && n <= th.recoverStreak + 1
    ensures var a := Run(s, AllGood(n), th).auto;
      && a.tier == (if n < th.recoverStreak then Minimal else if n == th.recoverStreak then Degraded else Full)
      && a.good == a.recovery == Capped(n) && a.minimal == 0
  {
    if n > 0 {
      FastestRecovery(s, th, n - 1);
      OneMoreGood(s, th, n);
    }
  }
}
