/**
 exchange/synthetic/provider.go: the timestamps of the synthetic feed. Warm-up replays a
 virtual timeline that ends where live generation begins.
 */
module Timeline {
  import opened Domain
  import opened Candles
  import opened CandleRollUp
  import CandleAggregation

  /** 720 hours, in nanoseconds. */
  const DEFAULT_SPAN := 720 * 60 * NS_PER_MINUTE
  const DEFAULT_EVENTS := 200_000

  function SpanOrDefault(span: int): (s: int)
    ensures s > 0
  {
    if span <= 0 then DEFAULT_SPAN else span
  }

  function EventsOrDefault(events: int): (n: int)
    ensures n > 0
  {
    if events <= 0 then DEFAULT_EVENTS else events
  }

  /** A duration divided by a count, in whole nanoseconds. */
  function WarmupStep(span: int, events: int): int {
    SpanOrDefault(span) / EventsOrDefault(events)
  }

  datatype Feed = Feed(virtualAt: int, warmupEnd: int, step: int)

  function Start(span: int, events: int, now: int): Feed {
    Feed(now - SpanOrDefault(span), now, WarmupStep(span, events))
  }

  /** One event asked for: at which pace, and what the clock says. */
  datatype Tick = Tick(fast: bool, now: int)

  function Stamp(f: Feed, t: Tick): int {
    if !t.fast then t.now else if f.virtualAt >= f.warmupEnd then f.warmupEnd else f.virtualAt
  }

  function Advance(f: Feed, t: Tick): Feed {
    if t.fast && f.virtualAt < f.warmupEnd then f.(virtualAt := f.virtualAt + f.step) else f
  }

  function FeedAfter(f: Feed, ticks: seq<Tick>): Feed {
    if ticks == [] then f else Advance(FeedAfter(f, ticks[..|ticks| - 1]), ticks[|ticks| - 1])
  }

  function StampAt(f: Feed, ticks: seq<Tick>, k: nat): int
    requires k < |ticks|
  {
    Stamp(FeedAfter(f, ticks[..k]), ticks[k])
  }

  class Provider {
    const warmupEnd: int
    const step: int
    var virtualAt: int
    var fast: bool

    ghost function State(): Feed
      reads this
    {
      Feed(virtualAt, warmupEnd, step)
    }

    constructor (span: int, events: int, now: int)
      ensures State() == Start(span, events, now) && fast
    {
      warmupEnd, step := now, SpanOrDefault(span) / EventsOrDefault(events);
      virtualAt, fast := now - SpanOrDefault(span), true;
    }

    method SetPace(fast: bool)
      modifies this`fast
      ensures this.fast == fast
    {
      this.fast := fast;
    }

    method NextTimestamp(now: int) returns (ts: int)
      modifies this`virtualAt
      ensures ts == Stamp(old(State()), Tick(fast, now))
      ensures !fast ==> ts == now && virtualAt == old(virtualAt)
      ensures fast ==> ts == if old(virtualAt) < warmupEnd then old(virtualAt) else warmupEnd
      ensures State() == Advance(old(State()), Tick(fast, now))
    {
      if fast {
        if virtualAt >= warmupEnd {
          return warmupEnd;
        }
        ts := virtualAt;
        virtualAt := virtualAt + step;
        return;
      }
      return now;
    }
  }

  // ----- the warm-up timeline

  lemma {:induction false} StepsFit(span: int, events: int, k: nat)
    requires k < EventsOrDefault(events)
    ensures WarmupStep(span, events) >= 0 && k * WarmupStep(span, events) < SpanOrDefault(span)
  {
    var s, n := SpanOrDefault(span), EventsOrDefault(events);
    FewerSteps(s, n, s / n, s % n, k);
  }

  lemma {:induction false} FewerSteps(s: int, n: int, step: int, rest: int, k: nat)
    requires s > 0 && k < n && s == n * step + rest && 0 <= rest < n
    ensures step >= 0 && k * step < s
  {
    MulBound(n, step);
    if step > 0 {
      var d := n - k;
      assert k * step == n * step - d * step;
      MulBound(d, step);
    }
    assert step == 0 ==> k * step == 0;
  }

  ghost predicate AllFast(ticks: seq<Tick>) {
    forall k :: 0 <= k < |ticks| ==> ticks[k].fast
  }

  lemma {:induction false} WarmupFeed(span: int, events: int, now: int, ticks: seq<Tick>)
    requires AllFast(ticks) && |ticks| <= EventsOrDefault(events)
    ensures var f := FeedAfter(Start(span, events, now), ticks);
      && f.virtualAt == now - SpanOrDefault(span) + |ticks| * WarmupStep(span, events)
      && f.warmupEnd == now && f.step == WarmupStep(span, events)
  {
    if ticks != [] {
      var n := |ticks| - 1;
      WarmupFeed(span, events, now, ticks[..n]);
      StepsFit(span, events, n);
      OneMore(n, WarmupStep(span, events));
    }
  }

  /** The first `events` warm-up events are evenly spaced and all come before live
      generation starts, whatever the rounding of the step. */
  lemma {:induction false} WarmupComesBefore(span: int, events: int, now: int, ticks: seq<Tick>, k: nat)
    requires AllFast(ticks) && k < |ticks| && k < EventsOrDefault(events)
    ensures StampAt(Start(span, events, now), ticks, k)
            == now - SpanOrDefault(span) + k * WarmupStep(span, events) < now
  {
    WarmupFeed(span, events, now, ticks[..k]);
    StepsFit(span, events, k);
  }

  /** And they use the span up: after a full warm-up less than a nanosecond for each event is
      left of it, and every further warm-up event has a timestamp in that rest or at its end. */
  lemma {:induction false} WarmupFillsTheSpan(span: int, events: int, now: int, ticks: seq<Tick>)
    requires AllFast(ticks) && |ticks| == EventsOrDefault(events)
    ensures now - EventsOrDefault(events) < FeedAfter(Start(span, events, now), ticks).virtualAt <= now
    ensures Stamp(FeedAfter(Start(span, events, now), ticks), Tick(true, now)) > now - EventsOrDefault(events)
  {
    var s, n := SpanOrDefault(span), EventsOrDefault(events);
    WarmupFeed(span, events, now, ticks);
    assert s == n * (s / n) + s % n;
  }

  /** The default span supplies every interval's whole history, and no more than that at the
      two longest intervals. */
  lemma {:induction false} HistoryFitsTheSpan(iv: Interval)
    ensures CandleAggregation.HistoryDepth(iv) * Duration(iv) <= DEFAULT_SPAN
    ensures Minutes(iv) > 60 ==> CandleAggregation.HistoryDepth(iv) * Duration(iv) == DEFAULT_SPAN
  {
  }

  // ----- the handover

  /** Warm-up first, then live, with a clock that does not run backwards. */
  ghost predicate OneHandover(ticks: seq<Tick>, start: int) {
    && (forall k :: 0 <= k < |ticks| ==> ticks[k].now >= start)
    && (forall j, k :: 0 <= j < k < |ticks| ==> ticks[j].now <= ticks[k].now && (ticks[k].fast ==> ticks[j].fast))
  }

  lemma {:induction false} FeedBounds(f: Feed, ticks: seq<Tick>, j: nat)
    requires f.step >= 0 && j <= |ticks|
    ensures var g, h := FeedAfter(f, ticks[..j]), FeedAfter(f, ticks);
      g.virtualAt <= h.virtualAt && g.warmupEnd == h.warmupEnd == f.warmupEnd && g.step == h.step == f.step
  {
    if j < |ticks| {
      var n := |ticks| - 1;
      FeedBounds(f, ticks[..n], j);
      assert ticks[..n][..j] == ticks[..j];
    } else {
      assert ticks[..j] == ticks;
      if ticks != [] {
        FeedBounds(f, ticks[..|ticks| - 1], 0);
      }
    }
  }

  lemma {:induction false} StampsInOrder(f: Feed, ticks: seq<Tick>, j: nat, k: nat)
    requires f.step >= 0 && OneHandover(ticks, f.warmupEnd) && j < k < |ticks|
    ensures StampAt(f, ticks, j) <= StampAt(f, ticks, k)
  {
    FeedBounds(f, ticks[..k], j);
    assert ticks[..k][..j] == ticks[..j];
  }

  /** Going back to warm-up pace after a live event is in order only when the warm-up
      timeline is used up and the live event was at the very moment it ended. */
  lemma {:induction false} ReturnToWarmup(f: Feed, live: Tick, back: Tick)
    requires f.step >= 0 && !live.fast && back.fast && live.now >= f.warmupEnd
    ensures Stamp(f, live) <= Stamp(Advance(f, live), back) <==> f.virtualAt >= f.warmupEnd && live.now == f.warmupEnd
  {
  }

  /** The trades of one feed. */
  ghost predicate Stamped(f: Feed, ticks: seq<Tick>, trades: seq<Trade>) {
    |trades| == |ticks| && forall k :: 0 <= k < |ticks| ==> trades[k].time == StampAt(f, ticks, k)
  }

  /** So no aggregator, at any interval, ever counts a late trade, and its candles roll up
      from any finer ones. */
  lemma {:induction false} HandoverIsNeverLate(span: int, events: int, now: int, ticks: seq<Tick>,
                                               trades: seq<Trade>, fine: Interval, coarse: Interval)
    requires OneHandover(ticks, now) && Stamped(Start(span, events, now), ticks, trades)
    requires Minutes(fine) <= Minutes(coarse)
    ensures NonDecreasing(trades)
    ensures Aggregate(trades, Duration(fine)).late == 0
    ensures RollUp(Aggregate(trades, Duration(fine)).candles, Duration(coarse))
            == Aggregate(trades, Duration(coarse)).candles
  {
    var f := Start(span, events, now);
    StepsFit(span, events, 0);
    forall j, k | 0 <= j < k < |trades| ensures trades[j].time <= trades[k].time {
      StampsInOrder(f, ticks, j, k);
    }
    InOrderRollsUp(trades, fine, coarse);
  }
}
