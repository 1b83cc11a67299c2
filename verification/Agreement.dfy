/**
 Two components that never see each other, fed with the same trades: the rolling summary
 (market/summary.go) and the one-minute candles (market/candle.go).
 */
module Agreement {
  import opened Domain
  import opened Candles
  import opened CandleRollUp
  import SummaryRing
  import SummaryWindow

  function MinuteOf(c: Candle): int {
    c.start / NS_PER_MINUTE
  }

  datatype Sums = Sums(volume: int, trades: int)

  /** Volume and trades of the candles after minute `lo`. */
  function SumsOf(candles: seq<Candle>, lo: int): Sums {
    if candles == [] then Sums(0, 0)
    else
      var c := candles[|candles| - 1];
      var before := SumsOf(candles[..|candles| - 1], lo);
      if MinuteOf(c) > lo then Sums(before.volume + c.volume, before.trades + c.trades) else before
  }

  /** A one-minute bucket starts in the minute the summary files the trade under. */
  lemma {:induction false} SameMinute(t: Trade)
    ensures Duration(M1) == NS_PER_MINUTE
    ensures BucketStart(t.time, NS_PER_MINUTE) / NS_PER_MINUTE == SummaryRing.Minute(t)
  {
    var m := t.time / NS_PER_MINUTE;
    ModUnique(BucketStart(t.time, NS_PER_MINUTE), NS_PER_MINUTE, m, 0);
  }

  lemma {:induction false} FoldAgrees(s: Series, t: Trade, lo: int)
    requires s.candles != [] ==> BucketStart(t.time, NS_PER_MINUTE) >= s.candles[|s.candles| - 1].start
    ensures var before := SumsOf(s.candles, lo);
      SumsOf(Fold(s, t, NS_PER_MINUTE).candles, lo)
      == if SummaryRing.Minute(t) > lo then Sums(before.volume + t.quantity, before.trades + 1) else before
  {
    SameMinute(t);
    if s.candles != [] {
      var m := |s.candles| - 1;
      assert s.candles[m := Applied(s.candles[m], t)][..m] == s.candles[..m];
    }
    assert (s.candles + [NewCandle(t, NS_PER_MINUTE)])[..|s.candles|] == s.candles;
  }

  /** For trades in time order the one-minute candles of any window hold exactly its volume
      and its trades. */
  lemma {:induction false} CandlesHoldTheWindow(trades: seq<Trade>, lo: int)
    requires NonDecreasing(trades)
    ensures SumsOf(Aggregate(trades, Duration(M1)).candles, lo)
            == Sums(SummaryWindow.VolumeAfter(trades, lo), SummaryWindow.TradesAfter(trades, lo))
  {
    if trades != [] {
      var n := |trades| - 1;
      var before, t := trades[..n], trades[n];
      assert NonDecreasing(before);
      CandlesHoldTheWindow(before, lo);
      SameMinute(t);
      if n > 0 {
        InOrderActive(before);
        BucketMonotone(before[n - 1].time, t.time, NS_PER_MINUTE);
      }
      FoldAgrees(Aggregate(before, NS_PER_MINUTE), t, lo);
    }
  }

  /** In time order the last candle is the last trade's. */
  lemma {:induction false} InOrderActive(trades: seq<Trade>)
    requires NonDecreasing(trades) && trades != []
    ensures var candles := Aggregate(trades, NS_PER_MINUTE).candles;
      candles != [] && candles[|candles| - 1].start == BucketStart(trades[|trades| - 1].time, NS_PER_MINUTE)
  {
    var n := |trades| - 1;
    if n > 0 {
      assert NonDecreasing(trades[..n]);
      InOrderActive(trades[..n]);
      BucketMonotone(trades[n - 1].time, trades[n].time, NS_PER_MINUTE);
    }
  }

  /** Trades in time order are never a window late, at any window. */
  lemma {:induction false} InOrderIsOnTime(n: int, trades: seq<Trade>)
    requires n > 0 && NonDecreasing(trades)
    ensures SummaryRing.NeverLate(n, trades)
    ensures trades != [] ==> SummaryRing.RunOf(n, trades).newest == SummaryRing.Minute(trades[|trades| - 1])
  {
    if trades != [] {
      var last := |trades| - 1;
      var before := trades[..last];
      assert NonDecreasing(before);
      InOrderIsOnTime(n, before);
      if last > 0 {
        assert before[last - 1] == trades[last - 1];
        MinuteMonotone(trades[last - 1].time, trades[last].time);
      } else {
        SummaryRing.EmptySums(SummaryRing.AllEmpty(n));
      }
    }
  }

  lemma {:induction false} MinuteMonotone(a: int, b: int)
    requires a <= b
    ensures a / NS_PER_MINUTE <= b / NS_PER_MINUTE
  {
  }

  function RingSums(ring: seq<SummaryRing.Bucket>): Sums {
    Sums(SummaryRing.Volume(ring), SummaryRing.Trades(ring))
  }

  /** So what the summary caches as its volume and its trade count, the sums over its ring,
      are those of the one-minute candles of the window the ring mirrors. */
  lemma {:induction false} SummaryAgreesWithCandles(ring: SummaryRing.Ring, trades: seq<Trade>, newest: int)
    requires NonDecreasing(trades) && SummaryWindow.Mirrors(ring, trades, newest)
             && SummaryWindow.IsNewest(trades, newest)
    ensures RingSums(ring) == SumsOf(Aggregate(trades, Duration(M1)).candles, newest - |ring|)
  {
    SummaryWindow.SumsAreTheWindows(ring, trades, newest);
    CandlesHoldTheWindow(trades, newest - |ring|);
  }
}
