/**
 Coarse candles are the roll-up of fine ones.
 */
module CandleRollUp {
  import opened Domain
  import opened Candles

  function MaxTime(trades: seq<Trade>): int
    requires trades != []
  {
    var t := trades[|trades| - 1].time;
    if |trades| == 1 then t
    else var m := MaxTime(trades[..|trades| - 1]); if t > m then t else m
  }

  /** A trade whose bucket lies before the bucket of the newest trade so far: it is already
      closed. */
  predicate LateFor(before: seq<Trade>, t: Trade, d: int)
    requires d > 0
  {
    before != [] && BucketStart(t.time, d) < BucketStart(MaxTime(before), d)
  }

  /** The active candle is always the newest trade's. */
  lemma {:induction false} ActiveIsNewest(trades: seq<Trade>, d: int)
    requires d > 0 && trades != []
    ensures var s := Aggregate(trades, d);
      s.candles != [] && s.candles[|s.candles| - 1].start == BucketStart(MaxTime(trades), d)
  {
    var n := |trades| - 1;
    if n > 0 {
      ActiveIsNewest(trades[..n], d);
      if trades[n].time <= MaxTime(trades[..n]) {
        BucketMonotone(trades[n].time, MaxTime(trades[..n]), d);
      } else {
        BucketMonotone(MaxTime(trades[..n]), trades[n].time, d);
      }
    }
  }

  /** So the trades counted late are exactly those. */
  lemma {:induction false} LateIsCounted(before: seq<Trade>, t: Trade, d: int)
    requires d > 0
    ensures Aggregate(before + [t], d) == Fold(Aggregate(before, d), t, d)
    ensures Aggregate(before + [t], d).late == Aggregate(before, d).late + if LateFor(before, t, d) then 1 else 0
    ensures LateFor(before, t, d) ==> Aggregate(before + [t], d).candles == Aggregate(before, d).candles
  {
    assert (before + [t])[..|before|] == before;
    if before != [] {
      ActiveIsNewest(before, d);
    }
  }

  /** Late for the coarse interval implies late for the fine one. */
  lemma {:induction false} CoarseLateIsFineLate(before: seq<Trade>, t: Trade, d: int, m: int)
    requires d > 0 && m > 0 && m % d == 0
    ensures LateFor(before, t, m) ==> LateFor(before, t, d)
  {
    if before != [] {
      BucketOfBucket(t.time, d, m);
      BucketOfBucket(MaxTime(before), d, m);
      if BucketStart(MaxTime(before), d) <= BucketStart(t.time, d) {
        BucketMonotone(BucketStart(MaxTime(before), d), BucketStart(t.time, d), m);
      }
    }
  }

  /** No trade is late for the fine interval and on time for the coarse one. */
  ghost predicate NoSplit(trades: seq<Trade>, d: int, m: int)
    requires d > 0 && m > 0
  {
    trades == [] ||
    var before, t := trades[..|trades| - 1], trades[|trades| - 1];
    NoSplit(before, d, m) && (LateFor(before, t, d) ==> LateFor(before, t, m))
  }

  lemma {:induction false} RollUpLast(fine: seq<Candle>, m: int)
    requires m > 0 && fine != []
    ensures RollUp(fine, m) != []
    ensures RollUp(fine, m)[|RollUp(fine, m)| - 1].start == BucketStart(fine[|fine| - 1].start, m)
  {
  }

  lemma {:induction false} RollUpStep(fine: seq<Candle>, coarse: seq<Candle>, t: Trade, d: int, m: int)
    requires d > 0 && m > 0 && m % d == 0 && RollUp(fine, m) == coarse
    requires fine != [] ==> BucketStart(t.time, d) >= fine[|fine| - 1].start
    ensures RollUp(Fold(Series(fine, 0), t, d).candles, m) == Fold(Series(coarse, 0), t, m).candles
  {
    BucketOfBucket(t.time, d, m);
    if fine == [] {
      RollUpFirst(t, d, m);
    } else if BucketStart(t.time, d) == fine[|fine| - 1].start {
      RollUpJoins(fine, t, d, m);
    } else {
      RollUpLast(fine, m);
      BucketMonotone(fine[|fine| - 1].start, BucketStart(t.time, d), m);
      assert Fold(Series(fine, 0), t, d).candles == fine + [NewCandle(t, d)];
      RollUpOpens(fine, t, d, m);
    }
  }

  lemma {:induction false} RollUpFirst(t: Trade, d: int, m: int)
    requires d > 0 && m > 0 && BucketStart(BucketStart(t.time, d), m) == BucketStart(t.time, m)
    ensures RollUp(Fold(Series([], 0), t, d).candles, m) == Fold(Series(RollUp([], m), 0), t, m).candles
  {
    assert [NewCandle(t, d)][..0] == [];
  }

  /** A trade in the bucket of the last fine candle. */
  lemma {:induction false} RollUpJoins(fine: seq<Candle>, t: Trade, d: int, m: int)
    requires d > 0 && m > 0 && fine != [] && BucketStart(t.time, d) == fine[|fine| - 1].start
    requires BucketStart(BucketStart(t.time, d), m) == BucketStart(t.time, m)
    ensures RollUp(Fold(Series(fine, 0), t, d).candles, m) == Fold(Series(RollUp(fine, m), 0), t, m).candles
  {
    RollUpLast(fine, m);
    MergeApplied(fine, t, m);
  }

  /** A new fine candle joins the last coarse one, or opens the next. */
  lemma {:induction false} RollUpOpens(fine: seq<Candle>, t: Trade, d: int, m: int)
    requires d > 0 && m > 0 && RollUp(fine, m) != []
    requires BucketStart(BucketStart(t.time, d), m) == BucketStart(t.time, m)
    requires RollUp(fine, m)[|RollUp(fine, m)| - 1].start <= BucketStart(t.time, m)
    ensures RollUp(fine + [NewCandle(t, d)], m) == Fold(Series(RollUp(fine, m), 0), t, m).candles
  {
    var f, up := NewCandle(t, d), RollUp(fine, m);
    assert (fine + [f])[..|fine|] == fine;
    assert Merge(up[|up| - 1], f) == Applied(up[|up| - 1], t);
    assert f.(start := BucketStart(t.time, m)) == NewCandle(t, m);
  }

  /** Growing the last fine candle grows the last coarse one. */
  lemma {:induction false} MergeApplied(fine: seq<Candle>, t: Trade, m: int)
    requires m > 0 && fine != []
    ensures var n, up := |fine| - 1, RollUp(fine, m);
      RollUp(fine[n := Applied(fine[n], t)], m) == up[|up| - 1 := Applied(up[|up| - 1], t)]
  {
    var n := |fine| - 1;
    var fine' := fine[n := Applied(fine[n], t)];
    assert fine'[..n] == fine[..n] && fine'[n] == Applied(fine[n], t);
    var up0 := RollUp(fine[..n], m);
    var b := BucketStart(fine[n].start, m);
    if up0 != [] && up0[|up0| - 1].start == b {
      assert Merge(up0[|up0| - 1], Applied(fine[n], t)) == Applied(Merge(up0[|up0| - 1], fine[n]), t);
    }
  }

  lemma {:induction false} FoldIgnoresLate(s: Series, t: Trade, d: int)
    requires d > 0
    ensures Fold(s, t, d).candles == Fold(Series(s.candles, 0), t, d).candles
  {
  }

  lemma {:induction false} NoSplitRollsUp(trades: seq<Trade>, d: int, m: int)
    requires d > 0 && m > 0 && m % d == 0 && NoSplit(trades, d, m)
    ensures RollUp(Aggregate(trades, d).candles, m) == Aggregate(trades, m).candles
  {
    if trades != [] {
      var before, t := trades[..|trades| - 1], trades[|trades| - 1];
      assert before + [t] == trades;
      NoSplitRollsUp(before, d, m);
      LateIsCounted(before, t, d);
      LateIsCounted(before, t, m);
      if !LateFor(before, t, d) {
        if before != [] {
          ActiveIsNewest(before, d);
        }
        RollUpStep(Aggregate(before, d).candles, Aggregate(before, m).candles, t, d, m);
        FoldIgnoresLate(Aggregate(before, d), t, d);
        FoldIgnoresLate(Aggregate(before, m), t, m);
      }
    }
  }

  lemma {:induction false} RollUpKeepsTrades(fine: seq<Candle>, m: int)
    requires m > 0
    ensures TotalTrades(RollUp(fine, m)) == TotalTrades(fine)
  {
    if fine != [] {
      var n := |fine| - 1;
      RollUpKeepsTrades(fine[..n], m);
      var up := RollUp(fine[..n], m);
      var f := fine[n];
      if up != [] && up[|up| - 1].start == BucketStart(f.start, m) {
        assert up[|up| - 1 := Merge(up[|up| - 1], f)][..|up| - 1] == up[..|up| - 1];
      } else {
        assert (up + [f.(start := BucketStart(f.start, m))])[..|up|] == up;
      }
    }
  }

  lemma {:induction false} LateCounts(trades: seq<Trade>, d: int, m: int)
    requires d > 0 && m > 0 && m % d == 0
    ensures Aggregate(trades, m).late <= Aggregate(trades, d).late
    ensures !NoSplit(trades, d, m) ==> Aggregate(trades, m).late < Aggregate(trades, d).late
  {
    if trades != [] {
      var before, t := trades[..|trades| - 1], trades[|trades| - 1];
      assert before + [t] == trades;
      LateCounts(before, d, m);
      LateIsCounted(before, t, d);
      LateIsCounted(before, t, m);
      CoarseLateIsFineLate(before, t, d, m);
    }
  }

  /** Roll-up, for all trades in any order: the coarse candles are the fine ones rolled up if
      and only if no trade is late for the fine interval alone. */
  lemma {:induction false} RollUpExactly(trades: seq<Trade>, fine: Interval, coarse: Interval)
    requires Minutes(fine) <= Minutes(coarse)
    ensures RollUp(Aggregate(trades, Duration(fine)).candles, Duration(coarse))
            == Aggregate(trades, Duration(coarse)).candles
            <==> NoSplit(trades, Duration(fine), Duration(coarse))
  {
    var d, m := Duration(fine), Duration(coarse);
    EveryIntervalDivides(fine, coarse);
    if NoSplit(trades, d, m) {
      NoSplitRollsUp(trades, d, m);
    } else {
      LateCounts(trades, d, m);
      Conservation(trades, d);
      Conservation(trades, m);
      RollUpKeepsTrades(Aggregate(trades, d).candles, m);
    }
  }

  ghost predicate NonDecreasing(trades: seq<Trade>) {
    forall i, j :: 0 <= i < j < |trades| ==> trades[i].time <= trades[j].time
  }

  lemma {:induction false} MaxOfOrdered(trades: seq<Trade>)
    requires NonDecreasing(trades) && trades != []
    ensures MaxTime(trades) == trades[|trades| - 1].time
  {
    if |trades| > 1 {
      MaxOfOrdered(trades[..|trades| - 1]);
    }
  }

  /** Trades in order are never late at any interval. */
  lemma {:induction false} InOrderIsNeverLate(trades: seq<Trade>, d: int, m: int)
    requires d > 0 && m > 0 && NonDecreasing(trades)
    ensures NoSplit(trades, d, m) && Aggregate(trades, d).late == 0
  {
    if trades != [] {
      var n := |trades| - 1;
      InOrderIsNeverLate(trades[..n], d, m);
      assert trades[..n] + [trades[n]] == trades;
      LateIsCounted(trades[..n], trades[n], d);
      if n > 0 {
        MaxOfOrdered(trades[..n]);
        assert trades[..n][n - 1] == trades[n - 1];
        BucketMonotone(MaxTime(trades[..n]), trades[n].time, d);
      }
    }
  }

  /** So for trades in order every pair of intervals rolls up. */
  lemma {:induction false} InOrderRollsUp(trades: seq<Trade>, fine: Interval, coarse: Interval)
    requires Minutes(fine) <= Minutes(coarse) && NonDecreasing(trades)
    ensures RollUp(Aggregate(trades, Duration(fine)).candles, Duration(coarse))
            == Aggregate(trades, Duration(coarse)).candles
    ensures Aggregate(trades, Duration(fine)).late == 0
  {
    EveryIntervalDivides(fine, coarse);
    InOrderIsNeverLate(trades, Duration(fine), Duration(coarse));
    RollUpExactly(trades, fine, coarse);
  }

  // ----- a rolled-up candle is the merge of its bucket

  function InBucket(fine: seq<Candle>, b: int, m: int): seq<Candle>
    requires m > 0
  {
    if fine == [] then []
    else
      var f := fine[|fine| - 1];
      InBucket(fine[..|fine| - 1], b, m) + if BucketStart(f.start, m) == b then [f] else []
  }

  function MergeAll(group: seq<Candle>, b: int): Candle
    requires group != []
  {
    var f := group[|group| - 1];
    if |group| == 1 then f.(start := b) else Merge(MergeAll(group[..|group| - 1], b), f)
  }

  lemma {:induction false} NothingAhead(fine: seq<Candle>, b: int, m: int)
    requires m > 0 && forall i :: 0 <= i < |fine| ==> BucketStart(fine[i].start, m) < b
    ensures InBucket(fine, b, m) == []
  {
    if fine != [] {
      NothingAhead(fine[..|fine| - 1], b, m);
    }
  }

  predicate IsMergeOf(c: Candle, group: seq<Candle>) {
    group != [] && c == MergeAll(group, c.start)
  }

  ghost predicate PerBucket(fine: seq<Candle>, up: seq<Candle>, m: int)
    requires m > 0
  {
    forall i :: 0 <= i < |up| ==> IsMergeOf(up[i], InBucket(fine, up[i].start, m))
  }

  /** One more fine candle, in the last bucket or a later one. */
  lemma {:induction false} PerBucketGrows(before: seq<Candle>, f: Candle, m: int)
    requires m > 0
    requires var up0, b := RollUp(before, m), BucketStart(f.start, m);
      && Ascending(up0) && PerBucket(before, up0, m)
      && (up0 != [] ==> up0[|up0| - 1].start <= b)
      && (up0 == [] || up0[|up0| - 1].start != b ==> InBucket(before, b, m) == [])
    ensures Ascending(RollUp(before + [f], m)) && PerBucket(before + [f], RollUp(before + [f], m), m)
  {
    var up0, b := RollUp(before, m), BucketStart(f.start, m);
    var fine, n := before + [f], |up0| - 1;
    var merges := up0 != [] && up0[n].start == b;
    var kept := if merges then up0[..n] else up0;
    var last := if merges then Merge(up0[n], f) else f.(start := b);
    RollUpExtends(before, f, m);
    forall i | 0 <= i < |kept| ensures kept[i].start < b && IsMergeOf(kept[i], InBucket(fine, kept[i].start, m)) {
      assert kept[i] == up0[i] && IsMergeOf(up0[i], InBucket(before, up0[i].start, m));
      assert i < n ==> up0[i].start < up0[n].start;
      GroupStays(before, f, kept[i].start, m);
    }
    if merges {
      assert IsMergeOf(up0[n], InBucket(before, b, m));
    }
    GroupGrows(before, f, m);
    AppendPerBucket(fine, kept, last, m);
  }

  /** The last coarse candle absorbs the next fine one, or is followed by it. */
  lemma {:induction false} RollUpExtends(before: seq<Candle>, f: Candle, m: int)
    requires m > 0
    ensures var up0, b := RollUp(before, m), BucketStart(f.start, m);
            var n := |up0| - 1;
      RollUp(before + [f], m)
      == if up0 != [] && up0[n].start == b then up0[..n] + [Merge(up0[n], f)] else up0 + [f.(start := b)]
  {
    assert (before + [f])[..|before|] == before;
  }

  lemma {:induction false} GroupStays(before: seq<Candle>, f: Candle, c: int, m: int)
    requires m > 0 && c != BucketStart(f.start, m)
    ensures InBucket(before + [f], c, m) == InBucket(before, c, m)
  {
    assert (before + [f])[..|before|] == before;
  }

  lemma {:induction false} GroupGrows(before: seq<Candle>, f: Candle, m: int)
    requires m > 0
    ensures var b := BucketStart(f.start, m);
            var group, more := InBucket(before, b, m), InBucket(before + [f], b, m);
      && more == group + [f]
      && (group == [] ==> IsMergeOf(f.(start := b), more))
      && forall c: Candle :: c.start == b && IsMergeOf(c, group) ==> IsMergeOf(Merge(c, f), more)
  {
    assert (before + [f])[..|before|] == before;
    var group := InBucket(before, BucketStart(f.start, m), m);
    assert (group + [f])[..|group|] == group;
  }

  lemma {:induction false} AppendPerBucket(fine: seq<Candle>, kept: seq<Candle>, last: Candle, m: int)
    requires m > 0 && Ascending(kept) && PerBucket(fine, kept, m) && IsMergeOf(last, InBucket(fine, last.start, m))
    requires forall i :: 0 <= i < |kept| ==> kept[i].start < last.start
    ensures Ascending(kept + [last]) && PerBucket(fine, kept + [last], m)
  {
  }

  /** Each coarse candle is the merge, in order, of exactly the fine candles in its bucket. */
  lemma {:induction false} RollUpIsPerBucket(fine: seq<Candle>, m: int)
    requires m > 0 && Ascending(fine)
    ensures Ascending(RollUp(fine, m)) && PerBucket(fine, RollUp(fine, m), m)
  {
    if fine != [] {
      var n := |fine| - 1;
      var f, before := fine[n], fine[..n];
      RollUpIsPerBucket(before, m);
      var up0, b := RollUp(before, m), BucketStart(fine[n].start, m);
      if n > 0 {
        RollUpLast(before, m);
        assert before[n - 1] == fine[n - 1];
        BucketMonotone(fine[n - 1].start, f.start, m);
      }
      if up0 == [] || up0[|up0| - 1].start != b {
        forall i | 0 <= i < n ensures BucketStart(before[i].start, m) < b {
          BucketMonotone(before[i].start, before[n - 1].start, m);
        }
        NothingAhead(before, b, m);
      }
      assert before + [f] == fine;
      PerBucketGrows(before, f, m);
    }
  }
}
