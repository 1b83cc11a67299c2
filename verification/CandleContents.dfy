/**
 What one candle says about its trades.
 */
module CandleContents {
  import opened Domain
  import opened Candles
  import opened CandleRollUp

  /** The trades of one bucket, in the order they came, without those that came when it was
      already closed. */
  function OnTimeIn(trades: seq<Trade>, d: int, b: int): seq<Trade>
    requires d > 0
  {
    if trades == [] then []
    else
      var before, t := trades[..|trades| - 1], trades[|trades| - 1];
      OnTimeIn(before, d, b) + if BucketStart(t.time, d) == b && !LateFor(before, t, d) then [t] else []
  }

  function TotalQuantity(group: seq<Trade>): int {
    if group == [] then 0 else TotalQuantity(group[..|group| - 1]) + group[|group| - 1].quantity
  }

  ghost predicate Priced(group: seq<Trade>, price: int) {
    exists i :: 0 <= i < |group| && group[i].price == price
  }

  ghost predicate Within(group: seq<Trade>, low: int, high: int) {
    forall i :: 0 <= i < |group| ==> low <= group[i].price <= high
  }

  /** Opened by the first trade, closed by the last, spanned by the extremes of all of them. */
  ghost predicate TellsOf(c: Candle, group: seq<Trade>) {
    && group != []
    && c.open == group[0].price && c.close == group[|group| - 1].price && c.source == group[|group| - 1].id
    && Within(group, c.low, c.high) && Priced(group, c.low) && Priced(group, c.high)
    && c.trades == |group| && c.volume == TotalQuantity(group)
  }

  lemma {:induction false} TellsOfOne(t: Trade, d: int)
    requires d > 0
    ensures TellsOf(NewCandle(t, d), [t])
  {
    assert [t][0].price == t.price && [t][..0] == [];
  }

  lemma {:induction false} TellsOfMore(c: Candle, group: seq<Trade>, t: Trade)
    requires TellsOf(c, group)
    ensures TellsOf(Applied(c, t), group + [t])
  {
    var more, c' := group + [t], Applied(c, t);
    assert more[..|group|] == group && more[|group|] == t;
    assert forall i :: 0 <= i < |group| ==> more[i] == group[i];
    PricedMore(group, t, c.low);
    PricedMore(group, t, c.high);
  }

  lemma {:induction false} PricedMore(group: seq<Trade>, t: Trade, price: int)
    ensures Priced(group, price) ==> Priced(group + [t], price)
    ensures Priced(group + [t], t.price)
  {
    var more := group + [t];
    assert more[|group|] == t;
    if Priced(group, price) {
      var i :| 0 <= i < |group| && group[i].price == price;
      assert more[i].price == price;
    }
  }

  ghost predicate HasStart(candles: seq<Candle>, b: int) {
    exists i :: 0 <= i < |candles| && candles[i].start == b
  }

  ghost predicate AllTell(candles: seq<Candle>, trades: seq<Trade>, d: int)
    requires d > 0
  {
    forall i :: 0 <= i < |candles| ==> TellsOf(candles[i], OnTimeIn(trades, d, candles[i].start))
  }

  lemma {:induction false} OnTimeMore(before: seq<Trade>, t: Trade, d: int, b: int)
    requires d > 0
    ensures OnTimeIn(before + [t], d, b)
         == OnTimeIn(before, d, b) + if BucketStart(t.time, d) == b && !LateFor(before, t, d) then [t] else []
  {
    assert (before + [t])[..|before|] == before;
  }

  ghost predicate CoversAt(candles: seq<Candle>, trades: seq<Trade>, d: int, b: int)
    requires d > 0
  {
    OnTimeIn(trades, d, b) != [] <==> HasStart(candles, b)
  }

  /** There is a candle for exactly the buckets with a trade in time. */
  ghost predicate Covers(candles: seq<Candle>, trades: seq<Trade>, d: int)
    requires d > 0
  {
    forall b :: CoversAt(candles, trades, d, b)
  }

  /** Every candle, at any interval and for trades in any order, tells of exactly the trades of
      its bucket that came in time; and every such trade's bucket has its candle. */
  lemma {:induction false} CandleIsItsTrades(trades: seq<Trade>, d: int)
    requires d > 0
    ensures AllTell(Aggregate(trades, d).candles, trades, d) && Covers(Aggregate(trades, d).candles, trades, d)
  {
    if trades == [] {
      forall b ensures CoversAt([], [], d, b) {
      }
    } else {
      var before, t := trades[..|trades| - 1], trades[|trades| - 1];
      assert before + [t] == trades;
      CandleIsItsTrades(before, d);
      StepTells(before, t, d);
    }
  }

  lemma {:induction false} StepTells(before: seq<Trade>, t: Trade, d: int)
    requires d > 0
    requires AllTell(Aggregate(before, d).candles, before, d) && Covers(Aggregate(before, d).candles, before, d)
    ensures AllTell(Aggregate(before + [t], d).candles, before + [t], d)
    ensures Covers(Aggregate(before + [t], d).candles, before + [t], d)
  {
    var candles := Aggregate(before, d).candles;
    Conservation(before, d);
    LateIsCounted(before, t, d);
    if LateFor(before, t, d) {
      LateTellsNothing(candles, before, t, d);
    } else {
      if before != [] {
        ActiveIsNewest(before, d);
      }
      FoldIgnoresLate(Aggregate(before, d), t, d);
      OnTimeTells(candles, before, t, d);
    }
  }

  lemma {:induction false} LateTellsNothing(candles: seq<Candle>, before: seq<Trade>, t: Trade, d: int)
    requires d > 0 && LateFor(before, t, d) && AllTell(candles, before, d) && Covers(candles, before, d)
    ensures AllTell(candles, before + [t], d) && Covers(candles, before + [t], d)
  {
    forall b ensures OnTimeIn(before + [t], d, b) == OnTimeIn(before, d, b) && CoversAt(candles, before + [t], d, b) {
      OnTimeMore(before, t, d, b);
      assert CoversAt(candles, before, d, b);
    }
  }

  /** A trade in time changes the last candle, which is its own, and no other. */
  lemma {:induction false} LastChanges(candles: seq<Candle>, t: Trade, d: int) returns (kept: seq<Candle>, last: Candle)
    requires d > 0 && Ascending(candles)
    requires candles != [] ==> BucketStart(t.time, d) >= candles[|candles| - 1].start
    ensures Fold(Series(candles, 0), t, d).candles == kept + [last] && last.start == BucketStart(t.time, d)
    ensures kept <= candles && forall i :: 0 <= i < |kept| ==> kept[i] == candles[i] && kept[i].start < last.start
    ensures if |kept| < |candles|
            then |candles| == |kept| + 1 && candles[|kept|].start == last.start && last == Applied(candles[|kept|], t)
            else last == NewCandle(t, d)
  {
    var n := |candles| - 1;
    if candles != [] && candles[n].start == BucketStart(t.time, d) {
      kept, last := candles[..n], Applied(candles[n], t);
    } else {
      kept, last := candles, NewCandle(t, d);
    }
  }

  lemma {:induction false} OnTimeTells(candles: seq<Candle>, before: seq<Trade>, t: Trade, d: int)
    requires d > 0 && !LateFor(before, t, d) && Ascending(candles)
    requires AllTell(candles, before, d) && Covers(candles, before, d)
    requires candles != [] ==> BucketStart(t.time, d) >= candles[|candles| - 1].start
    ensures AllTell(Fold(Series(candles, 0), t, d).candles, before + [t], d)
    ensures Covers(Fold(Series(candles, 0), t, d).candles, before + [t], d)
  {
    var kept, last := LastChanges(candles, t, d);
    LastTells(candles, kept, last, before, t, d);
    AppendTells(kept, last, before, t, d);
    AppendCovers(candles, kept, last, before, t, d);
  }

  lemma {:induction false} LastTells(candles: seq<Candle>, kept: seq<Candle>, last: Candle, before: seq<Trade>,
                                     t: Trade, d: int)
    requires d > 0 && !LateFor(before, t, d) && last.start == BucketStart(t.time, d) && kept <= candles
    requires AllTell(candles, before, d) && Covers(candles, before, d)
    requires forall i :: 0 <= i < |kept| ==> kept[i].start < last.start
    requires if |kept| < |candles|
             then |candles| == |kept| + 1 && candles[|kept|].start == last.start && last == Applied(candles[|kept|], t)
             else last == NewCandle(t, d)
    ensures TellsOf(last, OnTimeIn(before + [t], d, last.start))
  {
    var group := OnTimeIn(before, d, last.start);
    OnTimeMore(before, t, d, last.start);
    if |kept| < |candles| {
      TellsOfMore(candles[|kept|], group, t);
    } else {
      assert CoversAt(candles, before, d, last.start);
      assert candles == kept && !HasStart(candles, last.start);
      TellsOfOne(t, d);
      assert group + [t] == [t];
    }
  }

  lemma {:induction false} AppendCovers(candles: seq<Candle>, kept: seq<Candle>, last: Candle, before: seq<Trade>,
                                        t: Trade, d: int)
    requires d > 0 && !LateFor(before, t, d) && last.start == BucketStart(t.time, d) && Covers(candles, before, d)
    requires kept == candles
             || (|candles| == |kept| + 1 && kept == candles[..|kept|] && candles[|kept|].start == last.start)
    ensures Covers(kept + [last], before + [t], d)
  {
    SameStarts(candles, kept, last, last.start);
    forall b ensures CoversAt(kept + [last], before + [t], d, b) {
      OnTimeMore(before, t, d, b);
      assert CoversAt(candles, before, d, b);
    }
  }

  lemma {:induction false} AppendTells(kept: seq<Candle>, last: Candle, before: seq<Trade>, t: Trade, d: int)
    requires d > 0 && last.start == BucketStart(t.time, d)
    requires AllTell(kept, before, d) && forall i :: 0 <= i < |kept| ==> kept[i].start < last.start
    requires TellsOf(last, OnTimeIn(before + [t], d, last.start))
    ensures AllTell(kept + [last], before + [t], d)
  {
    var all := kept + [last];
    forall i | 0 <= i < |all| ensures TellsOf(all[i], OnTimeIn(before + [t], d, all[i].start)) {
      if i < |kept| {
        OnTimeMore(before, t, d, kept[i].start);
        assert OnTimeIn(before, d, kept[i].start) + [] == OnTimeIn(before, d, kept[i].start);
      }
    }
  }

  lemma {:induction false} SameStarts(candles: seq<Candle>, kept: seq<Candle>, last: Candle, now: int)
    requires last.start == now
    requires kept == candles
             || (|candles| == |kept| + 1 && kept == candles[..|kept|] && candles[|kept|].start == now)
    ensures forall b :: HasStart(kept + [last], b) <==> b == now || HasStart(candles, b)
  {
    var all := kept + [last];
    forall b ensures HasStart(all, b) <==> b == now || HasStart(candles, b) {
      if b == now {
        assert all[|kept|].start == b;
      }
      if HasStart(all, b) && b != now {
        var i :| 0 <= i < |all| && all[i].start == b;
        assert candles[i].start == b;
      }
      if HasStart(candles, b) && b != now {
        var i :| 0 <= i < |candles| && candles[i].start == b;
        assert all[i].start == b;
      }
    }
  }
}
