/**
 Candles: domain/candle.go and domain/interval.go as values, and what a run of trades
 aggregates to at one interval.
 */
module Candles {
  import opened Domain

  datatype Interval = M1 | M5 | M15 | H1 | H4 | D1

  /** The registry, in minutes. */
  function Minutes(iv: Interval): nat {
    match iv case M1 => 1 case M5 => 5 case M15 => 15 case H1 => 60 case H4 => 240 case D1 => 1440
  }

  function Duration(iv: Interval): int {
    Minutes(iv) * NS_PER_MINUTE
  }

  /** Truncating to the interval: rounding down to a bucket boundary. */
  function BucketStart(time: int, d: int): int
    requires d > 0
  {
    time - time % d
  }

  datatype Candle = Candle(start: int, open: int, high: int, low: int, close: int, volume: int, trades: int,
                           source: nat)

  function NewCandle(t: Trade, d: int): Candle
    requires d > 0
  {
    Candle(BucketStart(t.time, d), t.price, t.price, t.price, t.price, t.quantity, 1, t.id)
  }

  function Applied(c: Candle, t: Trade): Candle {
    c.(high := if t.price > c.high then t.price else c.high,
       low := if t.price < c.low then t.price else c.low,
       close := t.price, volume := c.volume + t.quantity, trades := c.trades + 1, source := t.id)
  }

  /** Candle.Validate, but for the time zone. */
  predicate Validates(c: Candle) {
    && c.trades > 0 && c.volume >= 0
    && c.high >= c.open && c.high >= c.close
    && c.low <= c.open && c.low <= c.close
    && c.high >= c.low
  }

  // ----- one interval's aggregation, with nothing forgotten

  /** All candles so far, the last one active, and the trades that came too late. */
  datatype Series = Series(candles: seq<Candle>, late: nat)

  function Fold(s: Series, t: Trade, d: int): Series
    requires d > 0
  {
    var b := BucketStart(t.time, d);
    if s.candles == [] then s.(candles := [NewCandle(t, d)])
    else
      var n := |s.candles| - 1;
      if b == s.candles[n].start then s.(candles := s.candles[n := Applied(s.candles[n], t)])
      else if b > s.candles[n].start then s.(candles := s.candles + [NewCandle(t, d)])
      else s.(late := s.late + 1)
  }

  function Aggregate(trades: seq<Trade>, d: int): Series
    requires d > 0
  {
    if trades == [] then Series([], 0) else Fold(Aggregate(trades[..|trades| - 1], d), trades[|trades| - 1], d)
  }

  function TotalTrades(candles: seq<Candle>): int {
    if candles == [] then 0 else TotalTrades(candles[..|candles| - 1]) + candles[|candles| - 1].trades
  }

  ghost predicate Ascending(candles: seq<Candle>) {
    forall i, j :: 0 <= i < j < |candles| ==> candles[i].start < candles[j].start
  }

  ghost predicate Aligned(candles: seq<Candle>, d: int)
    requires d > 0
  {
    forall i :: 0 <= i < |candles| ==> candles[i].start % d == 0
  }

  ghost predicate AllValidate(candles: seq<Candle>) {
    forall i :: 0 <= i < |candles| ==> Validates(candles[i])
  }

  lemma {:induction false} FoldCounts(s: Series, t: Trade, d: int)
    requires d > 0
    ensures TotalTrades(Fold(s, t, d).candles) + Fold(s, t, d).late == TotalTrades(s.candles) + s.late + 1
  {
    if s.candles != [] {
      var m := |s.candles| - 1;
      assert s.candles[m := Applied(s.candles[m], t)][..m] == s.candles[..m];
    }
    assert (s.candles + [NewCandle(t, d)])[..|s.candles|] == s.candles;
  }

  lemma {:induction false} FoldAligns(s: Series, t: Trade, d: int)
    requires d > 0 && Ascending(s.candles) && Aligned(s.candles, d)
    ensures Ascending(Fold(s, t, d).candles) && Aligned(Fold(s, t, d).candles, d)
  {
    BucketBounds(t.time, d);
  }

  lemma {:induction false} FoldValidates(s: Series, t: Trade, d: int)
    requires d > 0 && AllValidate(s.candles) && t.quantity >= 0
    ensures AllValidate(Fold(s, t, d).candles)
  {
  }

  /** Conservation: every trade is in exactly one candle or counted late; candles ascend
      strictly, sit on bucket boundaries, and satisfy their own invariants. */
  lemma {:induction false} Conservation(trades: seq<Trade>, d: int)
    requires d > 0
    ensures var s := Aggregate(trades, d);
      && TotalTrades(s.candles) + s.late == |trades|
      && Ascending(s.candles) && Aligned(s.candles, d)
      && ((forall k :: 0 <= k < |trades| ==> trades[k].quantity >= 0) ==> AllValidate(s.candles))
  {
    if trades != [] {
      var n := |trades| - 1;
      var s, t := Aggregate(trades[..n], d), trades[n];
      Conservation(trades[..n], d);
      FoldCounts(s, t, d);
      FoldAligns(s, t, d);
      if forall k :: 0 <= k < |trades| ==> trades[k].quantity >= 0 {
        assert forall k :: 0 <= k < n ==> trades[..n][k] == trades[k];
        FoldValidates(s, t, d);
      }
    }
  }

  lemma {:induction false} BucketBounds(time: int, d: int)
    requires d > 0
    ensures BucketStart(time, d) <= time < BucketStart(time, d) + d
    ensures BucketStart(time, d) % d == 0
  {
    ModUnique(BucketStart(time, d), d, time / d, 0);
  }

  // ----- rolling fine candles up into coarse ones

  /** `c` followed by `f`. */
  function Merge(c: Candle, f: Candle): Candle {
    c.(high := if f.high > c.high then f.high else c.high,
       low := if f.low < c.low then f.low else c.low,
       close := f.close, volume := c.volume + f.volume, trades := c.trades + f.trades, source := f.source)
  }

  /** Grouping consecutive fine candles by coarse bucket, each group merged in order. */
  function RollUp(fine: seq<Candle>, d: int): seq<Candle>
    requires d > 0
  {
    if fine == [] then []
    else
      var f := fine[|fine| - 1];
      var up := RollUp(fine[..|fine| - 1], d);
      var b := BucketStart(f.start, d);
      if up != [] && up[|up| - 1].start == b then up[|up| - 1 := Merge(up[|up| - 1], f)]
      else up + [f.(start := b)]
  }

  /** Every interval of the registry divides every longer one. */
  lemma {:induction false} EveryIntervalDivides(fine: Interval, coarse: Interval)
    requires Minutes(fine) <= Minutes(coarse)
    ensures Duration(fine) > 0 && Duration(coarse) % Duration(fine) == 0
  {
  }

  lemma {:induction false} DividedModulus(k: int, d: int, m: int)
    requires d > 0 && m > 0 && m % d == 0 && k % m == 0
    ensures k % d == 0
  {
    var a, b := k / m, m / d;
    assert k == m * a && m == d * b;
    assert k == d * (b * a) by {
      assert m * a == (d * b) * a;
    }
    ModUnique(k, d, b * a, 0);
  }

  /** Truncating twice is truncating once to the coarser interval. */
  lemma {:induction false} BucketOfBucket(time: int, d: int, m: int)
    requires d > 0 && m > 0 && m % d == 0
    ensures BucketStart(BucketStart(time, d), m) == BucketStart(time, m)
    ensures BucketStart(time, m) <= BucketStart(time, d)
  {
    var f, c := BucketStart(time, d), BucketStart(time, m);
    BucketBounds(time, d);
    BucketBounds(time, m);
    DividedModulus(c, d, m);
    ModDifference(f, c, d);
    ModUnique(f, m, c / m, f - c);
  }

  /** Two multiples of `d`: one is not in between the other and the next. */
  lemma {:induction false} ModDifference(f: int, c: int, d: int)
    requires d > 0 && f % d == 0 && c % d == 0 && c < f + d
    ensures c <= f
  {
    var k := c / d - f / d;
    assert d * k == c - f;
    MulBound(d, k);
    if k > 0 {
      assert false;
    }
  }

  lemma {:induction false} BucketMonotone(a: int, b: int, d: int)
    requires d > 0 && a <= b
    ensures BucketStart(a, d) <= BucketStart(b, d)
  {
    BucketBounds(a, d);
    BucketBounds(b, d);
    ModDifference(BucketStart(b, d), BucketStart(a, d), d);
  }
}
