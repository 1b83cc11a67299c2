/**
 The ring retains exactly the naive window, and the cached values are folds over the trades
 in it, as long as no trade is a whole window late; a trade that late breaks it.
 */
module SummaryWindow {
  import opened Domain
  import opened SummaryRing

  ghost predicate IsNewest(trades: seq<Trade>, newest: int) {
    && (exists k :: 0 <= k < |trades| && Minute(trades[k]) == newest)
    && (forall k :: 0 <= k < |trades| ==> Minute(trades[k]) <= newest)
  }

  ghost predicate Mirrors(r: Ring, trades: seq<Trade>, newest: int) {
    forall i :: 0 <= i < |r| ==> r[i] == BucketOf(trades, MinuteAt(newest, i, |r|))
  }

  /** One expiry walk of at most a window: the slots it visits lose what is too old. */
  lemma {:induction false} ExpireAt(r: Ring, from: int, to: int, oldest: int, i: nat)
    requires i < |r| && from <= to + 1 && to - from < |r|
    ensures ExpireSlots(r, from, to, oldest)[i]
         == if MinuteAt(to, i, |r|) >= from && r[i].set_ && r[i].minute < oldest then EMPTY else r[i]
    decreases 1 + to - from
  {
    MinuteAtRange(to, i, |r|);
    if from <= to {
      var j := Slot(from, |r|);
      var r1 := if r[j].set_ && r[j].minute < oldest then r[j := EMPTY] else r;
      ExpireAt(r1, from + 1, to, oldest, i);
      MinuteAtInverse(to, from, |r|);
    }
  }

  lemma {:induction false} NoBucketAhead(trades: seq<Trade>, newest: int, m: int)
    requires forall k :: 0 <= k < |trades| ==> Minute(trades[k]) <= newest
    requires m > newest
    ensures BucketOf(trades, m) == EMPTY
  {
    BucketOfFacts(trades, m);
  }

  /** Moving the window forward keeps the mirror: what is still inside stays, what the walk
      visits was out, and the slots it frees are those of minutes not traded yet. */
  lemma {:induction false} AdvanceMirrors(r: Ring, trades: seq<Trade>, newest: int, minute: int)
    requires Mirrors(r, trades, newest) && IsNewest(trades, newest) && minute > newest && Count(r) > 0
    ensures Mirrors(Advanced(r, newest, minute), trades, minute)
  {
    var n := |r|;
    var q := Advanced(r, newest, minute);
    forall i | 0 <= i < n ensures q[i] == BucketOf(trades, MinuteAt(minute, i, n)) {
      MinuteAtRange(minute, i, n);
      MinuteAtRange(newest, i, n);
      var m, old_ := MinuteAt(minute, i, n), MinuteAt(newest, i, n);
      if minute - newest >= n {
        NoBucketAhead(trades, newest, m);
      } else {
        ExpireAt(r, newest + 1, minute, minute - n + 1, i);
        if m > newest {
          NoBucketAhead(trades, newest, m);
          BucketOfFacts(trades, old_);
          if old_ > minute - n {
            ModApart(m, old_, n);
          }
        } else {
          ModApart(m, old_, n);
        }
      }
    }
  }

  lemma {:induction false} FoldMirrors(r: Ring, trades: seq<Trade>, newest: int, t: Trade)
    requires Mirrors(r, trades, newest) && newest - |r| < Minute(t) <= newest
    ensures Mirrors(Folded(r, t), trades + [t], newest)
  {
    var n, m := |r|, Minute(t);
    var q := Folded(r, t);
    assert (trades + [t])[..|trades|] == trades;
    MinuteAtInverse(newest, m, n);
    BucketOfFacts(trades, m);
    forall i | 0 <= i < n ensures q[i] == BucketOf(trades + [t], MinuteAt(newest, i, n)) {
      MinuteAtRange(newest, i, n);
    }
  }

  lemma {:induction false} MirrorCount(r: Ring, trades: seq<Trade>, newest: int)
    requires Mirrors(r, trades, newest) && IsNewest(trades, newest)
    ensures Count(r) > 0
  {
    CountZero(r);
    BucketOfFacts(trades, newest);
    MinuteAtInverse(newest, newest, |r|);
    assert r[newest % |r|].set_;
  }

  lemma {:induction false} StepMirrors(s: State, trades: seq<Trade>, t: Trade)
    requires if trades == [] then s == Start(|s.ring|)
             else Mirrors(s.ring, trades, s.newest) && IsNewest(trades, s.newest)
    requires OnTime(s, t)
    ensures var q := Applied(s, t);
      Mirrors(q.ring, trades + [t], q.newest) && IsNewest(trades + [t], q.newest)
  {
    var m := Minute(t);
    var q := Applied(s, t);
    if trades == [] {
      EmptySums(s.ring);
    } else {
      MirrorCount(s.ring, trades, s.newest);
      if m > s.newest {
        AdvanceMirrors(s.ring, trades, s.newest, m);
      }
      var k :| 0 <= k < |trades| && Minute(trades[k]) == s.newest;
      assert (trades + [t])[k] == trades[k];
    }
    assert (trades + [t])[|trades|] == t;
    FoldMirrors(Advanced(s.ring, s.newest, m), trades, q.newest, t);
  }

  lemma {:induction false} RunOneMore(n: int, trades: seq<Trade>, t: Trade)
    requires n > 0
    ensures RunOf(n, trades + [t]) == Applied(RunOf(n, trades), t)
    ensures NeverLate(n, trades + [t]) <==> NeverLate(n, trades) && OnTime(RunOf(n, trades), t)
  {
    assert (trades + [t])[..|trades|] == trades;
  }

  lemma {:induction false} RunMirrors(n: int, trades: seq<Trade>)
    requires n > 0 && trades != [] && NeverLate(n, trades)
    ensures var s := RunOf(n, trades); Mirrors(s.ring, trades, s.newest) && IsNewest(trades, s.newest)
  {
    var before, t := trades[..|trades| - 1], trades[|trades| - 1];
    assert before + [t] == trades;
    RunOneMore(n, before, t);
    if before != [] {
      RunMirrors(n, before);
    }
    StepMirrors(RunOf(n, before), before, t);
  }

  lemma {:induction false} MirrorsIsNaive(r: Ring, trades: seq<Trade>, newest: int)
    ensures Mirrors(r, trades, newest) <==> r == NaiveRing(trades, newest, |r|)
  {
  }

  /** The ring is the naive window: for every run of trades none of which is a window late,
      each slot holds exactly the bucket of the one retained minute of its residue. */
  lemma {:induction false} RingIsNaiveWindow(n: int, trades: seq<Trade>)
    requires n > 0 && trades != [] && NeverLate(n, trades)
    ensures var s := RunOf(n, trades);
      s.ring == NaiveRing(trades, s.newest, n) && IsNewest(trades, s.newest)
  {
    RunMirrors(n, trades);
    MirrorsIsNaive(RunOf(n, trades).ring, trades, RunOf(n, trades).newest);
  }

  /** And only then: a trade a whole window late is retained, so the ring is no longer the
      naive window of the newest minute. */
  lemma {:induction false} LateTradeBreaksTheWindow(n: int, trades: seq<Trade>, t: Trade)
    requires n > 0 && trades != [] && NeverLate(n, trades)
    ensures var s := RunOf(n, trades + [t]);
      s.ring == NaiveRing(trades + [t], s.newest, n) <==> OnTime(RunOf(n, trades), t)
  {
    var s := RunOf(n, trades);
    RunMirrors(n, trades);
    MirrorCount(s.ring, trades, s.newest);
    assert (trades + [t])[..|trades|] == trades;
    MirrorsIsNaive(RunOf(n, trades + [t]).ring, trades + [t], RunOf(n, trades + [t]).newest);
    if OnTime(s, t) {
      StepMirrors(s, trades, t);
    } else {
      var i := Minute(t) % n;
      assert RunOf(n, trades + [t]) == State(Folded(s.ring, t), s.newest);
      MinuteAtRange(s.newest, i, n);
      BucketOfFacts(trades + [t], MinuteAt(s.newest, i, n));
      assert Folded(s.ring, t)[i].minute == Minute(t) && Folded(s.ring, t)[i].set_;
    }
  }

  /** While the window moves less than its length, the newest bucket survives every step of
      the expiry walk: the ring is never emptied on the way. */
  lemma {:induction false} WalkNeverEmpties(n: int, trades: seq<Trade>, s: State, minute: int, upto: int)
    requires n > 0 && trades != [] && NeverLate(n, trades) && s == RunOf(n, trades)
    requires s.newest < upto <= minute < s.newest + n
    ensures Count(ExpireSlots(s.ring, s.newest + 1, upto, minute - n + 1)) > 0
  {
    ReachedMirrors(n, trades, s);
    WalkFrom(n, trades, s, minute, upto);
  }

  lemma {:induction false} WalkFrom(n: int, trades: seq<Trade>, s: State, minute: int, upto: int)
    requires |s.ring| == n && Mirrors(s.ring, trades, s.newest) && IsNewest(trades, s.newest)
    requires s.newest < upto <= minute < s.newest + n
    ensures Count(ExpireSlots(s.ring, s.newest + 1, upto, minute - n + 1)) > 0
  {
    WalkKeepsNewest(s.ring, trades, s.newest, minute, upto);
  }

  lemma {:induction false} ReachedMirrors(n: int, trades: seq<Trade>, s: State)
    requires n > 0 && trades != [] && NeverLate(n, trades) && s == RunOf(n, trades)
    ensures |s.ring| == n && Mirrors(s.ring, trades, s.newest) && IsNewest(trades, s.newest)
  {
    RunMirrors(n, trades);
  }

  lemma {:induction false} WalkKeepsNewest(r: Ring, trades: seq<Trade>, newest: int, minute: int, upto: int)
    requires Mirrors(r, trades, newest) && IsNewest(trades, newest)
    requires newest < upto <= minute < newest + |r|
    ensures Count(ExpireSlots(r, newest + 1, upto, minute - |r| + 1)) > 0
  {
    var j := newest % |r|;
    assert r[j].set_ && r[j].minute == newest by {
      BucketOfFacts(trades, newest);
      MinuteAtInverse(newest, newest, |r|);
    }
    ExpireAt(r, newest + 1, upto, minute - |r| + 1, j);
    CountZero(ExpireSlots(r, newest + 1, upto, minute - |r| + 1));
  }

  /** For a trade on time the collision branch is never taken: its slot is free, or already
      its own minute's. */
  lemma {:induction false} NoCollision(n: int, trades: seq<Trade>, t: Trade)
    requires n > 0 && trades != [] && NeverLate(n, trades) && OnTime(RunOf(n, trades), t)
    ensures var s := RunOf(n, trades);
            var b := Advanced(s.ring, s.newest, Minute(t))[Slot(Minute(t), n)];
      !b.set_ || b.minute == Minute(t)
  {
    var s, m := RunOf(n, trades), Minute(t);
    RunMirrors(n, trades);
    MirrorCount(s.ring, trades, s.newest);
    BucketOfFacts(trades, m);
    if m > s.newest {
      AdvanceMirrors(s.ring, trades, s.newest, m);
      MinuteAtInverse(m, m, n);
    } else {
      MinuteAtInverse(s.newest, m, n);
    }
  }

  // ----- the cached values are folds over the window

  function VolumeAfter(trades: seq<Trade>, lo: int): int {
    if trades == [] then 0
    else VolumeAfter(trades[..|trades| - 1], lo)
         + if Minute(trades[|trades| - 1]) > lo then trades[|trades| - 1].quantity else 0
  }

  function TradesAfter(trades: seq<Trade>, lo: int): nat {
    if trades == [] then 0
    else TradesAfter(trades[..|trades| - 1], lo) + if Minute(trades[|trades| - 1]) > lo then 1 else 0
  }

  lemma {:induction false} NaiveSums(trades: seq<Trade>, newest: int, n: nat)
    requires n > 0 && forall k :: 0 <= k < |trades| ==> Minute(trades[k]) <= newest
    ensures Volume(NaiveRing(trades, newest, n)) == VolumeAfter(trades, newest - n)
    ensures Trades(NaiveRing(trades, newest, n)) == TradesAfter(trades, newest - n)
  {
    var ring := NaiveRing(trades, newest, n);
    if trades == [] {
      EmptySums(ring);
    } else {
      var t, before := trades[|trades| - 1], trades[..|trades| - 1];
      NaiveSums(before, newest, n);
      var old_ := NaiveRing(before, newest, n);
      var m := Minute(t);
      if m > newest - n {
        MinuteAtInverse(newest, m, n);
        SumsAfterUpdate(old_, m % n, Merged(BucketOf(before, m), m, t));
        BucketOfFacts(before, m);
        forall i | 0 <= i < n ensures ring[i] == old_[m % n := Merged(BucketOf(before, m), m, t)][i] {
          MinuteAtRange(newest, i, n);
        }
        assert ring == old_[m % n := Merged(BucketOf(before, m), m, t)];
      } else {
        forall i | 0 <= i < n ensures ring[i] == old_[i] {
          MinuteAtRange(newest, i, n);
        }
        assert ring == old_;
      }
    }
  }

  ghost predicate TradedAt(trades: seq<Trade>, m: int, price: int) {
    exists k :: 0 <= k < |trades| && Minute(trades[k]) == m && trades[k].price == price
  }

  ghost predicate OpensMinute(trades: seq<Trade>, m: int, price: int) {
    exists k :: 0 <= k < |trades| && Minute(trades[k]) == m && trades[k].price == price
                && forall j :: 0 <= j < k ==> Minute(trades[j]) != m
  }

  lemma {:induction false} StaysTraded(trades: seq<Trade>, t: Trade, m: int, price: int)
    ensures TradedAt(trades, m, price) ==> TradedAt(trades + [t], m, price)
    ensures OpensMinute(trades, m, price) ==> OpensMinute(trades + [t], m, price)
    ensures Minute(t) == m ==> TradedAt(trades + [t], m, t.price)
    ensures Minute(t) == m && !BucketOf(trades, m).set_ ==> OpensMinute(trades + [t], m, t.price)
  {
    var more := trades + [t];
    assert more[|trades|] == t && forall j :: 0 <= j < |trades| ==> more[j] == trades[j];
    BucketOfFacts(trades, m);
    if TradedAt(trades, m, price) {
      var k :| 0 <= k < |trades| && Minute(trades[k]) == m && trades[k].price == price;
      assert more[k] == trades[k];
    }
    if OpensMinute(trades, m, price) {
      var k :| 0 <= k < |trades| && Minute(trades[k]) == m && trades[k].price == price
               && forall j :: 0 <= j < k ==> Minute(trades[j]) != m;
      assert more[k] == trades[k];
    }
  }

  lemma {:induction false} BucketOneMore(trades: seq<Trade>, t: Trade, m: int)
    ensures var b := BucketOf(trades, m);
      BucketOf(trades + [t], m) == if Minute(t) == m then Merged(b, m, t) else b
  {
    assert (trades + [t])[..|trades|] == trades;
  }

  /** The extremes of one minute bound its trades. */
  lemma {:induction false} BucketBounds(trades: seq<Trade>, m: int, k: nat)
    requires k < |trades| && Minute(trades[k]) == m
    ensures var b := BucketOf(trades, m); b.set_ && b.low <= trades[k].price <= b.high
  {
    var n := |trades| - 1;
    assert trades == trades[..n] + [trades[n]];
    BucketOneMore(trades[..n], trades[n], m);
    if k < n {
      BucketBounds(trades[..n], m, k);
    }
  }

  /** And its extremes and its open are prices of its trades. */
  lemma {:induction false} BucketPrices(trades: seq<Trade>, m: int)
    ensures var b := BucketOf(trades, m);
      b.set_ ==> TradedAt(trades, m, b.high) && TradedAt(trades, m, b.low) && OpensMinute(trades, m, b.open)
  {
    if trades != [] {
      var n := |trades| - 1;
      var before, t := trades[..n], trades[n];
      assert trades == before + [t];
      BucketPrices(before, m);
      BucketOneMore(before, t, m);
      var b := BucketOf(before, m);
      StaysTraded(before, t, m, b.high);
      StaysTraded(before, t, m, b.low);
      StaysTraded(before, t, m, b.open);
    }
  }

  ghost predicate ClosesMinute(trades: seq<Trade>, m: int, price: int) {
    exists k :: 0 <= k < |trades| && Minute(trades[k]) == m && trades[k].price == price
                && forall j :: k < j < |trades| ==> Minute(trades[j]) != m
  }

  /** A bucket closes at the last trade of its minute. */
  lemma {:induction false} BucketCloses(trades: seq<Trade>, m: int)
    ensures BucketOf(trades, m).set_ ==> ClosesMinute(trades, m, BucketOf(trades, m).close)
  {
    if trades != [] {
      var n := |trades| - 1;
      var before, t := trades[..n], trades[n];
      assert trades == before + [t];
      BucketCloses(before, m);
      BucketOneMore(before, t, m);
      if Minute(t) != m && BucketOf(before, m).set_ {
        var k :| 0 <= k < n && Minute(before[k]) == m && before[k].price == BucketOf(before, m).close
                 && forall j :: k < j < n ==> Minute(before[j]) != m;
        assert trades[k] == before[k] && forall j :: k < j < n ==> trades[j] == before[j];
      }
    }
  }

  lemma {:induction false} BucketExtremes(trades: seq<Trade>, m: int, k: nat)
    requires k < |trades| && Minute(trades[k]) == m
    ensures var b := BucketOf(trades, m);
      && b.set_ && b.low <= trades[k].price <= b.high
      && TradedAt(trades, m, b.high) && TradedAt(trades, m, b.low) && OpensMinute(trades, m, b.open)
  {
    BucketBounds(trades, m, k);
    BucketPrices(trades, m);
  }

  /** A slot in use speaks for trades inside the window. */
  lemma {:induction false} SlotTraded(r: Ring, trades: seq<Trade>, newest: int, i: nat)
    requires Mirrors(r, trades, newest) && i < |r| && r[i].set_
    ensures newest - |r| < r[i].minute
    ensures TradedAt(trades, r[i].minute, r[i].high) && TradedAt(trades, r[i].minute, r[i].low)
    ensures OpensMinute(trades, r[i].minute, r[i].open)
  {
    MinuteAtRange(newest, i, |r|);
    var m := MinuteAt(newest, i, |r|);
    BucketOfFacts(trades, m);
    var k :| 0 <= k < |trades| && Minute(trades[k]) == m;
    BucketExtremes(trades, m, k);
  }

  /** Some trade inside the window has this price. */
  ghost predicate Traded(trades: seq<Trade>, lo: int, price: int) {
    exists k :: 0 <= k < |trades| && Minute(trades[k]) > lo && trades[k].price == price
  }

  /** The first trade of the oldest minute inside the window. */
  ghost predicate Opens(trades: seq<Trade>, lo: int, open: int, openAt: int) {
    && (forall k :: 0 <= k < |trades| && Minute(trades[k]) > lo ==> Minute(trades[k]) >= openAt)
    && exists k ::
         && 0 <= k < |trades| && Minute(trades[k]) > lo && Minute(trades[k]) == openAt && trades[k].price == open
         && forall j :: 0 <= j < k ==> Minute(trades[j]) != openAt
  }

  /** What the summary promises, against the trades alone. */
  ghost predicate IsSummary(c: Cache, trades: seq<Trade>, lo: int) {
    && c.volume == VolumeAfter(trades, lo)
    && c.trades == TradesAfter(trades, lo)
    && (forall k :: 0 <= k < |trades| && Minute(trades[k]) > lo ==> c.low <= trades[k].price <= c.high)
    && Traded(trades, lo, c.high) && Traded(trades, lo, c.low)
    && Opens(trades, lo, c.open, c.openAt)
  }

  /** A trade inside the window is covered by its slot. */
  lemma {:induction false} TradeInSlot(r: Ring, trades: seq<Trade>, newest: int, k: nat) returns (i: nat)
    requires Mirrors(r, trades, newest) && IsNewest(trades, newest)
    requires k < |trades| && Minute(trades[k]) > newest - |r|
    ensures i < |r| && r[i].set_ && r[i].minute == Minute(trades[k]) && r[i].low <= trades[k].price <= r[i].high
  {
    var m := Minute(trades[k]);
    i := m % |r|;
    MinuteAtInverse(newest, m, |r|);
    BucketExtremes(trades, m, k);
    BucketOfFacts(trades, m);
  }

  lemma {:induction false} ExtremesAreTheWindows(r: Ring, trades: seq<Trade>, newest: int, high: int, low: int)
    requires Mirrors(r, trades, newest) && IsNewest(trades, newest)
    requires IsHigh(r, high) && IsLow(r, low)
    ensures var lo := newest - |r|;
      && (forall k :: 0 <= k < |trades| && Minute(trades[k]) > lo ==> low <= trades[k].price <= high)
      && Traded(trades, lo, high) && Traded(trades, lo, low)
  {
    forall k | 0 <= k < |trades| && Minute(trades[k]) > newest - |r| ensures low <= trades[k].price <= high {
      var i := TradeInSlot(r, trades, newest, k);
    }
    var h :| 0 <= h < |r| && r[h].set_ && r[h].high == high;
    var l :| 0 <= l < |r| && r[l].set_ && r[l].low == low;
    SlotTraded(r, trades, newest, h);
    SlotTraded(r, trades, newest, l);
  }

  lemma {:induction false} OpenIsTheWindows(r: Ring, trades: seq<Trade>, newest: int, open: int, openAt: int)
    requires Mirrors(r, trades, newest) && IsNewest(trades, newest) && IsOpen(r, open, openAt)
    ensures Opens(trades, newest - |r|, open, openAt)
  {
    forall k | 0 <= k < |trades| && Minute(trades[k]) > newest - |r| ensures Minute(trades[k]) >= openAt {
      var i := TradeInSlot(r, trades, newest, k);
    }
    var o :| 0 <= o < |r| && r[o].set_ && r[o].open == open && r[o].minute == openAt;
    SlotTraded(r, trades, newest, o);
  }

  lemma {:induction false} SumsAreTheWindows(r: Ring, trades: seq<Trade>, newest: int)
    requires Mirrors(r, trades, newest) && IsNewest(trades, newest)
    ensures Volume(r) == VolumeAfter(trades, newest - |r|) && Trades(r) == TradesAfter(trades, newest - |r|)
  {
    MirrorsIsNaive(r, trades, newest);
    NaiveSums(trades, newest, |r|);
  }

  lemma {:induction false} MirrorIsSummary(r: Ring, n: int, trades: seq<Trade>, newest: int, c: Cache)
    requires |r| == n && Mirrors(r, trades, newest) && IsNewest(trades, newest) && Caches(r, c)
    ensures IsSummary(c, trades, newest - n)
  {
    MirrorCount(r, trades, newest);
    SumsAreTheWindows(r, trades, newest);
    ExtremesAreTheWindows(r, trades, newest, c.high, c.low);
    OpenIsTheWindows(r, trades, newest, c.open, c.openAt);
  }

  lemma {:induction false} NaiveIsSummary(n: nat, trades: seq<Trade>, newest: int, c: Cache)
    requires n > 0 && IsNewest(trades, newest) && Caches(NaiveRing(trades, newest, n), c)
    ensures IsSummary(c, trades, newest - n)
  {
    MirrorIsSummary(NaiveRing(trades, newest, n), n, trades, newest, c);
  }

  /** The main result: after any run of trades none of which is a window late, the cached
      volume, count, high, low and open are those of the trades in the last `n` minutes. */
  lemma {:induction false} SummaryIsTheWindow(n: int, trades: seq<Trade>, c: Cache)
    requires n > 0 && trades != [] && NeverLate(n, trades)
    requires Caches(RunOf(n, trades).ring, c)
    ensures IsSummary(c, trades, RunOf(n, trades).newest - n)
  {
    RingIsNaiveWindow(n, trades);
    NaiveIsSummary(n, trades, RunOf(n, trades).newest, c);
  }
}
