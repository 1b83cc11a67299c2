/**
 market/summary.go: the rolling summary, in place.

 Every method keeps the cached values equal to what they cache, for any trade whatever;
 `history` records the trades since the last reset, and `SummaryWindow` says what the ring
 they lead to means.
 */
module RollingSummary {
  import opened Domain
  import opened SummaryRing
  import SummaryWindow
  import Money

  datatype MarketSummary = MarketSummary(
    last: int, open: int, high: int, low: int, volume: int, change: int, changeBP: int, trades: int)

  /** The change from a positive open: exact in ticks, truncated in basis points, and zero
      basis points where they would not fit. A zero open has no change. */
  ghost predicate IsChange(open: int, last: int, change: int, changeBP: int) {
    && (open == 0 ==> change == 0 && changeBP == 0)
    && (open > 0 && last >= 0 ==>
          && change == last - open
          && exists q :: Money.IsTruncatedQuotient((last - open) * 10_000, open, q)
                         && changeBP == if Money.InInt64(q) then q else 0)
  }

  method ChangeSince(open: Money.int64, last: Money.int64) returns (change: int, changeBP: int)
    ensures IsChange(open, last, change, changeBP)
  {
    if open == 0 {
      return 0, 0;
    }
    change := Money.Wrap64(last - open);
    var bp := Money.ChangeBasisPoints(open, last);
    changeBP := if bp.Ok? then bp.value else 0;
    if open > 0 && last >= 0 {
      Money.WrapIdentity(last - open);
      ghost var q := Money.ChangeBasisPointsIsExact(open, last);
    }
  }

  class Summary24h {
    const buckets: array<Bucket>
    var volume: int
    var high: int
    var low: int
    var open: int
    var last: int
    var trades: int
    var openAt: int
    var count: int
    var newestMinute: int

    ghost var history: seq<Trade>

    ghost function Cached(): Cache
      reads this
    {
      Cache(volume, trades, count, high, low, open, openAt)
    }

    ghost predicate Consistent()
      reads this, buckets
    {
      buckets.Length > 0 && Clean(buckets[..]) && Counted(buckets[..]) && Caches(buckets[..], Cached())
    }

    ghost predicate Valid()
      reads this, buckets
    {
      Consistent() && RunOf(buckets.Length, history) == State(buckets[..], newestMinute)
    }

    constructor (n: nat)
      requires n > 0
      ensures Valid() && history == [] && buckets.Length == n && fresh(buckets)
    {
      buckets := new Bucket[n](_ => EMPTY);
      volume, high, low, open, last, trades, openAt, count, newestMinute := 0, 0, 0, 0, 0, 0, 0, 0, 0;
      history := [];
      new;
      assert buckets[..] == AllEmpty(n);
      EmptySums(buckets[..]);
    }

    /** Any trade: the ring moves as `Applied` says and every cached value still caches it. */
    method Apply(t: Trade)
      requires Valid()
      modifies this, buckets
      ensures Valid() && history == old(history) + [t] && last == t.price
    {
      var minute := Minute(t);
      ghost var before := State(buckets[..], newestMinute);
      Advance(minute);
      FoldIn(minute, t);
      last := t.price;
      newestMinute := if minute > newestMinute then minute else newestMinute;
      assert State(buckets[..], newestMinute) == Applied(before, t);
      assert (history + [t])[..|history|] == history;
      history := history + [t];
    }

    /** The slot is freed first if another minute's bucket is still in it. */
    method FoldIn(minute: int, t: Trade)
      requires Consistent() && minute == Minute(t)
      modifies this, buckets
      ensures Consistent() && buckets[..] == Folded(old(buckets[..]), t)
      ensures history == old(history) && last == old(last) && newestMinute == old(newestMinute)
    {
      var i := Slot(minute, buckets.Length);
      if buckets[i].set_ && buckets[i].minute != minute {
        Expire(i);
      }
      FoldTrade(i, minute, t);
    }

    method Advance(minute: int)
      requires Consistent()
      modifies this, buckets
      ensures Consistent() && history == old(history) && last == old(last)
      ensures buckets[..] == Advanced(old(buckets[..]), old(newestMinute), minute)
      ensures newestMinute == if old(count) == 0 || minute > old(newestMinute) then minute else old(newestMinute)
    {
      if count == 0 {
        newestMinute := minute;
        return;
      }
      if minute <= newestMinute {
        return;
      }
      var gap := minute - newestMinute;
      if gap >= buckets.Length {
        Clear();
        newestMinute := minute;
        return;
      }
      Walk(newestMinute + 1, minute, minute - buckets.Length + 1);
      newestMinute := minute;
    }

    method Walk(from: int, minute: int, oldest: int)
      requires Consistent() && from <= minute + 1
      modifies this, buckets
      ensures Consistent() && buckets[..] == ExpireSlots(old(buckets[..]), from, minute, oldest)
      ensures history == old(history) && last == old(last) && newestMinute == old(newestMinute)
    {
      ghost var target := ExpireSlots(buckets[..], from, minute, oldest);
      var m := from;
      while m <= minute
        invariant from <= m <= minute + 1
        invariant Consistent() && history == old(history) && last == old(last) && newestMinute == old(newestMinute)
        invariant ExpireSlots(buckets[..], m, minute, oldest) == target
      {
        var i := Slot(m, buckets.Length);
        if buckets[i].set_ && buckets[i].minute < oldest {
          Expire(i);
        }
        m := m + 1;
      }
    }

    /** Removing a bucket: the sums shrink by it, and an extreme is looked for again only if
        the bucket held it. */
    method Expire(i: nat)
      requires Consistent() && i < buckets.Length && buckets[i].set_
      modifies this, buckets
      ensures Consistent() && buckets[..] == old(buckets[..])[i := EMPTY]
      ensures history == old(history) && last == old(last) && newestMinute == old(newestMinute)
    {
      ghost var r := buckets[..];
      var b := buckets[i];
      SumsAfterUpdate(r, i, EMPTY);
      volume := volume - b.volume;
      trades := trades - b.trades;
      count := count - 1;
      var heldHigh, heldLow, heldOpen := b.high == high, b.low == low, b.minute == openAt;
      buckets[i] := EMPTY;
      assert buckets[..] == r[i := EMPTY];
      CountZero(buckets[..]);
      assert Clean(buckets[..]) && Counted(buckets[..]);
      assert volume == Volume(buckets[..]) && trades == Trades(buckets[..]) && count == Count(buckets[..]);
      if count == 0 {
        high, low, open, openAt := 0, 0, 0, 0;
        return;
      }
      KeptExtremes(r, i, high, low, open, openAt);
      ghost var q := buckets[..];
      Recompute(heldHigh, heldLow, heldOpen);
      assert Caches(q, Cached());
    }

    /** Only what the expired bucket held is looked for again. */
    method Recompute(lostHigh: bool, lostLow: bool, lostOpen: bool)
      requires exists i :: 0 <= i < buckets.Length && buckets[i].set_
      requires (lostHigh || IsHigh(buckets[..], high)) && (lostLow || IsLow(buckets[..], low))
      requires lostOpen || IsOpen(buckets[..], open, openAt)
      modifies this`high, this`low, this`open, this`openAt
      ensures IsHigh(buckets[..], high) && IsLow(buckets[..], low) && IsOpen(buckets[..], open, openAt)
    {
      if lostHigh {
        RecomputeHigh();
      }
      if lostLow {
        RecomputeLow();
      }
      if lostOpen {
        RecomputeOpen();
      }
    }

    method RecomputeHigh()
      requires exists i :: 0 <= i < buckets.Length && buckets[i].set_
      modifies this`high
      ensures IsHigh(buckets[..], high)
    {
      var found := false;
      for i := 0 to buckets.Length
        invariant found <==> exists j :: 0 <= j < i && buckets[j].set_
        invariant found ==> IsHigh(buckets[..i], high)
      {
        if buckets[i].set_ && (!found || buckets[i].high > high) {
          high := buckets[i].high;
          found := true;
          assert buckets[..i + 1][i].high == high;
        }
        assert forall j :: 0 <= j < i ==> buckets[..i + 1][j] == buckets[..i][j];
      }
      assert buckets[..buckets.Length] == buckets[..];
    }

    method RecomputeLow()
      requires exists i :: 0 <= i < buckets.Length && buckets[i].set_
      modifies this`low
      ensures IsLow(buckets[..], low)
    {
      var found := false;
      for i := 0 to buckets.Length
        invariant found <==> exists j :: 0 <= j < i && buckets[j].set_
        invariant found ==> IsLow(buckets[..i], low)
      {
        if buckets[i].set_ && (!found || buckets[i].low < low) {
          low := buckets[i].low;
          found := true;
          assert buckets[..i + 1][i].low == low;
        }
        assert forall j :: 0 <= j < i ==> buckets[..i + 1][j] == buckets[..i][j];
      }
      assert buckets[..buckets.Length] == buckets[..];
    }

    method RecomputeOpen()
      requires exists i :: 0 <= i < buckets.Length && buckets[i].set_
      modifies this`open, this`openAt
      ensures IsOpen(buckets[..], open, openAt)
    {
      var first := 0;
      var found := false;
      for i := 0 to buckets.Length
        invariant found <==> exists j :: 0 <= j < i && buckets[j].set_
        invariant found ==> first == openAt && IsOpen(buckets[..i], open, openAt)
      {
        if buckets[i].set_ && (!found || buckets[i].minute < first) {
          first := buckets[i].minute;
          open := buckets[i].open;
          openAt := buckets[i].minute;
          found := true;
          assert buckets[..i + 1][i].minute == openAt;
        }
        assert forall j :: 0 <= j < i ==> buckets[..i + 1][j] == buckets[..i][j];
      }
      assert buckets[..buckets.Length] == buckets[..];
    }

    method Clear()
      requires buckets.Length > 0
      modifies this, buckets
      ensures Consistent() && buckets[..] == AllEmpty(buckets.Length) && Cached() == NO_DATA
      ensures history == old(history) && last == old(last) && newestMinute == old(newestMinute)
    {
      for i := 0 to buckets.Length
        invariant forall j :: 0 <= j < i ==> buckets[j] == EMPTY
        invariant history == old(history) && last == old(last) && newestMinute == old(newestMinute)
      {
        buckets[i] := EMPTY;
      }
      EmptySums(buckets[..]);
      volume, trades, count, high, low, open, openAt := 0, 0, 0, 0, 0, 0, 0;
      assert buckets[..] == AllEmpty(buckets.Length);
    }

    /** What subscribers see: the window's own figures while no trade was a window late. The
        window is the one that ends with the newest trade, whatever the time of the call. */
    method Snapshot() returns (s: MarketSummary)
      requires Valid() && Money.InInt64(open) && Money.InInt64(last)
      ensures s.last == last
      ensures Cached().(volume := s.volume, trades := s.trades, high := s.high, low := s.low, open := s.open)
              == Cached()
      ensures history != [] && NeverLate(buckets.Length, history) ==>
        SummaryWindow.IsSummary(Cached(), history, newestMinute - buckets.Length)
      ensures count == 0 ==> s.change == 0 && s.changeBP == 0
      ensures count > 0 ==> IsChange(open, last, s.change, s.changeBP)
    {
      var change, changeBP := 0, 0;
      if count > 0 {
        change, changeBP := ChangeSince(open, last);
      }
      if history != [] && NeverLate(buckets.Length, history) {
        ValidIsSummary(this);
      }
      s := MarketSummary(last, open, high, low, volume, change, changeBP, trades);
    }

    method Reset()
      requires buckets.Length > 0
      modifies this, buckets
      ensures Valid() && history == [] && last == 0 && buckets[..] == AllEmpty(buckets.Length)
    {
      Clear();
      last := 0;
      newestMinute := 0;
      history := [];
    }

    /** Folding a trade into its slot, which is free or already the trade's minute. */
    method FoldTrade(i: nat, minute: int, t: Trade)
      requires Consistent() && i < buckets.Length && (buckets[i].set_ ==> buckets[i].minute == minute)
      modifies this, buckets
      ensures Consistent() && buckets[..] == old(buckets[..])[i := Merged(old(buckets[i]), minute, t)]
      ensures history == old(history) && last == old(last) && newestMinute == old(newestMinute)
    {
      ghost var r := buckets[..];
      FoldKeepsCaches(r, Cached(), i, minute, t);
      var b := buckets[i];
      TouchCache(b.set_, b.trades, minute, t);
      if !b.set_ {
        b := Bucket(true, minute, b.volume, t.price, t.price, t.price, t.price, 0);
      } else {
        b := b.(high := if t.price > b.high then t.price else b.high,
                low := if t.price < b.low then t.price else b.low,
                close := t.price);
      }
      buckets[i] := b.(volume := b.volume + t.quantity, trades := b.trades + 1);
      assert buckets[..] == r[i := Merged(r[i], minute, t)];
    }

    method TouchCache(wasSet: bool, before: int, minute: int, t: Trade)
      modifies this`volume, this`trades, this`count, this`high, this`low, this`open, this`openAt
      ensures Cached() == FoldedCache(old(Cached()), wasSet, before, minute, t)
    {
      if !wasSet {
        count := count + 1;
        if count == 1 || minute < openAt {
          openAt := minute;
          open := t.price;
        }
      }
      volume := volume + t.quantity;
      trades := trades + 1;
      if count == 1 && before == 0 {
        high, low, open := t.price, t.price, t.price;
      } else {
        if t.price > high {
          high := t.price;
        }
        if t.price < low {
          low := t.price;
        }
      }
    }
  }

  lemma {:induction false} ValidIsSummary(s: Summary24h)
    requires s.Valid() && s.history != [] && NeverLate(s.buckets.Length, s.history)
    ensures SummaryWindow.IsSummary(s.Cached(), s.history, s.newestMinute - s.buckets.Length)
  {
    SummaryWindow.SummaryIsTheWindow(s.buckets.Length, s.history, s.Cached());
  }

  /** The cache after a trade is folded into a bucket with `before` trades. */
  function FoldedCache(c: Cache, wasSet: bool, before: int, minute: int, t: Trade): Cache {
    var count := if wasSet then c.count else c.count + 1;
    var first := count == 1 && before == 0;
    var opens := !wasSet && (count == 1 || minute < c.openAt);
    Cache(c.volume + t.quantity, c.trades + 1, count,
          if first || t.price > c.high then t.price else c.high,
          if first || t.price < c.low then t.price else c.low,
          if first || opens then t.price else c.open,
          if opens then minute else c.openAt)
  }

  lemma {:induction false} FoldKeepsCaches(r: seq<Bucket>, c: Cache, i: nat, minute: int, t: Trade)
    requires i < |r| && Clean(r) && Caches(r, c) && Counted(r) && (r[i].set_ ==> r[i].minute == minute)
    ensures Caches(r[i := Merged(r[i], minute, t)], FoldedCache(c, r[i].set_, r[i].trades, minute, t))
  {
    var b := Merged(r[i], minute, t);
    var q, d := r[i := b], FoldedCache(c, r[i].set_, r[i].trades, minute, t);
    SumsAfterUpdate(r, i, b);
    CountZero(r);
    assert q[i] == b;
    if c.count > 0 {
      var h :| 0 <= h < |r| && r[h].set_ && r[h].high == c.high;
      var l :| 0 <= l < |r| && r[l].set_ && r[l].low == c.low;
      var o :| 0 <= o < |r| && r[o].set_ && r[o].open == c.open && r[o].minute == c.openAt;
      assert q[h] == if h == i then b else r[h];
      assert q[l] == if l == i then b else r[l];
      assert q[o] == if o == i then b else r[o];
    }
  }

  lemma {:induction false} KeptExtremes(r: seq<Bucket>, i: nat, high: int, low: int, open: int, openAt: int)
    requires i < |r| && IsHigh(r, high) && IsLow(r, low) && IsOpen(r, open, openAt)
    ensures var q := r[i := EMPTY];
      && (r[i].high != high ==> IsHigh(q, high))
      && (r[i].low != low ==> IsLow(q, low))
      && (r[i].minute != openAt ==> IsOpen(q, open, openAt))
  {
    var q := r[i := EMPTY];
    var h :| 0 <= h < |r| && r[h].set_ && r[h].high == high;
    var l :| 0 <= l < |r| && r[l].set_ && r[l].low == low;
    var o :| 0 <= o < |r| && r[o].set_ && r[o].open == open && r[o].minute == openAt;
    assert h != i ==> q[h] == r[h];
    assert l != i ==> q[l] == r[l];
    assert o != i ==> q[o] == r[o];
  }
}
