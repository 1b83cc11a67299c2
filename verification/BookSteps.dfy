/**
 The canonical book's transitions (market/book.go) as relations between states. The random
 choices of the source are left open within their bounds.
 */
module BookSteps {
  import opened Levels
  import opened BookSides

  datatype BookState = BookState(epoch: nat, updateID: nat, bids: seq<Level>, asks: seq<Level>)

  /** What a transition publishes: nothing, a new window, or an invariant violation. */
  datatype Outcome = Nothing | Mutation(updateID: nat, bids: seq<Level>, asks: seq<Level>) | Violation

  ghost predicate Uncrossed(bids: seq<Level>, asks: seq<Level>) {
    bids != [] && asks != [] ==> bids[0].price < asks[0].price
  }

  ghost predicate Ordered(s: BookState) {
    StrictlyOrdered(s.bids, true) && StrictlyOrdered(s.asks, false) && Uncrossed(s.bids, s.asks)
  }

  ghost predicate Priced(side: seq<Level>) {
    forall i :: 0 <= i < |side| ==> side[i].price >= 1
  }

  ghost predicate WellFormed(s: BookState, maxLevels: nat) {
    && Ordered(s) && Positive(s.bids) && Positive(s.asks) && Priced(s.bids) && Priced(s.asks)
    && |s.bids| <= maxLevels && |s.asks| <= maxLevels
  }

  function Top(side: seq<Level>, n: int): seq<Level> {
    if n <= 0 || n > |side| then side else side[..n]
  }

  function TrimTo(levels: seq<Level>, n: nat): seq<Level> {
    if |levels| <= n then levels else levels[..n]
  }

  /** The end of every transition: the ordering is checked; a violation is reported and the
      changed levels stay, otherwise the update id moves by one. */
  ghost predicate Checked(s: BookState, bids: seq<Level>, asks: seq<Level>, window: int, s': BookState, o: Outcome) {
    var next := BookState(s.epoch, s.updateID, bids, asks);
    if Ordered(next)
    then s' == next.(updateID := s.updateID + 1) && o == Mutation(s.updateID + 1, Top(bids, window), Top(asks, window))
    else s' == next && o == Violation
  }

  // ----- a trade

  predicate Exhausts(side: seq<Level>, quantity: int)
    requires side != []
  {
    side[0].quantity - quantity <= 0
  }

  function FarPrice(side: seq<Level>, gap: int, descending: bool): int
    requires side != []
  {
    var p := side[|side| - 1].price + if descending then -gap else gap;
    if p <= 0 then 1 else p
  }

  function Refilled(rest: seq<Level>, gap: int, quantity: int, descending: bool): seq<Level>
    requires rest != []
  {
    var added := Level(FarPrice(rest, gap, descending), quantity);
    if descending then Inserted(rest, added, true) else rest + [added]
  }

  /** One side after a trade: the touch shrinks, or goes and a level is added at the far end. */
  ghost predicate Consumed(side: seq<Level>, quantity: int, descending: bool, side': seq<Level>)
    requires side != []
  {
    if !Exhausts(side, quantity)
    then side' == side[0 := side[0].(quantity := side[0].quantity - quantity)]
    else |side| >= 2 && exists gap, q ::
      1 <= gap <= 2 && q >= 1 && side' == Refilled(side[1..], gap, q, descending)
  }

  /** The source indexes past the end of a side of one level it exhausts. */
  predicate CanTrade(s: BookState, quantity: int, buy: bool) {
    s.bids != [] && s.asks != [] ==>
      var side := if buy then s.asks else s.bids;
      Exhausts(side, quantity) ==> |side| >= 2
  }

  ghost predicate TradeStep(s: BookState, quantity: int, buy: bool, window: int, s': BookState, o: Outcome) {
    if s.bids == [] || s.asks == [] then s' == s && o == Nothing
    else
      && Consumed(if buy then s.asks else s.bids, quantity, !buy, if buy then s'.asks else s'.bids)
      && Checked(s, if buy then s.bids else s'.bids, if buy then s'.asks else s.asks, window, s', o)
  }

  lemma {:induction false} AppendKeepsOrder(side: seq<Level>, l: Level, descending: bool)
    requires StrictlyOrdered(side, descending) && side != []
    requires Better(side[|side| - 1].price, l.price, descending)
    ensures StrictlyOrdered(side + [l], descending)
  {
    forall i | 0 <= i < |side| ensures Better(side[i].price, l.price, descending) {
      assert i < |side| - 1 ==> Better(side[i].price, side[|side| - 1].price, descending);
    }
  }

  lemma {:induction false} WorstInsertsLast(side: seq<Level>, l: Level, descending: bool)
    requires forall i :: 0 <= i < |side| ==> !Better(l.price, side[i].price, descending)
    ensures Inserted(side, l, descending) == side + [l]
  {
    InsertIndexIsFirst(side, l.price, descending);
  }

  /** The far end of a well-formed side, one tick or two further, is in order unless it is
      the bid side and its lowest price is already one. */
  lemma {:induction false} RefillKeepsOrder(side: seq<Level>, gap: int, q: int, descending: bool)
    requires StrictlyOrdered(side, descending) && Positive(side) && Priced(side) && |side| >= 2
    requires 1 <= gap <= 2 && q >= 1
    ensures var out := Refilled(side[1..], gap, q, descending);
      && |out| == |side| && Priced(out) && Positive(out)
      && out[..|side| - 1] == side[1..]
      && (StrictlyOrdered(out, descending) <==> !descending || side[|side| - 1].price > 1)
  {
    var rest, n := side[1..], |side| - 2;
    var added := Level(FarPrice(rest, gap, descending), q);
    assert rest[n] == side[n + 1];
    assert StrictlyOrdered(rest, descending);
    forall i | 0 <= i < |rest| ensures !Better(added.price, rest[i].price, descending) {
      assert i < n ==> Better(rest[i].price, rest[n].price, descending);
    }
    WorstInsertsLast(rest, added, descending);
    if Better(rest[n].price, added.price, descending) {
      AppendKeepsOrder(rest, added, descending);
    } else {
      assert (rest + [added])[n] == rest[n] && (rest + [added])[n + 1] == added;
    }
  }

  /** Not better than before: the touch only moves away. */
  ghost predicate NoBetter(side: seq<Level>, side': seq<Level>, descending: bool) {
    side != [] && side' != [] && !Better(side'[0].price, side[0].price, descending)
  }

  lemma {:induction false} ConsumeKeepsSide(side: seq<Level>, quantity: int, descending: bool, side': seq<Level>)
    requires side != [] && StrictlyOrdered(side, descending) && Positive(side) && Priced(side)
    requires Consumed(side, quantity, descending, side')
    ensures |side'| == |side| && Positive(side') && Priced(side') && NoBetter(side, side', descending)
    ensures StrictlyOrdered(side', descending)
            <==> !descending || !Exhausts(side, quantity) || side[|side| - 1].price > 1
  {
    if Exhausts(side, quantity) {
      var gap, q :| 1 <= gap <= 2 && q >= 1 && side' == Refilled(side[1..], gap, q, descending);
      RefillKeepsOrder(side, gap, q, descending);
      assert side'[0] == side'[..|side| - 1][0] == side[1];
      assert Better(side[0].price, side[1].price, descending);
    }
  }

  /** ApplyTrade from a well-formed book: it fails exactly when a sell exhausts the best bid
      while the lowest bid is at price one; otherwise the book stays well formed, keeps its
      depth on both sides, and moves by one update. */
  lemma {:induction false} TradeExactly(s: BookState, quantity: int, buy: bool, window: int, maxLevels: nat,
                                        s': BookState, o: Outcome)
    requires WellFormed(s, maxLevels) && s.bids != [] && s.asks != []
    requires TradeStep(s, quantity, buy, window, s', o)
    ensures o.Violation? <==> !buy && Exhausts(s.bids, quantity) && s.bids[|s.bids| - 1].price == 1
    ensures !o.Violation? ==>
      && WellFormed(s', maxLevels) && |s'.bids| == |s.bids| && |s'.asks| == |s.asks|
      && s'.updateID == s.updateID + 1 && o == Mutation(s'.updateID, Top(s'.bids, window), Top(s'.asks, window))
  {
    if buy {
      ConsumeKeepsSide(s.asks, quantity, false, s'.asks);
    } else {
      ConsumeKeepsSide(s.bids, quantity, true, s'.bids);
    }
  }

  // ----- churn

  function Without(a: seq<Level>, i: nat): seq<Level>
    requires i < |a|
  {
    a[..i] + a[i + 1..]
  }

  function Resized(a: seq<Level>, i: nat, q: int): seq<Level>
    requires i < |a|
  {
    a[i := Level(a[i].price, q)]
  }

  /** One random mutation: a level goes if the side is deep, or is resized. */
  ghost predicate MutateStep(a: seq<Level>, b: seq<Level>) {
    || (|a| > 20 && exists i :: 0 <= i < |a| && b == Without(a, i))
    || (exists i, q :: 0 <= i < |a| && q >= 1 && b == Resized(a, i, q))
  }

  ghost predicate Mutates(a: seq<Level>, b: seq<Level>, n: nat)
    decreases n
  {
    if n == 0 then a == b else exists m :: Mutates(a, m, n - 1) && MutateStep(m, b)
  }

  /** A level one or two ticks beyond the last; never a bid below one. */
  predicate Beyond(last: Level, next: Level, descending: bool) {
    next.quantity >= 1 &&
    var d := next.price - last.price;
    if descending then -2 <= d <= -1 && next.price >= 1 else 1 <= d <= 2
  }

  /** Levels added at the far end, one or two ticks apart, up to the depth; bids stop early
      when the next price would not be positive. */
  ghost predicate Extended(a: seq<Level>, b: seq<Level>, maxLevels: nat, descending: bool) {
    && a != [] && a <= b
    && (forall i :: |a| <= i < |b| ==> Beyond(b[i - 1], b[i], descending))
    && (|b| < maxLevels ==> descending && b[|b| - 1].price <= 2)
    && (|b| > |a| ==> |b| <= maxLevels)
  }

  ghost predicate Churned(side: seq<Level>, side': seq<Level>, maxLevels: nat, descending: bool) {
    exists k, m :: 1 <= k <= 3 && Mutates(side, m, k) && Extended(m, side', maxLevels, descending)
  }

  predicate NeedsRecenter(s: BookState, mid: int, maxLevels: nat)
    requires s.bids != [] && s.asks != []
  {
    mid > 0 &&
    (|s.bids| < maxLevels * 3 / 4 || |s.asks| < maxLevels * 3 / 4
     || s.asks[0].price - s.bids[0].price > Tolerance(maxLevels)
     || s.bids[0].price > mid || s.asks[0].price < mid)
  }

  function Tolerance(maxLevels: nat): int {
    if 6 * maxLevels / 100 < 6 then 6 else 6 * maxLevels / 100
  }

  /** A side that only lost or resized levels. */
  ghost predicate Thinner(a: seq<Level>, b: seq<Level>, descending: bool) {
    && StrictlyOrdered(b, descending) && Positive(b) && Priced(b)
    && b != [] && |b| <= |a| && (|a| >= 2 ==> |b| >= 2)
    && (a[0].price == b[0].price || Better(a[0].price, b[0].price, descending))
  }

  lemma {:induction false} WithoutThins(a: seq<Level>, i: nat, descending: bool)
    requires StrictlyOrdered(a, descending) && Positive(a) && Priced(a) && |a| > 2 && i < |a|
    ensures Thinner(a, Without(a, i), descending)
  {
    var b := Without(a, i);
    assert forall j :: 0 <= j < |b| ==> b[j] == if j < i then a[j] else a[j + 1];
    assert Better(a[0].price, a[1].price, descending);
  }

  lemma {:induction false} MutateThins(a: seq<Level>, b: seq<Level>, descending: bool)
    requires StrictlyOrdered(a, descending) && Positive(a) && Priced(a) && a != [] && MutateStep(a, b)
    ensures Thinner(a, b, descending)
  {
    if |a| > 20 && exists i :: 0 <= i < |a| && b == Without(a, i) {
      var i :| 0 <= i < |a| && b == Without(a, i);
      WithoutThins(a, i, descending);
    }
  }

  lemma {:induction false} MutatesThin(a: seq<Level>, b: seq<Level>, n: nat, descending: bool)
    requires StrictlyOrdered(a, descending) && Positive(a) && Priced(a) && a != [] && Mutates(a, b, n)
    ensures Thinner(a, b, descending)
    decreases n
  {
    if n > 0 {
      var m :| Mutates(a, m, n - 1) && MutateStep(m, b);
      MutatesThin(a, m, n - 1, descending);
      MutateThins(m, b, descending);
    }
  }

  lemma {:induction false} ExtendKeepsOrder(a: seq<Level>, b: seq<Level>, maxLevels: nat, descending: bool)
    requires StrictlyOrdered(a, descending) && Positive(a) && Priced(a) && Extended(a, b, maxLevels, descending)
    ensures StrictlyOrdered(b, descending) && Positive(b) && Priced(b)
    decreases |b|
  {
    if |b| > |a| {
      var n := |b| - 1;
      ExtendPrefix(a, b, n, descending);
      AppendKeepsOrder(b[..n], b[n], descending);
      assert b == b[..n] + [b[n]];
    } else {
      assert a == b;
    }
  }

  lemma {:induction false} ExtendPrefix(a: seq<Level>, b: seq<Level>, n: nat, descending: bool)
    requires StrictlyOrdered(a, descending) && Positive(a) && Priced(a) && a != [] && a <= b && |a| <= n < |b|
    requires forall i :: |a| <= i < |b| ==> Beyond(b[i - 1], b[i], descending)
    ensures StrictlyOrdered(b[..n], descending) && Positive(b[..n]) && Priced(b[..n])
    ensures Better(b[n - 1].price, b[n].price, descending) && b[n].price >= 1
    decreases n
  {
    if n > |a| {
      ExtendPrefix(a, b, n - 1, descending);
      AppendKeepsOrder(b[..n - 1], b[n - 1], descending);
      assert b[..n] == b[..n - 1] + [b[n - 1]];
    } else {
      assert b[..n] == a && b[n - 1] == a[n - 1];
    }
    assert Beyond(b[n - 1], b[n], descending);
  }

  lemma {:induction false} ChurnKeepsSide(side: seq<Level>, side': seq<Level>, maxLevels: nat, descending: bool)
    requires StrictlyOrdered(side, descending) && Positive(side) && Priced(side) && side != [] && |side| <= maxLevels
    requires Churned(side, side', maxLevels, descending)
    ensures StrictlyOrdered(side', descending) && Positive(side') && Priced(side')
    ensures side' != [] && (side[0].price == side'[0].price || Better(side[0].price, side'[0].price, descending))
    ensures |side'| <= maxLevels && (|side| >= 2 ==> |side'| >= 2)
    ensures |side'| == maxLevels || (descending && side'[|side'| - 1].price <= 2)
  {
    var k, m :| 1 <= k <= 3 && Mutates(side, m, k) && Extended(m, side', maxLevels, descending);
    MutatesThin(side, m, k, descending);
    ExtendKeepsOrder(m, side', maxLevels, descending);
  }

  /** Churn from a well-formed book never fails; it leaves the asks at full depth, and the
      bids too unless they have come down to the last prices there are. */
  lemma {:induction false} ChurnIsSafe(s: BookState, bids: seq<Level>, asks: seq<Level>, window: int, maxLevels: nat,
                                       s': BookState, o: Outcome)
    requires WellFormed(s, maxLevels) && s.bids != [] && s.asks != []
    requires Churned(s.bids, bids, maxLevels, true) && Churned(s.asks, asks, maxLevels, false)
    requires Checked(s, bids, asks, window, s', o)
    ensures o.Mutation? && WellFormed(s', maxLevels) && s'.updateID == s.updateID + 1
    ensures |s.bids| >= 2 && |s.asks| >= 2 ==> |s'.bids| >= 2 && |s'.asks| >= 2
    ensures |s'.asks| == maxLevels && (|s'.bids| == maxLevels || s'.bids[|s'.bids| - 1].price <= 2)
  {
    ChurnKeepsSide(s.bids, bids, maxLevels, true);
    ChurnKeepsSide(s.asks, asks, maxLevels, false);
  }
}
