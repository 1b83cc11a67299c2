/**
 What the transitions of the canonical book do to its levels (market/book.go), price by price
 on the map each side stands for.
 */
module BookEffects {
  import opened Domain
  import opened Levels
  import opened BookSides
  import opened BookSteps
  import opened BookRuns

  // ----- a trade

  /** The best level gave up `quantity`. */
  ghost predicate Shrunk(side: seq<Level>, side': seq<Level>, quantity: int)
    requires side != []
  {
    forall p :: At(LevelMap(side'), p) == At(LevelMap(side), p) - if p == side[0].price then quantity else 0
  }

  /** The best level went, and one came, a tick or two beyond the last. */
  ghost predicate Shifted(side: seq<Level>, side': seq<Level>, descending: bool, added: int)
    requires side != []
  {
    var last := side[|side| - 1].price;
    && 1 <= (if descending then last - added else added - last) <= 2
    && added !in LevelMap(side) && At(LevelMap(side'), added) >= 1
    && side[0].price !in LevelMap(side')
    && forall p :: p != added && p != side[0].price ==> At(LevelMap(side'), p) == At(LevelMap(side), p)
  }

  lemma {:induction false} OrderedReads(side: seq<Level>, descending: bool, i: nat)
    requires StrictlyOrdered(side, descending) && i < |side|
    ensures side[i].price in LevelMap(side) && LevelMap(side)[side[i].price] == side[i].quantity
  {
    OrderedHasNoDuplicates(side, descending);
    LevelMapReplace(side, i, side[i]);
    assert side[i := side[i]] == side;
  }

  lemma {:induction false} TouchShrinks(side: seq<Level>, quantity: int, descending: bool, side': seq<Level>)
    requires StrictlyOrdered(side, descending) && side != [] && side[0].quantity > quantity
    requires Consumed(side, quantity, descending, side')
    ensures Shrunk(side, side', quantity)
  {
    OrderedHasNoDuplicates(side, descending);
    OrderedReads(side, descending, 0);
    LevelMapReplace(side, 0, side[0].(quantity := side[0].quantity - quantity));
  }

  lemma {:induction false} LastIsWorst(side: seq<Level>, price: int, descending: bool)
    requires StrictlyOrdered(side, descending) && side != []
    requires Better(side[|side| - 1].price, price, descending)
    ensures price !in LevelMap(side)
  {
    LevelMapKeys(side, price);
    forall i | 0 <= i < |side| ensures side[i].price != price {
      assert i < |side| - 1 ==> Better(side[i].price, side[|side| - 1].price, descending);
    }
  }

  lemma {:induction false} TouchGoes(side: seq<Level>, quantity: int, descending: bool, side': seq<Level>)
    returns (added: int)
    requires StrictlyOrdered(side, descending) && Positive(side) && Priced(side) && |side| >= 2
    requires side[0].quantity <= quantity && Consumed(side, quantity, descending, side')
    requires descending ==> side[|side| - 1].price > 1
    ensures Shifted(side, side', descending, added)
  {
    var gap, q :| 1 <= gap <= 2 && q >= 1 && side' == Refilled(side[1..], gap, q, descending);
    assert StrictlyOrdered(side[1..], descending) && side[1..][|side| - 2] == side[|side| - 1];
    var l := RefillGap(side[1..], gap, q, descending);
    added := l.price;
    ShiftedMap(side, l, descending);
  }

  lemma {:induction false} RefillGap(rest: seq<Level>, gap: int, q: int, descending: bool) returns (l: Level)
    requires rest != [] && 1 <= gap <= 2 && (descending ==> rest[|rest| - 1].price > 1)
    requires StrictlyOrdered(rest, descending) && Priced(rest)
    ensures Refilled(rest, gap, q, descending) == rest + [l] && l.quantity == q
    ensures var last := rest[|rest| - 1].price; 1 <= (if descending then last - l.price else l.price - last) <= 2
  {
    l := Level(FarPrice(rest, gap, descending), q);
    var n := |rest| - 1;
    forall i | 0 <= i < |rest| ensures !Better(l.price, rest[i].price, descending) {
      assert i < n ==> Better(rest[i].price, rest[n].price, descending);
    }
    WorstInsertsLast(rest, l, descending);
  }

  lemma {:induction false} ShiftedMap(side: seq<Level>, l: Level, descending: bool)
    requires StrictlyOrdered(side, descending) && side != []
    requires Better(side[|side| - 1].price, l.price, descending)
    ensures l.price !in LevelMap(side) && l.price != side[0].price
    ensures LevelMap(side[1..] + [l]) == (LevelMap(side) - {side[0].price})[l.price := l.quantity]
  {
    LastIsWorst(side, l.price, descending);
    OrderedReads(side, descending, 0);
    OrderedHasNoDuplicates(side, descending);
    DeleteIsRemoval(side, 0);
    assert side[..0] + side[1..] == side[1..];
    LevelMapAppend(side[1..], l);
  }

  /** What a trade does, price by price: short of exhausting the touch it takes exactly its
      quantity there; otherwise the touch goes and one level comes in beyond the last. The
      other side is not touched. */
  lemma {:induction false} TradeTakes(s: BookState, quantity: int, buy: bool, window: int, maxLevels: nat,
                                      s': BookState, o: Outcome)
    requires WellFormed(s, maxLevels) && s.bids != [] && s.asks != []
    requires TradeStep(s, quantity, buy, window, s', o) && !o.Violation?
    ensures if buy then s'.bids == s.bids else s'.asks == s.asks
    ensures var side, side', descending := if buy then s.asks else s.bids, if buy then s'.asks else s'.bids, !buy;
      if side[0].quantity > quantity then Shrunk(side, side', quantity)
      else exists added :: Shifted(side, side', descending, added)
  {
    TradeExactly(s, quantity, buy, window, maxLevels, s', o);
    var side, side' := if buy then s.asks else s.bids, if buy then s'.asks else s'.bids;
    if side[0].quantity > quantity {
      TouchShrinks(side, quantity, !buy, side');
    } else {
      var added := TouchGoes(side, quantity, !buy, side');
    }
  }

  // ----- what is published and what is kept

  /** The published windows are the best levels of the new book, as many as the window holds,
      and all of them if there is no window. */
  lemma {:induction false} PublishesTheBest(s: BookState, bids: seq<Level>, asks: seq<Level>, window: int,
                                            s': BookState, o: Outcome)
    requires Checked(s, bids, asks, window, s', o) && o.Mutation?
    ensures o.bids <= s'.bids && |o.bids| == WindowSize(s'.bids, window)
    ensures o.asks <= s'.asks && |o.asks| == WindowSize(s'.asks, window)
    ensures forall i, j :: 0 <= i < |o.bids| <= j < |s'.bids| ==> Better(o.bids[i].price, s'.bids[j].price, true)
    ensures forall i, j :: 0 <= i < |o.asks| <= j < |s'.asks| ==> Better(o.asks[i].price, s'.asks[j].price, false)
    ensures s'.bids == bids && s'.asks == asks && o.updateID == s'.updateID == s.updateID + 1
  {
  }

  function WindowSize(side: seq<Level>, window: int): nat {
    if 0 < window < |side| then window else |side|
  }

  /** A snapshot deeper than the book is cut at the far end and nowhere else. */
  lemma {:induction false} TrimKeepsTheBest(levels: seq<Level>, n: nat, descending: bool)
    requires StrictlyOrdered(levels, descending)
    ensures var kept := TrimTo(levels, n);
      && kept <= levels && |kept| == (if |levels| <= n then |levels| else n)
      && forall i, j :: 0 <= i < |kept| <= j < |levels| ==> Better(kept[i].price, levels[j].price, descending)
  {
  }

  // ----- re-centring

  /** The touch settles on the mid: as far below as above, one tick if the mid is even and
      two if it is odd. */
  lemma {:induction false} TouchIsSymmetric(s: BookState, mid: int, maxLevels: nat, window: int, s': BookState,
                                            o: Outcome)
    requires maxLevels >= 2 && mid > 0 && Positive(s.bids) && Positive(s.asks)
    requires RecenterStep(s, mid, maxLevels, window, s', o) && !o.Violation?
    ensures |s'.bids| == |s'.asks| == maxLevels
    ensures mid - s'.bids[0].price == s'.asks[0].price - mid == if mid % 2 == 0 then 1 else 2
  {
    RecenterExactly(s, mid, maxLevels, window, s', o);
    assert s'.bids[0].price == BidPrice(BestBidAt(mid), 0) && s'.asks[0].price == AskPrice(BestAskAt(mid), 0);
  }

  /** Below it the levels spread out: the next is one tick further for every twenty levels
      there are above it, and sizes stay with their depth. */
  lemma {:induction false} LadderSpreads(s: BookState, mid: int, maxLevels: nat, window: int, s': BookState,
                                         o: Outcome, i: nat)
    requires maxLevels >= 2 && mid > 0 && Positive(s.bids) && Positive(s.asks)
    requires RecenterStep(s, mid, maxLevels, window, s', o) && !o.Violation? && i < maxLevels
    ensures 0 < i < maxLevels - 1 ==> s'.bids[i - 1].price - s'.bids[i].price == 1 + i / 20
    ensures i > 0 ==> s'.asks[i].price - s'.asks[i - 1].price == 1 + i / 20
    ensures i < |s.bids| ==> s'.bids[i].quantity == s.bids[i].quantity
    ensures i < |s.asks| ==> s'.asks[i].quantity == s.asks[i].quantity
  {
    RecenterExactly(s, mid, maxLevels, window, s', o);
    RepricedAt(s.bids, s'.bids, maxLevels, BestBidAt(mid), true, i);
    RepricedAt(s.asks, s'.asks, maxLevels, BestAskAt(mid), false, i);
  }

  lemma {:induction false} RepricedAt(side: seq<Level>, side': seq<Level>, n: nat, best: int, descending: bool, i: nat)
    requires Repriced(side, side', n, best, descending) && i < n && n >= 2
    requires descending ==> best - Steps(n - 2) >= 2
    ensures i < |side| ==> side'[i].quantity == side[i].quantity
    ensures 0 < i && !descending ==> side'[i].price - side'[i - 1].price == 1 + i / 20
    ensures 0 < i < n - 1 && descending ==> side'[i - 1].price - side'[i].price == 1 + i / 20
  {
    if 0 < i < n - 1 && descending {
      BidGap(best, i, n - 2);
    }
  }

  lemma {:induction false} BidGap(best: int, i: nat, n: nat)
    requires 0 < i <= n && best - Steps(n) >= 2
    ensures BidPrice(best, i - 1) - BidPrice(best, i) == 1 + i / 20
  {
    StepsIncrease(i, n);
    StepsIncrease(i - 1, n);
    StepsIncrease(0, n);
    BidPriceIs(best, i);
    BidPriceIs(best, i - 1);
  }

  // ----- a refresh

  /** After any refresh of a good book that is not reported, the touch is around the mid. */
  lemma {:induction false} RefreshStraddles(s: BookState, mid: int, maxLevels: nat, window: int, s': BookState,
                                            o: Outcome)
    requires maxLevels >= 2 && mid > 0 && Good(s, maxLevels)
    requires RefreshStep(s, mid, maxLevels, window, s', o) && !o.Violation?
    ensures s'.bids != [] && s'.asks != [] && s'.bids[0].price <= mid <= s'.asks[0].price
  {
    if NeedsRecenter(s, mid, maxLevels) {
      TouchIsSymmetric(s, mid, maxLevels, window, s', o);
    } else {
      ChurnKeepsSide(s.bids, s'.bids, maxLevels, true);
      ChurnKeepsSide(s.asks, s'.asks, maxLevels, false);
    }
  }

  /** A book the market has left: a side under three quarters of the depth, a spread over six
      ticks and over 6% of the depth, or a touch on the wrong side of the mid. */
  predicate Stranded(s: BookState, mid: int, maxLevels: nat)
    requires s.bids != [] && s.asks != []
  {
    var spread := s.asks[0].price - s.bids[0].price;
    || |s.bids| < maxLevels * 3 / 4 || |s.asks| < maxLevels * 3 / 4
    || (spread > 6 && spread > 6 * maxLevels / 100)
    || s.bids[0].price > mid || s.asks[0].price < mid
  }

  /** Such a book, and no other, is rebuilt around the mid by a refresh; any other keeps all
      but three levels of each side. */
  lemma {:induction false} RefreshRebuildsExactly(s: BookState, mid: int, maxLevels: nat, window: int, s': BookState,
                                                  o: Outcome)
    requires maxLevels >= 2 && mid > 0 && Good(s, maxLevels)
    requires RefreshStep(s, mid, maxLevels, window, s', o) && !o.Violation?
    ensures Stranded(s, mid, maxLevels) ==>
      && |s'.bids| == |s'.asks| == maxLevels
      && mid - s'.bids[0].price == s'.asks[0].price - mid == if mid % 2 == 0 then 1 else 2
    ensures !Stranded(s, mid, maxLevels) ==>
      && (exists touched :: KeptAllBut(s.bids, s'.bids, touched, true))
      && (exists touched :: KeptAllBut(s.asks, s'.asks, touched, false))
      && (exists n :: FilledFrom(s.bids, s'.bids, n, true)) && (exists n :: FilledFrom(s.asks, s'.asks, n, false))
  {
    if Stranded(s, mid, maxLevels) {
      TouchIsSymmetric(s, mid, maxLevels, window, s', o);
    } else {
      var bids := ChurnTouchesFew(s.bids, s'.bids, maxLevels, true);
      var asks := ChurnTouchesFew(s.asks, s'.asks, maxLevels, false);
      var b := ChurnFills(s.bids, s'.bids, maxLevels, true);
      var a := ChurnFills(s.asks, s'.asks, maxLevels, false);
    }
  }

  // ----- churn

  /** At most three prices changed; what is new is worse than everything that did not. */
  ghost predicate KeptAllBut(side: seq<Level>, side': seq<Level>, touched: set<int>, descending: bool) {
    && |touched| <= 3 && touched <= LevelMap(side).Keys
    && (forall p :: p in LevelMap(side) && p !in touched ==>
          p in LevelMap(side') && LevelMap(side')[p] == LevelMap(side)[p])
    && (forall p, q :: p in LevelMap(side') && p !in LevelMap(side) && q in LevelMap(side) && q !in touched ==>
          Better(q, p, descending))
  }

  /** Old prices first; from the `n`-th level on each is a tick or two beyond the one before. */
  ghost predicate FilledFrom(side: seq<Level>, side': seq<Level>, n: nat, descending: bool) {
    && 0 < n <= |side'|
    && (forall i :: 0 <= i < n ==> side'[i].price in LevelMap(side))
    && forall i :: n <= i < |side'| ==>
         side'[i].quantity >= 1 && 1 <= Distance(side'[i - 1], side'[i], descending) <= 2
  }

  function Distance(near: Level, far: Level, descending: bool): int {
    if descending then near.price - far.price else far.price - near.price
  }

  lemma {:induction false} ChurnFills(side: seq<Level>, side': seq<Level>, maxLevels: nat, descending: bool)
    returns (n: nat)
    requires StrictlyOrdered(side, descending) && Positive(side) && Priced(side) && side != [] && |side| <= maxLevels
    requires Churned(side, side', maxLevels, descending)
    ensures FilledFrom(side, side', n, descending)
  {
    var k, m: seq<Level> :| 1 <= k <= 3 && Mutates(side, m, k) && Extended(m, side', maxLevels, descending);
    var touched := MutatesTouchFew(side, m, k, descending);
    n := |m|;
    ThinnedPrices(side, m, touched, descending);
    ExtensionFills(side, m, side', maxLevels, descending);
  }

  lemma {:induction false} ThinnedPrices(side: seq<Level>, m: seq<Level>, touched: set<int>, descending: bool)
    requires Thinned(side, m, touched) && StrictlyOrdered(m, descending)
    ensures forall i :: 0 <= i < |m| ==> m[i].price in LevelMap(side)
  {
    forall i | 0 <= i < |m| ensures m[i].price in LevelMap(side) {
      OrderedReads(m, descending, i);
      assert m[i].price in LevelMap(m).Keys;
    }
  }

  lemma {:induction false} ExtensionFills(side: seq<Level>, m: seq<Level>, side': seq<Level>, maxLevels: nat,
                                          descending: bool)
    requires Extended(m, side', maxLevels, descending) && forall i :: 0 <= i < |m| ==> m[i].price in LevelMap(side)
    ensures FilledFrom(side, side', |m|, descending)
  {
    forall i | |m| <= i < |side'|
      ensures side'[i].quantity >= 1 && 1 <= Distance(side'[i - 1], side'[i], descending) <= 2
    {
      assert Beyond(side'[i - 1], side'[i], descending);
    }
  }

  /** Levels removed or resized, at the prices `touched`, and nothing else. */
  ghost predicate Thinned(side: seq<Level>, m: seq<Level>, touched: set<int>) {
    && touched <= LevelMap(side).Keys && LevelMap(m).Keys <= LevelMap(side).Keys
    && forall p :: p in LevelMap(side) && p !in touched ==> p in LevelMap(m) && LevelMap(m)[p] == LevelMap(side)[p]
  }

  lemma {:induction false} MutateTouchesOne(a: seq<Level>, b: seq<Level>, descending: bool) returns (price: int)
    requires StrictlyOrdered(a, descending) && MutateStep(a, b)
    ensures Thinned(a, b, {price})
  {
    OrderedHasNoDuplicates(a, descending);
    if i :| |a| > 20 && 0 <= i < |a| && b == Without(a, i) {
      price := a[i].price;
      OrderedReads(a, descending, i);
      DeleteIsRemoval(a, i);
    } else {
      var i, q :| 0 <= i < |a| && q >= 1 && b == Resized(a, i, q);
      price := a[i].price;
      OrderedReads(a, descending, i);
      LevelMapReplace(a, i, Level(price, q));
    }
  }

  lemma {:induction false} ThinnedTwice(side: seq<Level>, m: seq<Level>, b: seq<Level>, touched: set<int>, price: int)
    requires Thinned(side, m, touched) && Thinned(m, b, {price})
    ensures Thinned(side, b, touched + {price}) && |touched + {price}| <= |touched| + 1
  {
    assert touched + {price} == touched + ({price} - touched);
    SubsetSize({price} - touched, {price});
  }

  lemma {:induction false} MutatesTouchFew(side: seq<Level>, b: seq<Level>, n: nat, descending: bool)
    returns (touched: set<int>)
    requires StrictlyOrdered(side, descending) && Positive(side) && Priced(side) && side != [] && Mutates(side, b, n)
    ensures Thinned(side, b, touched) && |touched| <= n
    ensures StrictlyOrdered(b, descending) && b != []
    decreases n
  {
    touched := {};
    if n > 0 {
      var m :| Mutates(side, m, n - 1) && MutateStep(m, b);
      var before := MutatesTouchFew(side, m, n - 1, descending);
      MutatesThin(side, m, n - 1, descending);
      MutateThins(m, b, descending);
      var price := MutateTouchesOne(m, b, descending);
      ThinnedTwice(side, m, b, before, price);
      touched := before + {price};
    }
  }

  /** New levels at the far end leave the others alone. */
  lemma {:induction false} ExtendAdds(a: seq<Level>, b: seq<Level>, descending: bool)
    requires a <= b && StrictlyOrdered(b, descending)
    ensures forall p :: p in LevelMap(a) ==> p in LevelMap(b) && LevelMap(b)[p] == LevelMap(a)[p]
    ensures forall p, q :: p in LevelMap(b) && p !in LevelMap(a) && q in LevelMap(a) ==> Better(q, p, descending)
  {
    forall p | p in LevelMap(a) ensures p in LevelMap(b) && LevelMap(b)[p] == LevelMap(a)[p] {
      var i := PriceAt(a, p);
      assert StrictlyOrdered(a, descending) by {
        assert forall k :: 0 <= k < |a| ==> a[k] == b[k];
      }
      OrderedReads(a, descending, i);
      OrderedReads(b, descending, i);
    }
    forall p, q | p in LevelMap(b) && p !in LevelMap(a) && q in LevelMap(a) ensures Better(q, p, descending) {
      var i := PriceAt(a, q);
      var j := PriceAt(b, p);
      LevelMapKeys(a, p);
      assert forall k :: 0 <= k < |a| ==> a[k].price != p;
    }
  }

  lemma {:induction false} PriceAt(side: seq<Level>, p: int) returns (i: nat)
    requires p in LevelMap(side)
    ensures i < |side| && side[i].price == p
  {
    LevelMapKeys(side, p);
    i :| 0 <= i < |side| && side[i].price == p;
  }

  lemma {:induction false} ChurnTouchesFew(side: seq<Level>, side': seq<Level>, maxLevels: nat, descending: bool)
    returns (touched: set<int>)
    requires StrictlyOrdered(side, descending) && Positive(side) && Priced(side) && side != [] && |side| <= maxLevels
    requires Churned(side, side', maxLevels, descending)
    ensures KeptAllBut(side, side', touched, descending)
  {
    var k, m: seq<Level> :| 1 <= k <= 3 && Mutates(side, m, k) && Extended(m, side', maxLevels, descending);
    touched := MutatesTouchFew(side, m, k, descending);
    ChurnKeepsSide(side, side', maxLevels, descending);
    ExtendAdds(m, side', descending);
  }
}
