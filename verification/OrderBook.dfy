/**
 market/book.go: the canonical book, in place. Random draws are arbitrary within their
 bounds; sizes drawn as floating-point numbers are arbitrary positive integers.
 */
module OrderBooks {
  import opened Levels
  import opened BookSides
  import opened BookSteps
  import opened BookRuns

  datatype InstallResult = Installed | EmptyBook | CrossedBook

  class OrderBook {
    const maxLevels: nat
    const window: int
    var epoch: nat
    var updateID: nat
    var bids: seq<Level>
    var asks: seq<Level>

    ghost function State(): BookState
      reads this
    {
      BookState(epoch, updateID, bids, asks)
    }

    constructor (maxLevels: int, window: int)
      ensures State() == BookState(0, 0, [], [])
      ensures this.maxLevels >= 15 && 0 < this.window <= this.maxLevels
      ensures maxLevels >= 15 ==> this.maxLevels == maxLevels
      ensures 10 <= window <= maxLevels ==> this.window == window
    {
      var m := if maxLevels < 15 then 100 else maxLevels;
      this.maxLevels := m;
      this.window := if window < 10 || window > m then 15 else window;
      epoch, updateID, bids, asks := 0, 0, [], [];
    }

    /** Install checks the touch only; the snapshot's levels are taken as they are. */
    method Install(epoch: nat, updateID: nat, bids: seq<Level>, asks: seq<Level>) returns (r: InstallResult)
      modifies this
      ensures r.EmptyBook? <==> bids == [] || asks == []
      ensures r.CrossedBook? <==> bids != [] && asks != [] && bids[0].price >= asks[0].price
      ensures r.Installed? ==> State() == BookState(epoch, updateID, TrimTo(bids, maxLevels), TrimTo(asks, maxLevels))
      ensures r.Installed? ==>
        && this.bids <= bids && |this.bids| == (if |bids| <= maxLevels then |bids| else maxLevels)
        && this.asks <= asks && |this.asks| == (if |asks| <= maxLevels then |asks| else maxLevels)
      ensures !r.Installed? ==> State() == old(State())
      ensures r.Installed? && StrictlyOrdered(bids, true) && StrictlyOrdered(asks, false) ==> Ordered(State())
    {
      if bids == [] || asks == [] {
        return EmptyBook;
      }
      if bids[0].price >= asks[0].price {
        return CrossedBook;
      }
      this.epoch, this.updateID := epoch, updateID;
      this.bids := TrimTo(bids, maxLevels);
      this.asks := TrimTo(asks, maxLevels);
      return Installed;
    }

    method CheckOrdering() returns (ok: bool)
      ensures ok <==> Ordered(State())
    {
      var i := 1;
      while i < |bids|
        invariant 1 <= i
        invariant i <= |bids| || |bids| == 0
        invariant bids != [] ==> StrictlyOrdered(bids[..i], true)
      {
        if bids[i - 1].price <= bids[i].price {
          assert !Better(bids[i - 1].price, bids[i].price, true);
          return false;
        }
        AppendKeepsOrder(bids[..i], bids[i], true);
        assert bids[..i + 1] == bids[..i] + [bids[i]];
        i := i + 1;
      }
      assert bids == if bids == [] then [] else bids[..i];
      i := 1;
      while i < |asks|
        invariant 1 <= i
        invariant i <= |asks| || |asks| == 0
        invariant asks != [] ==> StrictlyOrdered(asks[..i], false)
      {
        if asks[i - 1].price >= asks[i].price {
          assert !Better(asks[i - 1].price, asks[i].price, false);
          return false;
        }
        AppendKeepsOrder(asks[..i], asks[i], false);
        assert asks[..i + 1] == asks[..i] + [asks[i]];
        i := i + 1;
      }
      assert asks == if asks == [] then [] else asks[..i];
      return !(|bids| > 0 && |asks| > 0 && bids[0].price >= asks[0].price);
    }

    /** The tail of every transition: check, then count. */
    method Finish() returns (o: Outcome)
      modifies this`updateID
      ensures Checked(old(State()), bids, asks, window, State(), o)
    {
      var ok := CheckOrdering();
      if !ok {
        return Violation;
      }
      updateID := updateID + 1;
      return Mutation(updateID, CopyLevels(bids, window), CopyLevels(asks, window));
    }

    method ApplyTrade(quantity: int, buy: bool) returns (o: Outcome)
      requires CanTrade(State(), quantity, buy)
      modifies this
      ensures TradeStep(old(State()), quantity, buy, window, State(), o)
    {
      if |bids| == 0 || |asks| == 0 {
        return Nothing;
      }
      if buy {
        asks := Consume(asks, quantity, true);
      } else {
        bids := Consume(bids, quantity, false);
      }
      o := Finish();
    }

    method Consume(levels: seq<Level>, quantity: int, buy: bool) returns (side: seq<Level>)
      requires levels != [] && (Exhausts(levels, quantity) ==> |levels| >= 2)
      ensures Consumed(levels, quantity, !buy, side)
    {
      side := levels;
      var remaining := side[0].quantity - quantity;
      if remaining > 0 {
        return side[0 := Level(side[0].price, remaining)];
      }
      side := side[1..];
      var gap :| 1 <= gap <= 2;
      var far := if buy then side[|side| - 1].price + gap else side[|side| - 1].price - gap;
      if far <= 0 {
        far := 1;
      }
      var q :| q >= 1;
      if buy {
        side := side + [Level(far, q)];
      } else {
        side := InsertDescending(side, Level(far, q));
      }
      assert side == Refilled(levels[1..], gap, q, !buy);
    }

    method Refresh(mid: int) returns (o: Outcome)
      requires maxLevels >= 2
      modifies this
      ensures RefreshStep(old(State()), mid, maxLevels, window, State(), o)
    {
      if |bids| == 0 || |asks| == 0 {
        o := Recenter(mid);
        return;
      }
      if NeedsRecenter(BookState(epoch, updateID, bids, asks), mid, maxLevels) {
        o := Recenter(mid);
        return;
      }
      bids := Churn(bids, true);
      asks := Churn(asks, false);
      o := Finish();
    }

    /** The source mutates both sides and then fills both; the sides do not interact. */
    method Churn(levels: seq<Level>, bid: bool) returns (side: seq<Level>)
      requires levels != []
      ensures Churned(levels, side, maxLevels, bid)
    {
      var thinned := MutateSome(levels);
      side := Replenish(thinned, bid);
    }

    method MutateSome(levels: seq<Level>) returns (side: seq<Level>)
      requires levels != []
      ensures exists k :: 1 <= k <= 3 && Mutates(levels, side, k)
      ensures side != []
    {
      side := levels;
      var touched :| 1 <= touched <= 3;
      for k := 0 to touched
        invariant Mutates(levels, side, k) && side != []
      {
        side := MutateRandomLevel(side);
      }
    }

    method MutateRandomLevel(levels: seq<Level>) returns (side: seq<Level>)
      requires levels != []
      ensures MutateStep(levels, side) && side != []
    {
      var idx: nat :| idx < |levels|;
      var drop: bool :| true;
      if drop && |levels| > 20 {
        side := levels[..idx] + levels[idx + 1..];
        assert side == Without(levels, idx);
      } else {
        var q :| q >= 1;
        side := levels[idx := Level(levels[idx].price, q)];
        assert side == Resized(levels, idx, q);
      }
    }

    method Replenish(levels: seq<Level>, bid: bool) returns (side: seq<Level>)
      requires levels != []
      ensures Extended(levels, side, maxLevels, bid)
    {
      side := levels;
      while |side| < maxLevels
        invariant levels <= side && (|side| > |levels| ==> |side| <= maxLevels)
        invariant forall i :: |levels| <= i < |side| ==> Beyond(side[i - 1], side[i], bid)
        decreases maxLevels - |side|
      {
        var gap :| 1 <= gap <= 2;
        var price := if bid then side[|side| - 1].price - gap else side[|side| - 1].price + gap;
        if bid && price <= 0 {
          return;
        }
        var q :| q >= 1;
        side := side + [Level(price, q)];
      }
    }

    method Recenter(mid: int) returns (o: Outcome)
      modifies this
      ensures RecenterStep(old(State()), mid, maxLevels, window, State(), o)
    {
      if mid <= 0 {
        return Nothing;
      }
      var half := 1 + mid % 2;
      var bestBid, bestAsk := mid - half, mid + half;
      if bestBid <= 0 {
        bestBid := 1;
      }
      bestAsk := if bestAsk <= bestBid then bestBid + 1 else bestAsk;
      assert bestBid == BestBidAt(mid) && bestAsk == BestAskAt(mid);
      ghost var s := State();
      bids, asks := Ladders(bestBid, bestAsk);
      o := Finish();
      assert Repriced(s.bids, State().bids, maxLevels, BestBidAt(mid), true);
      assert Repriced(s.asks, State().asks, maxLevels, BestAskAt(mid), false);
      assert Checked(s, State().bids, State().asks, window, State(), o);
    }

    /** The loop of Recenter. */
    method Ladders(bestBid: int, bestAsk: int) returns (newBids: seq<Level>, newAsks: seq<Level>)
      requires bestBid >= 1
      ensures Repriced(bids, newBids, maxLevels, bestBid, true)
      ensures Repriced(asks, newAsks, maxLevels, bestAsk, false)
    {
      newBids, newAsks := [], [];
      var bidPrice, askPrice := bestBid, bestAsk;
      for i := 0 to maxLevels
        invariant Repriced(bids, newBids, i, bestBid, true)
        invariant Repriced(asks, newAsks, i, bestAsk, false)
        invariant if i == 0 then bidPrice == bestBid && askPrice == bestAsk
                  else bidPrice == BidPrice(bestBid, i - 1) && askPrice == AskPrice(bestAsk, i - 1)
      {
        if i > 0 {
          var step := 1 + i / 20;
          bidPrice := bidPrice - step;
          askPrice := askPrice + step;
        }
        if bidPrice <= 0 {
          bidPrice := 1;
        }
        assert bidPrice == BidPrice(bestBid, i) && askPrice == AskPrice(bestAsk, i);
        var bidSize := SizeAt(bids, i);
        var askSize := SizeAt(asks, i);
        RepricedOneMore(bids, newBids, i, bestBid, true, Level(bidPrice, bidSize));
        RepricedOneMore(asks, newAsks, i, bestAsk, false, Level(askPrice, askSize));
        newBids := newBids + [Level(bidPrice, bidSize)];
        newAsks := newAsks + [Level(askPrice, askSize)];
      }
    }

    method SizeAt(side: seq<Level>, depth: nat) returns (q: int)
      ensures if depth < |side| then q == side[depth].quantity else q >= 1
    {
      if depth < |side| {
        return side[depth].quantity;
      }
      q :| q >= 1;
    }

    /** A refused delta leaves the book alone; one refused by the ordering check does not. */
    method ApplyProviderDelta(epoch: nat, first: nat, last: nat, newBids: seq<Level>, newAsks: seq<Level>)
      returns (r: DeltaResult)
      modifies this
      ensures (State(), r) == ApplyDelta(old(State()), epoch, first, last, newBids, newAsks, maxLevels)
    {
      if epoch != this.epoch {
        return StaleEpoch;
      }
      if last <= updateID {
        return StaleRange;
      }
      if first > updateID + 1 {
        return Gap;
      }
      bids := ApplyLevels(bids, newBids, true);
      asks := ApplyLevels(asks, newAsks, false);
      var ok := CheckOrdering();
      if !ok {
        return Crossed;
      }
      updateID := last;
      return Accepted;
    }

    method ApplyLevels(side: seq<Level>, delta: seq<Level>, bid: bool) returns (out: seq<Level>)
      ensures out == SetLevels(side, delta, bid, maxLevels)
    {
      out := side;
      for i := 0 to |delta|
        invariant out == SetLevels(side, delta[..i], bid, maxLevels)
      {
        assert delta[..i + 1][..i] == delta[..i];
        out := ApplyLevel(out, delta[i], bid, maxLevels);
      }
      assert delta[..|delta|] == delta;
    }
  }

  function CopyLevels(levels: seq<Level>, n: int): seq<Level> {
    Top(levels, n)
  }

  method InsertDescending(levels: seq<Level>, l: Level) returns (out: seq<Level>)
    ensures out == Inserted(levels, l, true)
  {
    out := InsertOrdered(levels, l, true);
  }

  /** insertDescending and insertAscending differ in the comparison alone. */
  method InsertOrdered(levels: seq<Level>, l: Level, descending: bool) returns (out: seq<Level>)
    ensures out == Inserted(levels, l, descending)
  {
    var idx := |levels|;
    for i := 0 to |levels|
      invariant idx == |levels|
      invariant forall j :: 0 <= j < i ==> !Better(l.price, levels[j].price, descending)
    {
      if Better(l.price, levels[i].price, descending) {
        idx := i;
        break;
      }
    }
    InsertIndexIsFirst(levels, l.price, descending);
    out := levels[..idx] + [l] + levels[idx..];
  }

  method ApplyLevel(levels: seq<Level>, l: Level, bid: bool, maxLevels: nat) returns (out: seq<Level>)
    ensures out == SetLevel(levels, l, bid, maxLevels)
  {
    IndexOfIsFirst(levels, l.price);
    if l.quantity == 0 {
      for i := 0 to |levels|
        invariant forall j :: 0 <= j < i ==> levels[j].price != l.price
      {
        if levels[i].price == l.price {
          return levels[..i] + levels[i + 1..];
        }
      }
      return levels;
    }
    for i := 0 to |levels|
      invariant forall j :: 0 <= j < i ==> levels[j].price != l.price
    {
      if levels[i].price == l.price {
        return levels[i := l];
      }
    }
    out := InsertOrdered(levels, l, bid);
    if |out| > maxLevels {
      out := out[..maxLevels];
    }
  }
}
