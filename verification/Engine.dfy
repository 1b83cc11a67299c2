/**
 market/engine.go: one market's write path. A trade goes to the book first; a book that
 cannot take it stops it there.
 */
module MarketEngine {
  import opened Domain
  import opened Levels
  import opened BookSteps
  import opened BookRuns
  import opened OrderBooks
  import opened Candles
  import opened CandleAggregation
  import opened CandleRollUp
  import opened Agreement
  import opened RollingSummary
  import opened SummaryRing
  import SummaryWindow

  const INTERVALS := [M1, M5, M15, H1, H4, D1]

  const WINDOW_MINUTES := 1440

  class Engine {
    const symbol: string
    const book: OrderBook
    const aggregators: seq<CandleAggregator>
    const summary: Summary24h
    var epoch: nat
    var eventIndex: nat
    var lastPrice: int

    ghost const candleParts: set<object>   // the aggregators and their rings

    ghost predicate Separate() {
      && Apart(aggregators) && |aggregators| == |INTERVALS|
      && summary.buckets.Length == WINDOW_MINUTES && book.maxLevels >= 15
      && (forall k :: 0 <= k < |aggregators| ==>
            && aggregators[k].symbol == symbol && aggregators[k].interval == INTERVALS[k]
            && aggregators[k] in candleParts && aggregators[k].closed in candleParts)
      && book !in candleParts && this !in candleParts && summary !in candleParts && summary.buckets !in candleParts
    }

    ghost predicate AllHold(from: nat, to: nat, h: seq<Trade>)
      requires Separate() && to <= |aggregators|
      reads candleParts
    {
      forall k :: from <= k < to ==> aggregators[k].Valid() && aggregators[k].history == h
    }

    /** Candles at every interval, and the summary, are of the same trades. */
    ghost predicate Valid()
      reads candleParts, summary, summary.buckets
    {
      Separate() && summary.Valid() && AllHold(0, |aggregators|, Ours(summary.history, symbol))
    }

    /** Nothing applied yet; the book is empty until the bootstrap snapshot is installed. */
    constructor (symbol: string, levels: int, window: int, depth: int)
      ensures Valid() && summary.history == [] && epoch == 0 && lastPrice == 0
      ensures this.symbol == symbol && book.State() == BookState(0, 0, [], [])
    {
      this.symbol := symbol;
      var all, parts := NewAggregators(symbol, depth);
      aggregators, candleParts := all, parts;
      summary := new Summary24h(WINDOW_MINUTES);
      book := new OrderBook(levels, window);
      epoch, eventIndex, lastPrice := 0, 0, 0;
    }

    /** The snapshot a new engine starts from, under the provider's own epoch. A refused one
        leaves the engine without a book. */
    method Bootstrap(epoch: nat, updateID: nat, bids: seq<Level>, asks: seq<Level>) returns (ok: bool)
      requires Valid()
      modifies book
      ensures Valid() && summary.history == old(summary.history)
      ensures ok <==> bids != [] && asks != [] && bids[0].price < asks[0].price
      ensures book.State()
              == if ok then BookState(epoch, updateID, TrimTo(bids, book.maxLevels), TrimTo(asks, book.maxLevels))
                 else old(book.State())
      ensures ok && StrictlyOrdered(bids, true) && StrictlyOrdered(asks, false) ==> Ordered(book.State())
    {
      var r := book.Install(epoch, updateID, bids, asks);
      return r.Installed?;
    }

    static method NewAggregators(symbol: string, depth: int)
      returns (all: seq<CandleAggregator>, ghost parts: set<object>)
      ensures |all| == |INTERVALS| && fresh(parts) && Apart(all) && Unused(all, parts, symbol)
    {
      all, parts := [], {};
      for i := 0 to |INTERVALS|
        invariant |all| == i && fresh(parts) && Apart(all) && Unused(all, parts, symbol)
      {
        var a := new CandleAggregator(symbol, INTERVALS[i], depth);
        OneMoreUnused(all, parts, symbol, a);
        all := all + [a];
        parts := parts + {a, a.closed};
      }
    }

    /** A trade the book refuses is in no candle and not in the summary; any other is in all
        of them. */
    method ApplyTrade(t: Trade) returns (o: Outcome)
      requires Valid() && CanTrade(book.State(), t.quantity, t.side == Buy)
      modifies this, book, candleParts, summary, summary.buckets
      ensures Valid()
      ensures TradeStep(old(book.State()), t.quantity, t.side == Buy, book.window, book.State(), o)
      ensures summary.history == old(summary.history) + if o.Violation? then [] else [t]
      ensures epoch == old(epoch) && eventIndex == old(eventIndex) + 1 && lastPrice == t.price
    {
      eventIndex := eventIndex + 1;
      lastPrice := t.price;
      o := BookTrade(t);
      if o.Violation? {
        return;
      }
      AggregateTrade(t);
    }

    method BookTrade(t: Trade) returns (o: Outcome)
      requires Valid() && CanTrade(book.State(), t.quantity, t.side == Buy)
      modifies book
      ensures Valid() && summary.history == old(summary.history)
      ensures TradeStep(old(book.State()), t.quantity, t.side == Buy, book.window, book.State(), o)
    {
      o := book.ApplyTrade(t.quantity, t.side == Buy);
    }

    /** Every interval, then the summary. */
    method AggregateTrade(t: Trade)
      requires Valid()
      modifies candleParts, summary, summary.buckets
      ensures Valid() && summary.history == old(summary.history) + [t]
    {
      OursAppend(summary.history, t, symbol);
      FoldAll(t, Ours(summary.history, symbol));
      summary.Apply(t);
    }

    method FoldAll(t: Trade, ghost h: seq<Trade>)
      requires Separate() && AllHold(0, |aggregators|, h)
      modifies candleParts
      ensures AllHold(0, |aggregators|, More(h, t, symbol))
    {
      for i := 0 to |aggregators|
        invariant AllHold(0, i, More(h, t, symbol)) && AllHold(i, |aggregators|, h)
      {
        var _, _ := aggregators[i].Apply(t);
        assert aggregators[i].Valid() && aggregators[i].history == More(h, t, symbol);
      }
    }

    /** A provider's own delta touches the book alone. */
    method ApplyProviderDelta(epoch: nat, first: nat, last: nat, bids: seq<Level>, asks: seq<Level>)
      returns (r: DeltaResult)
      requires Valid()
      modifies book
      ensures Valid() && summary.history == old(summary.history)
      ensures (book.State(), r) == ApplyDelta(old(book.State()), epoch, first, last, bids, asks, book.maxLevels)
    {
      r := book.ApplyProviderDelta(epoch, first, last, bids, asks);
    }

    /** Churn is centred on the last price, or on the best bid before there is one. */
    method RefreshBook() returns (o: Outcome)
      requires Valid()
      modifies book
      ensures Valid() && summary.history == old(summary.history)
      ensures var s := old(book.State());
        RefreshStep(s, if lastPrice == 0 && s.bids != [] then s.bids[0].price else lastPrice,
                    book.maxLevels, book.window, book.State(), o)
    {
      var mid := lastPrice;
      if mid == 0 && |book.bids| > 0 {
        mid := book.bids[0].price;
      }
      o := book.Refresh(mid);
    }

    /** A refused snapshot leaves everything but the epoch: the engine is then one ahead of
        its book. */
    method Reset(updateID: nat, bids: seq<Level>, asks: seq<Level>) returns (ok: bool)
      requires Valid()
      modifies this, book, candleParts, summary, summary.buckets
      ensures Valid() && epoch == old(epoch) + 1
      ensures ok <==> bids != [] && asks != [] && bids[0].price < asks[0].price
      ensures ok ==>
        && book.State() == BookState(epoch, updateID, TrimTo(bids, book.maxLevels), TrimTo(asks, book.maxLevels))
        && summary.history == [] && lastPrice == 0 && eventIndex == 0
      ensures !ok ==>
        && book.State() == old(book.State()) && summary.history == old(summary.history)
        && lastPrice == old(lastPrice) && eventIndex == old(eventIndex)
    {
      epoch := epoch + 1;
      var r := book.Install(epoch, updateID, bids, asks);
      if !r.Installed? {
        return false;
      }
      eventIndex := 0;
      lastPrice := 0;
      ResetAll(Ours(summary.history, symbol));
      summary.Reset();
      return true;
    }

    method ResetAll(ghost h: seq<Trade>)
      requires Separate() && AllHold(0, |aggregators|, h)
      modifies candleParts
      ensures AllHold(0, |aggregators|, [])
    {
      for i := 0 to |aggregators|
        invariant AllHold(0, i, []) && AllHold(i, |aggregators|, h)
      {
        aggregators[i].Reset();
      }
    }
  }

  ghost predicate Apart(all: seq<CandleAggregator>) {
    forall j, k :: 0 <= j < k < |all| ==> all[j] != all[k] && all[j].closed != all[k].closed
  }

  /** The first intervals' aggregators, with no trade in any. */
  ghost predicate Unused(all: seq<CandleAggregator>, parts: set<object>, symbol: string)
    reads parts
  {
    && |all| <= |INTERVALS|
    && forall k :: 0 <= k < |all| ==>
         && all[k] in parts && all[k].closed in parts && all[k].Valid() && all[k].history == []
         && all[k].symbol == symbol && all[k].interval == INTERVALS[k]
  }

  lemma {:induction false} OneMoreUnused(all: seq<CandleAggregator>, parts: set<object>, symbol: string,
                                         a: CandleAggregator)
    requires Apart(all) && Unused(all, parts, symbol) && |all| < |INTERVALS|
    requires a !in parts && a.closed !in parts && a.Valid() && a.history == []
    requires a.symbol == symbol && a.interval == INTERVALS[|all|]
    ensures Apart(all + [a]) && Unused(all + [a], parts + {a, a.closed}, symbol)
  {
  }

  function More(trades: seq<Trade>, t: Trade, symbol: string): seq<Trade> {
    if t.symbol == symbol then trades + [t] else trades
  }

  /** The trades of one market. */
  function Ours(trades: seq<Trade>, symbol: string): seq<Trade> {
    if trades == [] then []
    else
      var t := trades[|trades| - 1];
      Ours(trades[..|trades| - 1], symbol) + if t.symbol == symbol then [t] else []
  }

  lemma {:induction false} OursAppend(trades: seq<Trade>, t: Trade, symbol: string)
    ensures Ours(trades + [t], symbol) == More(Ours(trades, symbol), t, symbol)
  {
    assert (trades + [t])[..|trades|] == trades;
  }

  ghost predicate AllOurs(trades: seq<Trade>, symbol: string) {
    forall k :: 0 <= k < |trades| ==> trades[k].symbol == symbol
  }

  lemma {:induction false} OursIsAll(trades: seq<Trade>, symbol: string)
    requires AllOurs(trades, symbol)
    ensures Ours(trades, symbol) == trades
  {
    if trades != [] {
      var n := |trades| - 1;
      OursIsAll(trades[..n], symbol);
      assert trades[..n] + [trades[n]] == trades;
    }
  }

  lemma {:induction false} AggregatorOf(e: Engine, k: nat)
    requires e.Valid() && AllOurs(e.summary.history, e.symbol) && k < |INTERVALS|
    ensures e.aggregators[k].Everything() == Candles.Aggregate(e.summary.history, Duration(INTERVALS[k]))
  {
    OursIsAll(e.summary.history, e.symbol);
    assert e.aggregators[k].Valid();
  }

  lemma {:induction false} SummaryMirrors(s: Summary24h)
    requires s.Valid() && s.history != [] && NonDecreasing(s.history)
    ensures Sums(s.volume, s.trades) == RingSums(s.buckets[..])
    ensures SummaryWindow.Mirrors(s.buckets[..], s.history, s.newestMinute)
            && SummaryWindow.IsNewest(s.history, s.newestMinute)
  {
    InOrderIsOnTime(s.buckets.Length, s.history);
    SummaryWindow.RunMirrors(s.buckets.Length, s.history);
  }

  /** Whatever the engine has gone through, as long as the trades it accepted were its own
      and in time order: the candles of any interval roll up to those of any longer one. */
  lemma {:induction false} IntervalsAgree(e: Engine, fine: nat, coarse: nat)
    requires e.Valid() && NonDecreasing(e.summary.history) && AllOurs(e.summary.history, e.symbol)
    requires fine <= coarse < |INTERVALS|
    ensures RollUp(e.aggregators[fine].Everything().candles, Duration(INTERVALS[coarse]))
            == e.aggregators[coarse].Everything().candles
    ensures e.aggregators[fine].lateTrades == 0
  {
    AggregatorOf(e, fine);
    AggregatorOf(e, coarse);
    assert e.aggregators[fine].lateTrades == e.aggregators[fine].Everything().late;
    InOrderRollsUp(e.summary.history, INTERVALS[fine], INTERVALS[coarse]);
  }

  lemma {:induction false} OneMinuteCandles(e: Engine)
    requires e.Valid() && AllOurs(e.summary.history, e.symbol)
    ensures e.aggregators[0].Everything().candles == Candles.Aggregate(e.summary.history, NS_PER_MINUTE).candles
  {
    AggregatorOf(e, 0);
    assert INTERVALS[0] == M1;
  }

  /** And the summary's volume and trade count are those of the one-minute candles of the
      last 24 hours. */
  lemma {:induction false} SummaryAndCandlesAgree(e: Engine)
    requires e.Valid() && NonDecreasing(e.summary.history) && AllOurs(e.summary.history, e.symbol)
    requires e.summary.history != []
    ensures Sums(e.summary.volume, e.summary.trades)
            == SumsOf(e.aggregators[0].Everything().candles, e.summary.newestMinute - WINDOW_MINUTES)
  {
    OneMinuteCandles(e);
    WindowSums(e.summary, e.aggregators[0].Everything().candles);
  }

  lemma {:induction false} WindowSums(s: Summary24h, candles: seq<Candle>)
    requires s.Valid() && s.history != [] && NonDecreasing(s.history) && s.buckets.Length == WINDOW_MINUTES
    requires candles == Candles.Aggregate(s.history, NS_PER_MINUTE).candles
    ensures Sums(s.volume, s.trades) == SumsOf(candles, s.newestMinute - WINDOW_MINUTES)
  {
    SummaryMirrors(s);
    SummaryAgreesWithCandles(s.buckets[..], s.history, s.newestMinute);
  }
}
