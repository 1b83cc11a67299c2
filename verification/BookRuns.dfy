/**
 Re-centring, provider deltas, and whole runs of the canonical book (market/book.go).
 */
module BookRuns {
  import opened Domain
  import opened Levels
  import opened BookSides
  import opened BookSteps
  import Coalescing
  import BookClient

  // ----- re-centring

  function Half(mid: int): int {
    1 + mid % 2
  }

  function AtLeastOne(p: int): int {
    if p <= 0 then 1 else p
  }

  function BestBidAt(mid: int): int {
    AtLeastOne(mid - Half(mid))
  }

  function BestAskAt(mid: int): int {
    if mid + Half(mid) <= BestBidAt(mid) then BestBidAt(mid) + 1 else mid + Half(mid)
  }

  /** Levels spread out with depth. */
  function Spacing(i: nat): int {
    1 + i / 20
  }

  function BidPrice(best: int, i: nat): int {
    AtLeastOne(if i == 0 then best else BidPrice(best, i - 1) - Spacing(i))
  }

  function AskPrice(best: int, i: nat): int {
    if i == 0 then best else AskPrice(best, i - 1) + Spacing(i)
  }

  /** The whole spacing down to depth `k`. */
  function Steps(k: nat): nat {
    if k == 0 then 0 else Steps(k - 1) + Spacing(k)
  }

  /** Sizes stay with their depth; new depths get some size. */
  ghost predicate Repriced(side: seq<Level>, side': seq<Level>, n: nat, best: int, descending: bool) {
    |side'| == n && forall i :: 0 <= i < n ==>
      && side'[i].price == (if descending then BidPrice(best, i) else AskPrice(best, i))
      && (if i < |side| then side'[i].quantity == side[i].quantity else side'[i].quantity >= 1)
  }

  lemma {:induction false} RepricedOneMore(side: seq<Level>, side': seq<Level>, n: nat, best: int, descending: bool,
                                           level: Level)
    requires Repriced(side, side', n, best, descending)
    requires level.price == if descending then BidPrice(best, n) else AskPrice(best, n)
    requires if n < |side| then level.quantity == side[n].quantity else level.quantity >= 1
    ensures Repriced(side, side' + [level], n + 1, best, descending)
  {
  }

  ghost predicate RecenterStep(s: BookState, mid: int, maxLevels: nat, window: int, s': BookState, o: Outcome) {
    if mid <= 0 then s' == s && o == Nothing
    else
      && Repriced(s.bids, s'.bids, maxLevels, BestBidAt(mid), true)
      && Repriced(s.asks, s'.asks, maxLevels, BestAskAt(mid), false)
      && Checked(s, s'.bids, s'.asks, window, s', o)
  }

  lemma {:induction false} StepsIncrease(i: nat, j: nat)
    requires i <= j
    ensures Steps(i) + (j - i) <= Steps(j)
    decreases j
  {
    if i < j {
      StepsIncrease(i, j - 1);
    }
  }

  lemma {:induction false} BidPriceIs(best: int, i: nat)
    requires best >= 1
    ensures BidPrice(best, i) == AtLeastOne(best - Steps(i))
  {
    if i > 0 {
      BidPriceIs(best, i - 1);
    }
  }

  lemma {:induction false} AskPriceIs(best: int, i: nat)
    ensures AskPrice(best, i) == best + Steps(i)
  {
    if i > 0 {
      AskPriceIs(best, i - 1);
    }
  }

  /** There is room below the mid for a full ladder of distinct prices. */
  predicate RoomBelow(mid: int, maxLevels: nat)
    requires maxLevels >= 2
  {
    BestBidAt(mid) - Steps(maxLevels - 2) >= 2
  }

  lemma {:induction false} BidsOrdered(bids: seq<Level>, best: int)
    requires |bids| >= 2 && best >= 1 && forall i :: 0 <= i < |bids| ==> bids[i].price == BidPrice(best, i)
    ensures Priced(bids)
    ensures StrictlyOrdered(bids, true) <==> best - Steps(|bids| - 2) >= 2
  {
    var n := |bids|;
    forall i | 0 <= i < n ensures bids[i].price == AtLeastOne(best - Steps(i)) {
      BidPriceIs(best, i);
    }
    if best - Steps(n - 2) >= 2 {
      forall i, j | 0 <= i < j < n ensures Better(bids[i].price, bids[j].price, true) {
        StepsIncrease(i, n - 2);
        StepsIncrease(i, j);
      }
    } else {
      StepsIncrease(n - 2, n - 1);
      assert bids[n - 2].price == 1 && bids[n - 1].price == 1;
      assert !Better(bids[n - 2].price, bids[n - 1].price, true);
    }
  }

  lemma {:induction false} AsksOrdered(asks: seq<Level>, best: int)
    requires best >= 1 && forall i :: 0 <= i < |asks| ==> asks[i].price == AskPrice(best, i)
    ensures Priced(asks) && StrictlyOrdered(asks, false)
  {
    forall i | 0 <= i < |asks| ensures asks[i].price == best + Steps(i) {
      AskPriceIs(best, i);
    }
    forall i, j | 0 <= i < j < |asks| ensures Better(asks[i].price, asks[j].price, false) {
      StepsIncrease(i, j);
    }
  }

  lemma {:induction false} RepricedSide(side: seq<Level>, side': seq<Level>, n: nat, best: int, descending: bool)
    requires Repriced(side, side', n, best, descending) && Positive(side) && n >= 2 && best >= 1
    ensures |side'| == n && Positive(side') && Priced(side') && side'[0].price == best
    ensures StrictlyOrdered(side', descending) <==> !descending || best - Steps(n - 2) >= 2
  {
    forall i | 0 <= i < n ensures side'[i].quantity > 0 {
      assert i < |side| ==> side[i].quantity > 0;
    }
    if descending {
      BidsOrdered(side', best);
      assert side'[0].price == BidPrice(best, 0);
    } else {
      AsksOrdered(side', best);
      assert side'[0].price == AskPrice(best, 0);
    }
  }

  /** The touch of a re-centred book straddles its mid, four ticks wide at most. */
  lemma {:induction false} TouchSettles(s: BookState, mid: int, maxLevels: nat)
    requires mid > 0 && |s.bids| == |s.asks| == maxLevels >= 2
    requires s.bids[0].price == BestBidAt(mid) && s.asks[0].price == BestAskAt(mid)
    ensures Uncrossed(s.bids, s.asks) && !NeedsRecenter(s, mid, maxLevels)
  {
  }

  /** Recenter, from any state with positive sizes, ordered or not: it succeeds exactly when
      there is room below the mid, and then the book is well formed, at full depth on both
      sides, and settled: the same mid asks for no further re-centring. */
  lemma {:induction false} RecenterExactly(s: BookState, mid: int, maxLevels: nat, window: int, s': BookState,
                                           o: Outcome)
    requires maxLevels >= 2 && mid > 0 && Positive(s.bids) && Positive(s.asks)
    requires RecenterStep(s, mid, maxLevels, window, s', o)
    ensures o.Violation? <==> !RoomBelow(mid, maxLevels)
    ensures !o.Violation? ==>
      && WellFormed(s', maxLevels) && |s'.bids| == |s'.asks| == maxLevels
      && s'.updateID == s.updateID + 1 && !NeedsRecenter(s', mid, maxLevels)
  {
    RepricedSide(s.bids, s'.bids, maxLevels, BestBidAt(mid), true);
    RepricedSide(s.asks, s'.asks, maxLevels, BestAskAt(mid), false);
    RecenterOutcome(s, mid, maxLevels, window, s', o);
  }

  lemma {:induction false} RecenterOutcome(s: BookState, mid: int, maxLevels: nat, window: int, s': BookState,
                                           o: Outcome)
    requires maxLevels >= 2 && mid > 0 && |s'.bids| == |s'.asks| == maxLevels
    requires Positive(s'.bids) && Positive(s'.asks) && Priced(s'.bids) && Priced(s'.asks)
    requires s'.bids[0].price == BestBidAt(mid) && s'.asks[0].price == BestAskAt(mid)
    requires StrictlyOrdered(s'.bids, true) == RoomBelow(mid, maxLevels) && StrictlyOrdered(s'.asks, false)
    requires Checked(s, s'.bids, s'.asks, window, s', o)
    ensures o.Violation? <==> !RoomBelow(mid, maxLevels)
    ensures !o.Violation?
            ==> WellFormed(s', maxLevels) && s'.updateID == s.updateID + 1 && !NeedsRecenter(s', mid, maxLevels)
  {
    TouchSettles(s', mid, maxLevels);
  }

  /** The stated bound is enough: a mid further from zero than the whole ladder is deep. */
  lemma {:induction false} RoomFromDepth(mid: int, maxLevels: nat)
    requires maxLevels >= 2 && mid > 0 && mid - Half(mid) > Steps(maxLevels - 1)
    ensures RoomBelow(mid, maxLevels)
  {
    StepsIncrease(maxLevels - 2, maxLevels - 1);
  }

  // ----- a refresh

  ghost predicate RefreshStep(s: BookState, mid: int, maxLevels: nat, window: int, s': BookState, o: Outcome) {
    if s.bids == [] || s.asks == [] || NeedsRecenter(s, mid, maxLevels)
    then RecenterStep(s, mid, maxLevels, window, s', o)
    else
      && Churned(s.bids, s'.bids, maxLevels, true)
      && Churned(s.asks, s'.asks, maxLevels, false)
      && Checked(s, s'.bids, s'.asks, window, s', o)
  }

  // ----- runs

  datatype Event = Trade(quantity: int, buy: bool) | Refresh(mid: int)

  ghost predicate Step(s: BookState, e: Event, maxLevels: nat, window: int, s': BookState, o: Outcome) {
    match e
    case Trade(quantity, buy) => TradeStep(s, quantity, buy, window, s', o)
    case Refresh(mid) => RefreshStep(s, mid, maxLevels, window, s', o)
  }

  /** The only two ways a transition from a good book goes wrong, both at prices near zero. */
  predicate Fails(s: BookState, e: Event, maxLevels: nat)
    requires maxLevels >= 2 && s.bids != [] && s.asks != []
  {
    match e
    case Trade(quantity, buy) => !buy && Exhausts(s.bids, quantity) && s.bids[|s.bids| - 1].price == 1
    case Refresh(mid) => NeedsRecenter(s, mid, maxLevels) && !RoomBelow(mid, maxLevels)
  }

  ghost predicate Good(s: BookState, maxLevels: nat) {
    WellFormed(s, maxLevels) && |s.bids| >= 2 && |s.asks| >= 2
  }

  /** One step from a good book: it fails exactly then; otherwise the book stays good and
      moves by one update, a trade keeps the depth, and a refresh restores it, except for
      bids that have come down to the last prices there are. */
  lemma {:induction false} StepExactly(s: BookState, e: Event, maxLevels: nat, window: int, s': BookState, o: Outcome)
    requires maxLevels >= 2 && Good(s, maxLevels) && Step(s, e, maxLevels, window, s', o)
    ensures o.Violation? <==> Fails(s, e, maxLevels)
    ensures !o.Violation? ==> o.Mutation? && Good(s', maxLevels) && s'.updateID == s.updateID + 1 && s'.epoch == s.epoch
    ensures !o.Violation? && e.Trade? ==> |s'.bids| == |s.bids| && |s'.asks| == |s.asks|
    ensures !o.Violation? && e.Refresh? ==>
      |s'.asks| == maxLevels && (|s'.bids| == maxLevels || s'.bids[|s'.bids| - 1].price <= 2)
  {
    match e
    case Trade(quantity, buy) => TradeExactly(s, quantity, buy, window, maxLevels, s', o);
    case Refresh(mid) => RefreshExactly(s, mid, maxLevels, window, s', o);
  }

  lemma {:induction false} RefreshExactly(s: BookState, mid: int, maxLevels: nat, window: int, s': BookState,
                                          o: Outcome)
    requires maxLevels >= 2 && Good(s, maxLevels) && RefreshStep(s, mid, maxLevels, window, s', o)
    ensures o.Violation? <==> NeedsRecenter(s, mid, maxLevels) && !RoomBelow(mid, maxLevels)
    ensures !o.Violation? ==> o.Mutation? && Good(s', maxLevels)
    ensures !o.Violation? ==> s'.updateID == s.updateID + 1 && s'.epoch == s.epoch
    ensures !o.Violation? ==>
      |s'.asks| == maxLevels && (|s'.bids| == maxLevels || s'.bids[|s'.bids| - 1].price <= 2)
  {
    if NeedsRecenter(s, mid, maxLevels) {
      RecenterExactly(s, mid, maxLevels, window, s', o);
    } else {
      ChurnIsSafe(s, s'.bids, s'.asks, window, maxLevels, s', o);
    }
  }

  ghost predicate IsRun(states: seq<BookState>, events: seq<Event>, outcomes: seq<Outcome>, maxLevels: nat,
                        window: int) {
    && |states| == |events| + 1 && |outcomes| == |events|
    && forall k :: 0 <= k < |events| ==> StepAt(states, events, outcomes, maxLevels, window, k)
  }

  ghost predicate StepAt(states: seq<BookState>, events: seq<Event>, outcomes: seq<Outcome>, maxLevels: nat,
                         window: int, k: nat)
    requires |states| == |events| + 1 && |outcomes| == |events| && k < |events|
  {
    Step(states[k], events[k], maxLevels, window, states[k + 1], outcomes[k])
  }

  /** Over every run of trades and refreshes with any random choices: as long as nothing has
      been reported, both sides are strictly ordered, uncrossed, positively sized, and the
      update id has counted the transitions. */
  lemma {:induction false} RunIsSafe(states: seq<BookState>, events: seq<Event>, outcomes: seq<Outcome>,
                                     maxLevels: nat, window: int, k: nat)
    requires maxLevels >= 2 && IsRun(states, events, outcomes, maxLevels, window) && k < |states|
    requires Good(states[0], maxLevels) && forall i :: 0 <= i < k ==> !outcomes[i].Violation?
    ensures Good(states[k], maxLevels)
    ensures states[k].updateID == states[0].updateID + k && states[k].epoch == states[0].epoch
  {
    if k > 0 {
      RunIsSafe(states, events, outcomes, maxLevels, window, k - 1);
      assert StepAt(states, events, outcomes, maxLevels, window, k - 1);
      StepExactly(states[k - 1], events[k - 1], maxLevels, window, states[k], outcomes[k - 1]);
    }
  }

  /** And the first report comes exactly at the first event that fails. */
  lemma {:induction false} FirstReport(states: seq<BookState>, events: seq<Event>, outcomes: seq<Outcome>,
                                       maxLevels: nat, window: int, k: nat)
    requires maxLevels >= 2 && IsRun(states, events, outcomes, maxLevels, window) && k < |events|
    requires Good(states[0], maxLevels) && forall i :: 0 <= i < k ==> !outcomes[i].Violation?
    ensures Good(states[k], maxLevels) && (outcomes[k].Violation? <==> Fails(states[k], events[k], maxLevels))
  {
    RunIsSafe(states, events, outcomes, maxLevels, window, k);
    assert StepAt(states, events, outcomes, maxLevels, window, k);
    StepExactly(states[k], events[k], maxLevels, window, states[k + 1], outcomes[k]);
  }

  // ----- after a report

  /** What a report leaves behind: the two lowest bids at price one. */
  ghost predicate Stuck(s: BookState) {
    && |s.bids| >= 2 && Priced(s.bids) && Positive(s.bids) && s.asks != [] && Positive(s.asks)
    && s.bids[|s.bids| - 2].price == 1 && s.bids[|s.bids| - 1].price == 1
  }

  lemma {:induction false} StuckIsDisordered(bids: seq<Level>)
    requires |bids| >= 2 && bids[|bids| - 2].price == bids[|bids| - 1].price
    ensures !StrictlyOrdered(bids, true)
  {
    assert !Better(bids[|bids| - 2].price, bids[|bids| - 1].price, true);
  }

  /** Consuming the best of bids that end at price one, in whatever order, adds another
      level at price one. */
  lemma {:induction false} ConsumeSticks(bids: seq<Level>, quantity: int, bids': seq<Level>)
    requires |bids| >= 2 && Priced(bids) && Positive(bids) && bids[|bids| - 1].price == 1
    requires Consumed(bids, quantity, true, bids') && (Exhausts(bids, quantity) || bids[|bids| - 2].price == 1)
    ensures |bids'| == |bids| && Priced(bids') && Positive(bids')
    ensures bids'[|bids| - 2].price == 1 && bids'[|bids| - 1].price == 1
  {
    if Exhausts(bids, quantity) {
      var gap, q :| 1 <= gap <= 2 && q >= 1 && bids' == Refilled(bids[1..], gap, q, true);
      var rest := bids[1..];
      assert rest[|rest| - 1] == bids[|bids| - 1];
      WorstInsertsLast(rest, Level(1, q), true);
      assert bids' == rest + [Level(1, q)];
    }
  }

  lemma {:induction false} ConsumeKeepsPositive(asks: seq<Level>, quantity: int, asks': seq<Level>)
    requires asks != [] && Positive(asks) && Consumed(asks, quantity, false, asks')
    ensures asks' != [] && Positive(asks')
  {
    if Exhausts(asks, quantity) {
      var gap, q :| 1 <= gap <= 2 && q >= 1 && asks' == Refilled(asks[1..], gap, q, false);
    }
  }

  /** Nothing is rolled back: every failure of a good book, by a trade or by a re-centring,
      leaves it stuck. */
  lemma {:induction false} ReportSticks(s: BookState, e: Event, maxLevels: nat, window: int, s': BookState, o: Outcome)
    requires maxLevels >= 2 && Good(s, maxLevels) && Step(s, e, maxLevels, window, s', o) && o.Violation?
    ensures Stuck(s') && s'.updateID == s.updateID
  {
    StepExactly(s, e, maxLevels, window, s', o);
    match e
    case Trade(quantity, buy) => ConsumeSticks(s.bids, quantity, s'.bids);
    case Refresh(mid) => FailedLadderSticks(s, mid, maxLevels, window, s', o);
  }

  lemma {:induction false} FailedLadderSticks(s: BookState, mid: int, maxLevels: nat, window: int, s': BookState,
                                              o: Outcome)
    requires maxLevels >= 2 && mid > 0 && Positive(s.bids) && Positive(s.asks)
    requires RecenterStep(s, mid, maxLevels, window, s', o) && !RoomBelow(mid, maxLevels)
    ensures Stuck(s') && s'.updateID == s.updateID
  {
    RepricedSide(s.bids, s'.bids, maxLevels, BestBidAt(mid), true);
    RepricedSide(s.asks, s'.asks, maxLevels, BestAskAt(mid), false);
    EndsOnTheFloor(s.bids, s'.bids, maxLevels - 2, BestBidAt(mid));
  }

  lemma {:induction false} EndsOnTheFloor(side: seq<Level>, side': seq<Level>, n: nat, best: int)
    requires Repriced(side, side', n + 2, best, true) && best >= 1 && best - Steps(n) < 2
    ensures side'[n].price == 1 && side'[n + 1].price == 1
  {
    BidPriceIs(best, n);
    BidPriceIs(best, n + 1);
    StepsIncrease(n, n + 1);
  }

  /** And every trade of either side reports again and leaves it stuck. */
  lemma {:induction false} ViolationStays(s: BookState, quantity: int, buy: bool, window: int, s': BookState,
                                          o: Outcome)
    requires Stuck(s) && TradeStep(s, quantity, buy, window, s', o)
    ensures o.Violation? && Stuck(s') && s'.updateID == s.updateID
  {
    if buy {
      ConsumeKeepsPositive(s.asks, quantity, s'.asks);
    } else {
      ConsumeSticks(s.bids, quantity, s'.bids);
    }
    StuckIsDisordered(s'.bids);
  }

  lemma {:induction false} StuckStep(s: BookState, e: Event, maxLevels: nat, window: int, s': BookState, o: Outcome)
    requires Stuck(s) && e.Trade? && Step(s, e, maxLevels, window, s', o)
    ensures o.Violation? && Stuck(s') && s'.updateID == s.updateID
  {
    ViolationStays(s, e.quantity, e.buy, window, s', o);
  }

  /** Over whole runs: from the first report on, through trades only, everything is reported
      and the update id stands still. */
  lemma {:induction false} TradesNeverHeal(states: seq<BookState>, events: seq<Event>, outcomes: seq<Outcome>,
                                           maxLevels: nat, window: int, from: nat, k: nat)
    requires maxLevels >= 2 && IsRun(states, events, outcomes, maxLevels, window) && from < k < |states|
    requires Good(states[from], maxLevels) && outcomes[from].Violation?
    requires forall i :: from < i < k ==> events[i].Trade?
    ensures Stuck(states[k]) && states[k].updateID == states[from].updateID
    ensures outcomes[k - 1].Violation?
    decreases k
  {
    assert StepAt(states, events, outcomes, maxLevels, window, k - 1);
    if k == from + 1 {
      ReportSticks(states[from], events[from], maxLevels, window, states[k], outcomes[from]);
    } else {
      TradesNeverHeal(states, events, outcomes, maxLevels, window, from, k - 1);
      StuckStep(states[k - 1], events[k - 1], maxLevels, window, states[k], outcomes[k - 1]);
    }
  }

  /** A refresh that re-centres a stuck book heals it exactly when there is room below the
      mid, and otherwise leaves it stuck. */
  lemma {:induction false} RecenterHealsExactly(s: BookState, mid: int, maxLevels: nat, window: int, s': BookState,
                                                o: Outcome)
    requires maxLevels >= 2 && Stuck(s) && NeedsRecenter(s, mid, maxLevels)
             && RefreshStep(s, mid, maxLevels, window, s', o)
    ensures if RoomBelow(mid, maxLevels) then o.Mutation? && Good(s', maxLevels) else o.Violation? && Stuck(s')
  {
    RecenterExactly(s, mid, maxLevels, window, s', o);
    if !RoomBelow(mid, maxLevels) {
      FailedLadderSticks(s, mid, maxLevels, window, s', o);
    }
  }

  // ----- provider deltas

  datatype DeltaResult = Accepted | StaleEpoch | StaleRange | Gap | Crossed

  ghost function ApplyDelta(s: BookState, epoch: nat, first: nat, last: nat, bids: seq<Level>, asks: seq<Level>,
                            maxLevels: nat): (BookState, DeltaResult) {
    if epoch != s.epoch then (s, StaleEpoch)
    else if last <= s.updateID then (s, StaleRange)
    else if first > s.updateID + 1 then (s, Gap)
    else
      var next := s.(bids := SetLevels(s.bids, bids, true, maxLevels),
                     asks := SetLevels(s.asks, asks, false, maxLevels));
      if Ordered(next) then (next.(updateID := last), Accepted) else (next, Crossed)
  }

  /** A provider's delta is judged by the rules clients apply to ours, refused without effect
      when they refuse it, and beyond them only if it would cross the book. */
  lemma {:induction false} DeltaExactly(s: BookState, epoch: nat, first: nat, last: nat, bids: seq<Level>,
                                        asks: seq<Level>, maxLevels: nat)
    requires Ordered(s)
    ensures var (s', r) := ApplyDelta(s, epoch, first, last, bids, asks, maxLevels);
            var client := BookClient.Client(s.epoch, s.updateID, EMPTY_BOOK, 0, 0);
            var delta := Coalescing.Delta(epoch, first, last, EMPTY_BOOK);
      && (r.Accepted? || r.Crossed? <==> BookClient.Accepts(client, delta, BookClient.Documented))
      && (!r.Accepted? && !r.Crossed? ==> s' == s)
      && (r.Accepted? ==> Ordered(s') && s'.updateID == last && s'.epoch == s.epoch)
      && (r.Crossed? <==> BookClient.Accepts(client, delta, BookClient.Documented) && !Uncrossed(s'.bids, s'.asks))
      && (r.Crossed? ==> s'.updateID == s.updateID)
  {
    SetLevelsKeepsOrder(s.bids, bids, true, maxLevels);
    SetLevelsKeepsOrder(s.asks, asks, false, maxLevels);
  }

  /** And an accepted delta whose prices fit the depth is exactly the merge of the maps, the
      merge a client would make of it. */
  lemma {:induction false} DeltaMergesMaps(s: BookState, epoch: nat, first: nat, last: nat, bids: seq<Level>,
                                           asks: seq<Level>, maxLevels: nat)
    requires Ordered(s) && ApplyDelta(s, epoch, first, last, bids, asks, maxLevels).1.Accepted?
    requires |LevelMap(s.bids).Keys + LevelMap(bids).Keys| <= maxLevels
    requires |LevelMap(s.asks).Keys + LevelMap(asks).Keys| <= maxLevels
    ensures var s' := ApplyDelta(s, epoch, first, last, bids, asks, maxLevels).0;
      BookOf(s'.bids, s'.asks) == PatchBook(BookOf(s.bids, s.asks), BookOf(bids, asks))
  {
    SetLevelsIsPatch(s.bids, bids, true, maxLevels);
    SetLevelsIsPatch(s.asks, asks, false, maxLevels);
  }
}
