/**
 Whole lifetimes of the canonical book: trades and refreshes, the provider's own deltas, and
 resets, as market/engine.go applies them to one book.
 */
module BookLifetimes {
  import opened Levels
  import opened BookSides
  import opened BookSteps
  import opened BookRuns
  import BookProtocol
  import Sessions

  datatype MarketEvent =
    | Own(event: Event)
    | Delta(epoch: nat, first: nat, last: nat, bids: seq<Level>, asks: seq<Level>)
    | Reset(epoch: nat, updateID: nat, bids: seq<Level>, asks: seq<Level>)

  datatype Reply = Published(outcome: Outcome) | Judged(result: DeltaResult) | Installed(ok: bool)

  /** What Install refuses: an empty or crossed touch. */
  predicate Refused(bids: seq<Level>, asks: seq<Level>) {
    bids == [] || asks == [] || bids[0].price >= asks[0].price
  }

  ghost predicate MarketStep(s: BookState, e: MarketEvent, maxLevels: nat, window: int, s': BookState, reply: Reply) {
    match e
    case Own(event) => reply.Published? && BookRuns.Step(s, event, maxLevels, window, s', reply.outcome)
    case Delta(epoch, first, last, bids, asks) =>
      reply.Judged? && (s', reply.result) == ApplyDelta(s, epoch, first, last, bids, asks, maxLevels)
    case Reset(epoch, updateID, bids, asks) =>
      && reply == Installed(!Refused(bids, asks))
      && s' == if reply.ok then BookState(epoch, updateID, TrimTo(bids, maxLevels), TrimTo(asks, maxLevels)) else s
  }

  ghost predicate Sane(levels: seq<Level>) {
    forall i :: 0 <= i < |levels| ==> levels[i].price >= 1 && levels[i].quantity >= 0
  }

  /** What the provider owes: deltas without absurd levels, snapshots in order with real sizes,
      and a later epoch at every reset. */
  ghost predicate Fair(s: BookState, e: MarketEvent) {
    match e
    case Own(_) => true
    case Delta(_, _, _, bids, asks) => Sane(bids) && Sane(asks)
    case Reset(epoch, _, bids, asks) =>
      && epoch > s.epoch && StrictlyOrdered(bids, true) && StrictlyOrdered(asks, false)
      && Positive(bids) && Positive(asks) && Priced(bids) && Priced(asks)
  }

  /** A report, with the broken levels left in the book. */
  predicate Reported(reply: Reply) {
    reply == Published(Violation) || reply == Judged(Crossed)
  }

  /** The only ways to a report from a well-formed book of any depth. */
  ghost predicate Breaks(s: BookState, e: MarketEvent, maxLevels: nat)
    requires maxLevels >= 2
  {
    match e
    case Own(Trade(quantity, buy)) =>
      s.bids != [] && s.asks != [] && !buy && Exhausts(s.bids, quantity) && s.bids[|s.bids| - 1].price == 1
    case Own(Refresh(mid)) =>
      mid > 0 && (s.bids == [] || s.asks == [] || NeedsRecenter(s, mid, maxLevels)) && !RoomBelow(mid, maxLevels)
    case Delta(epoch, first, last, bids, asks) =>
      && epoch == s.epoch && first <= s.updateID + 1 && s.updateID < last
      && !Uncrossed(SetLevels(s.bids, bids, true, maxLevels), SetLevels(s.asks, asks, false, maxLevels))
    case Reset(_, _, _, _) => false
  }

  /** Not before: a later epoch, or the same one and no smaller id. */
  predicate NotBefore(a: BookState, b: BookState) {
    a.epoch < b.epoch || (a.epoch == b.epoch && a.updateID <= b.updateID)
  }

  lemma {:induction false} SetKeepsPriced(side: seq<Level>, l: Level, descending: bool, maxLevels: nat)
    requires Priced(side) && l.price >= 1
    ensures Priced(SetLevel(side, l, descending, maxLevels))
  {
  }

  lemma {:induction false} SetLevelsKeepsPriced(side: seq<Level>, delta: seq<Level>, descending: bool, maxLevels: nat)
    requires Priced(side) && Sane(delta)
    ensures Priced(SetLevels(side, delta, descending, maxLevels))
  {
    if delta != [] {
      var n := |delta| - 1;
      assert forall i :: 0 <= i < n ==> delta[..n][i] == delta[i];
      SetLevelsKeepsPriced(side, delta[..n], descending, maxLevels);
      SetKeepsPriced(SetLevels(side, delta[..n], descending, maxLevels), delta[n], descending, maxLevels);
    }
  }

  lemma {:induction false} DeltaKeepsSide(side: seq<Level>, delta: seq<Level>, descending: bool, maxLevels: nat)
    requires StrictlyOrdered(side, descending) && Positive(side) && Priced(side) && |side| <= maxLevels && Sane(delta)
    ensures var out := SetLevels(side, delta, descending, maxLevels);
      StrictlyOrdered(out, descending) && Positive(out) && Priced(out) && |out| <= maxLevels
  {
    SetLevelsKeepsOrder(side, delta, descending, maxLevels);
    SetLevelsKeepsPriced(side, delta, descending, maxLevels);
  }

  lemma {:induction false} OwnStepExactly(s: BookState, e: Event, maxLevels: nat, window: int, s': BookState,
                                          o: Outcome)
    requires maxLevels >= 2 && WellFormed(s, maxLevels) && BookRuns.Step(s, e, maxLevels, window, s', o)
    ensures o.Violation? <==> Breaks(s, Own(e), maxLevels)
    ensures !o.Violation? ==> WellFormed(s', maxLevels)
    ensures s'.epoch == s.epoch && s'.updateID == s.updateID + if o.Mutation? then 1 else 0
  {
    match e
    case Trade(quantity, buy) =>
      if s.bids != [] && s.asks != [] {
        TradeExactly(s, quantity, buy, window, maxLevels, s', o);
      }
    case Refresh(mid) =>
      if s.bids == [] || s.asks == [] || NeedsRecenter(s, mid, maxLevels) {
        if mid > 0 {
          RecenterExactly(s, mid, maxLevels, window, s', o);
        }
      } else {
        ChurnIsSafe(s, s'.bids, s'.asks, window, maxLevels, s', o);
      }
  }

  lemma {:induction false} DeltaStepExactly(s: BookState, e: MarketEvent, maxLevels: nat, s': BookState, r: DeltaResult)
    requires maxLevels >= 2 && WellFormed(s, maxLevels) && e.Delta? && Sane(e.bids) && Sane(e.asks)
    requires (s', r) == ApplyDelta(s, e.epoch, e.first, e.last, e.bids, e.asks, maxLevels)
    ensures r.Crossed? <==> Breaks(s, e, maxLevels)
    ensures !r.Crossed? ==> WellFormed(s', maxLevels)
    ensures s'.epoch == s.epoch && s'.updateID == if r.Accepted? then e.last else s.updateID
    ensures r.Accepted? ==> e.last > s.updateID
  {
    DeltaKeepsSide(s.bids, e.bids, true, maxLevels);
    DeltaKeepsSide(s.asks, e.asks, false, maxLevels);
  }

  /** One step of the market from a well-formed book: it is reported exactly when it breaks;
      otherwise the book stays well formed, and it never goes back. */
  lemma {:induction false} MarketStepExactly(s: BookState, e: MarketEvent, maxLevels: nat, window: int, s': BookState,
                                             reply: Reply)
    requires maxLevels >= 2 && WellFormed(s, maxLevels) && Fair(s, e) && MarketStep(s, e, maxLevels, window, s', reply)
    ensures Reported(reply) <==> Breaks(s, e, maxLevels)
    ensures !Reported(reply) ==> WellFormed(s', maxLevels)
    ensures NotBefore(s, s')
  {
    match e
    case Own(event) => OwnStepExactly(s, event, maxLevels, window, s', reply.outcome);
    case Delta(_, _, _, _, _) => DeltaStepExactly(s, e, maxLevels, s', reply.result);
    case Reset(epoch, updateID, bids, asks) =>
  }

  datatype Lifetime = Lifetime(states: seq<BookState>, events: seq<MarketEvent>, replies: seq<Reply>)

  ghost predicate IsLifetime(l: Lifetime, maxLevels: nat, window: int) {
    && |l.states| == |l.events| + 1 && |l.replies| == |l.events|
    && forall k :: 0 <= k < |l.events| ==> LivesAt(l, maxLevels, window, k)
  }

  ghost predicate LivesAt(l: Lifetime, maxLevels: nat, window: int, k: nat)
    requires |l.states| == |l.events| + 1 && |l.replies| == |l.events| && k < |l.events|
  {
    && Fair(l.states[k], l.events[k])
    && MarketStep(l.states[k], l.events[k], maxLevels, window, l.states[k + 1], l.replies[k])
  }

  ghost predicate QuietUpTo(l: Lifetime, k: nat)
    requires k <= |l.replies|
  {
    forall i :: 0 <= i < k ==> !Reported(l.replies[i])
  }

  /** Over every lifetime, in any mix: until something is reported the book is well formed, and
      it has never gone back. */
  lemma {:induction false} LifetimeIsSafe(l: Lifetime, maxLevels: nat, window: int, j: nat, k: nat)
    requires maxLevels >= 2 && IsLifetime(l, maxLevels, window) && j <= k < |l.states|
    requires WellFormed(l.states[0], maxLevels) && QuietUpTo(l, k)
    ensures WellFormed(l.states[k], maxLevels) && NotBefore(l.states[j], l.states[k])
  {
    if k > 0 {
      LifetimeIsSafe(l, maxLevels, window, if j < k then j else k - 1, k - 1);
      assert LivesAt(l, maxLevels, window, k - 1);
      MarketStepExactly(l.states[k - 1], l.events[k - 1], maxLevels, window, l.states[k], l.replies[k - 1]);
    }
  }

  /** The first report comes at exactly the first event that breaks. */
  lemma {:induction false} FirstReportOfLifetime(l: Lifetime, maxLevels: nat, window: int, k: nat)
    requires maxLevels >= 2 && IsLifetime(l, maxLevels, window) && k < |l.events|
    requires WellFormed(l.states[0], maxLevels) && QuietUpTo(l, k)
    ensures Reported(l.replies[k]) <==> Breaks(l.states[k], l.events[k], maxLevels)
  {
    LifetimeIsSafe(l, maxLevels, window, k, k);
    assert LivesAt(l, maxLevels, window, k);
    MarketStepExactly(l.states[k], l.events[k], maxLevels, window, l.states[k + 1], l.replies[k]);
  }

  function ViewOf(s: BookState): Sessions.View {
    Sessions.View(s.epoch, s.updateID, BookOf(s.bids, s.asks))
  }

  /** So the book is an engine as the delivery protocol wants it: from any point of its life to
      any later one is a step its surroundings may take. */
  lemma {:induction false} LifetimeFeedsProtocol(l: Lifetime, maxLevels: nat, window: int, j: nat, k: nat,
                                                 sess: Sessions.Sess)
    requires maxLevels >= 2 && IsLifetime(l, maxLevels, window) && j <= k < |l.states|
    requires WellFormed(l.states[0], maxLevels) && QuietUpTo(l, k)
    ensures BookProtocol.Env(BookProtocol.World(ViewOf(l.states[j]), sess), BookProtocol.Advance(ViewOf(l.states[k])))
  {
    LifetimeIsSafe(l, maxLevels, window, j, k);
  }
}
