/**
 exchange/synthetic/generator.go and ladder.go: the price walk with arbitrary Gaussian steps,
 and the ladder that bootstraps the book, with arbitrary gaps within their bounds.
 */
module Synthetic {
  import opened Domain
  import opened Levels
  import opened BookSteps
  import opened BookRuns

  // ----- the price walk

  const MEAN_REVERSION := 4096
  const DRIFT_DIVISOR := 64
  const MAX_DEVIATION_BPS := 1500
  const INITIAL_TRADE_ID := 1_000_000

  /** Go's `/`, which truncates toward zero. */
  function GoDiv(a: int, b: int): int
    requires b > 0
  {
    if a >= 0 then a / b else -((-a) / b)
  }

  datatype Walk = Walk(anchor: int, last: int, drift: int, nextID: nat)

  function Begin(anchor: int): Walk {
    Walk(anchor, anchor, 0, INITIAL_TRADE_ID)
  }

  function Deviation(anchor: int): int {
    GoDiv(anchor * MAX_DEVIATION_BPS, 10_000)
  }

  function Clamped(anchor: int, p: int): int {
    var lo, hi := anchor - Deviation(anchor), anchor + Deviation(anchor);
    if p < lo then lo else if p > hi then hi else p
  }

  /** The error since the last step is mixed into the drift, and the drift into the step. */
  function Moved(w: Walk, gaussianStep: int): Walk {
    var drift := GoDiv(w.drift * (MEAN_REVERSION - 1) + (w.anchor - w.last), MEAN_REVERSION);
    var next := Clamped(w.anchor, w.last + gaussianStep + GoDiv(drift, DRIFT_DIVISOR));
    Walk(w.anchor, next, drift, w.nextID + 1)
  }

  function WalkAfter(anchor: int, steps: seq<int>): Walk {
    if steps == [] then Begin(anchor) else Moved(WalkAfter(anchor, steps[..|steps| - 1]), steps[|steps| - 1])
  }

  class Generator {
    const symbol: string
    const anchor: int
    var last: int
    var drift: int
    var side: TradeSide
    var lastDelta: int
    var nextTradeID: nat

    ghost function State(): Walk
      reads this
    {
      Walk(anchor, last, drift, nextTradeID)
    }

    constructor (symbol: string, anchor: int)
      ensures State() == Begin(anchor) && this.symbol == symbol
    {
      this.symbol, this.anchor := symbol, anchor;
      last, drift, side, lastDelta, nextTradeID := anchor, 0, Buy, 0, INITIAL_TRADE_ID;
    }

    /** The random part of the step is the caller's; the size is some positive amount. */
    method Next(ts: int, gaussianStep: int) returns (t: Trade)
      modifies this
      ensures State() == Moved(old(State()), gaussianStep)
      ensures t.id == old(nextTradeID) && t.symbol == symbol && t.time == ts && t.price == last && t.quantity >= 1
      ensures (last > old(last) ==> t.side == Buy) && (last < old(last) ==> t.side == Sell) && t.side != UnknownSide
    {
      drift := GoDiv(drift * (MEAN_REVERSION - 1) + (anchor - last), MEAN_REVERSION);
      var next := Clamped(anchor, last + gaussianStep + GoDiv(drift, DRIFT_DIVISOR));
      assert Moved(old(State()), gaussianStep) == Walk(anchor, next, drift, nextTradeID + 1);
      side := SideForDelta(next - last);
      last := next;
      var quantity :| quantity >= 1;
      t := Domain.Trade.Trade(nextTradeID, symbol, ts, next, quantity, side);
      nextTradeID := nextTradeID + 1;
    }

    method SideForDelta(delta: int) returns (s: TradeSide)
      modifies this`lastDelta
      ensures delta > 0 ==> s == Buy
      ensures delta < 0 ==> s == Sell
      ensures delta == 0 ==> s == if lastDelta >= 0 then Buy else Sell
      ensures delta == 0 ==> lastDelta == old(lastDelta) || lastDelta == -old(lastDelta)
    {
      if delta > 0 {
        lastDelta := 1;
        return Buy;
      }
      if delta < 0 {
        lastDelta := -1;
        return Sell;
      }
      var flip: bool := *;
      if flip {
        lastDelta := -lastDelta;
      }
      return if lastDelta >= 0 then Buy else Sell;
    }
  }

  lemma {:induction false} QuotientBound(a: nat, b: int, q: int, r: int, d: int, m: int)
    requires b > 0 && d >= 0 && a <= m == b * d && a == b * q + r && 0 <= r
    ensures q <= d
  {
    assert b * (q - d) == a - r - m;
    MulBound(b, q - d);
    if q > d {
      MulBound(q - d, b);
    }
  }

  lemma {:induction false} GoDivBound(a: int, b: int, d: int, m: int)
    requires b > 0 && d >= 0 && m == b * d && -m <= a <= m
    ensures -d <= GoDiv(a, b) <= d
  {
    if a >= 0 {
      QuotientBound(a, b, a / b, a % b, d, m);
      NotNegative(a, b);
    } else {
      QuotientBound(-a, b, (-a) / b, (-a) % b, d, m);
      NotNegative(-a, b);
    }
  }

  lemma {:induction false} NotNegative(a: nat, b: int)
    requires b > 0
    ensures a / b >= 0
  {
  }

  /** Over every run, with any random steps: the price stays within 15% of its anchor, the
      drift never leaves that size either (so its sum cannot overflow where the anchor's
      product does not), and ids are consecutive. */
  lemma {:induction false} WalkStaysInBand(anchor: int, steps: seq<int>)
    requires anchor > 0
    ensures var w, d := WalkAfter(anchor, steps), Deviation(anchor);
      && w.anchor == anchor && w.nextID == INITIAL_TRADE_ID + |steps|
      && -d <= w.last - anchor <= d && -d <= w.drift <= d
      && -(4096 * d) <= w.drift * 4095 + (anchor - w.last) <= 4096 * d
  {
    if steps != [] {
      var w, d := WalkAfter(anchor, steps[..|steps| - 1]), Deviation(anchor);
      WalkStaysInBand(anchor, steps[..|steps| - 1]);
      GoDivBound(w.drift * (MEAN_REVERSION - 1) + (w.anchor - w.last), MEAN_REVERSION, d, MEAN_REVERSION * d);
    }
  }

  lemma {:induction false} GoDivMonotone(a: int, a': int, b: int)
    requires b > 0 && a <= a'
    ensures GoDiv(a, b) <= GoDiv(a', b)
    ensures a' >= a + 2 * b ==> GoDiv(a, b) < GoDiv(a', b)
    ensures a >= 0 ==> GoDiv(a, b) >= 0
    ensures a <= 0 ==> GoDiv(a, b) <= 0
  {
    GoDivIs(a, b, GoDiv(a, b));
    GoDivIs(a', b, GoDiv(a', b));
    Apart(GoDiv(a, b), GoDiv(a', b), b);
  }

  /** The quotient is cut off toward zero. */
  lemma {:induction false} GoDivIs(a: int, b: int, q: int)
    requires b > 0 && q == GoDiv(a, b)
    ensures a >= 0 ==> q >= 0 && 0 <= a - q * b < b
    ensures a < 0 ==> q <= 0 && -b < a - q * b <= 0
  {
    if a >= 0 {
      NotNegative(a, b);
      assert a == b * (a / b) + a % b;
    } else {
      NotNegative(-a, b);
      assert -a == b * ((-a) / b) + (-a) % b;
    }
  }

  lemma {:induction false} Apart(p: int, q: int, b: int)
    requires b > 0
    ensures p > q ==> p * b >= q * b + b
    ensures p == q ==> p * b == q * b
  {
    assert (p - q) * b == p * b - q * b;
    MulBound(b, p - q);
    if p > q {
      MulBound(p - q, b);
    }
  }

  /** The walk reverts: of two walks with one anchor and the same drift, the one whose price is
      lower never drifts lower, and drifts higher when the prices are two divisors apart. */
  lemma {:induction false} LowerDriftsUp(low: Walk, high: Walk, step: int, step': int)
    requires low.anchor == high.anchor && low.drift == high.drift && low.last <= high.last
    ensures Moved(low, step).drift >= Moved(high, step').drift
    ensures high.last - low.last >= 2 * MEAN_REVERSION ==> Moved(low, step).drift > Moved(high, step').drift
  {
    var d := low.drift * (MEAN_REVERSION - 1);
    GoDivMonotone(d + (low.anchor - high.last), d + (low.anchor - low.last), MEAN_REVERSION);
  }

  /** From rest the drift points back to the anchor and never past it, and without a random
      step so does the price. */
  lemma {:induction false} RestReverts(w: Walk, step: int)
    requires w.drift == 0 && w.anchor > 0 && -Deviation(w.anchor) <= w.last - w.anchor <= Deviation(w.anchor)
    ensures var v := Moved(w, step);
      && (w.last <= w.anchor ==> 0 <= v.drift <= w.anchor - w.last)
      && (w.last >= w.anchor ==> w.anchor - w.last <= v.drift <= 0)
    ensures var v := Moved(w, 0);
      && (w.last <= w.anchor ==> w.last <= v.last <= w.anchor)
      && (w.last >= w.anchor ==> w.anchor <= v.last <= w.last)
  {
    GoDivShrinks(w.anchor - w.last, MEAN_REVERSION);
    GoDivShrinks(Moved(w, 0).drift, DRIFT_DIVISOR);
  }

  lemma {:induction false} GoDivShrinks(a: int, b: int)
    requires b > 0
    ensures if a >= 0 then 0 <= GoDiv(a, b) <= a else a <= GoDiv(a, b) <= 0
  {
    GoDivIs(a, b, GoDiv(a, b));
    var q := GoDiv(a, b);
    if q > 0 {
      MulBound(q, b);
    } else if q < 0 {
      MulBound(-q, b);
      assert (-q) * b == -(q * b);
    }
  }

  /** Inside the band the random step moves the price by exactly that much; at its edges the
      price stops there. */
  lemma {:induction false} StepMovesThePrice(w: Walk, step: int, step': int)
    requires w.anchor > 0
    ensures var p, p', d := Moved(w, step).last, Moved(w, step').last, Deviation(w.anchor);
      && (-d < p - w.anchor < d && -d < p' - w.anchor < d ==> p' - p == step' - step)
      && (step <= step' ==> p <= p')
      && (p' - w.anchor < d && p - w.anchor > -d && step <= step' ==> p' - p == step' - step)
  {
  }

  /** The band is 15% of the anchor either way, in whole units. */
  lemma {:induction false} BandWidth(anchor: int)
    requires anchor > 0
    ensures 10_000 * Deviation(anchor) <= 1500 * anchor < 10_000 * (Deviation(anchor) + 1)
  {
  }

  // ----- the walk and the book

  /** The anchors of the roster, domain/symbol.go. */
  const ROSTER := [6_742_135, 3_421_200, 1_824_000, 5_941_000, 287_500, 4_820]

  const LEVELS := 100

  /** Within a band of twenty depths the spacing is constant. */
  lemma {:induction false} StepsInBand(a: nat, n: nat, q: nat)
    requires 20 * q <= a + 1 && a + n < 20 * q + 20
    ensures Steps(a + n) == Steps(a) + n * (1 + q)
    decreases n
  {
    if n > 0 {
      StepsInBand(a, n - 1, q);
      ModUnique(a + n, 20, q, a + n - 20 * q);
      OneMore(n - 1, 1 + q);
    }
  }

  lemma {:induction false} StepsTo98(a: nat, b: nat, c: nat, d: nat, e: nat)
    requires a == 19 && b == 39 && c == 59 && d == 79 && e == 98
    ensures Steps(e) == 294
  {
    StepsInBand(0, a, 0);
    StepsInBand(a, 20, 1);
    StepsInBand(b, 20, 2);
    StepsInBand(c, 20, 3);
    StepsInBand(d, 19, 4);
  }

  /** A price the walk can reach in some market of the roster. */
  ghost predicate RosterPrice(p: int) {
    exists anchor, steps :: anchor in ROSTER && p == WalkAfter(anchor, steps).last
  }

  lemma {:induction false} RosterFloor(p: int)
    requires RosterPrice(p)
    ensures p >= 4_097
  {
    var anchor, steps :| anchor in ROSTER && p == WalkAfter(anchor, steps).last;
    WalkStaysInBand(anchor, steps);
  }

  /** So a refresh of a good book at any price of any roster market succeeds, whatever the
      random choices of the walk and of the book. */
  lemma {:induction false} RosterRefreshSucceeds(s: BookState, p: int, window: int, s': BookState, o: Outcome)
    requires RosterPrice(p) && Good(s, LEVELS) && BookRuns.Step(s, Refresh(p), LEVELS, window, s', o)
    ensures RoomBelow(p, LEVELS)
    ensures o.Mutation? && Good(s', LEVELS) && s'.updateID == s.updateID + 1 && |s'.asks| == LEVELS
  {
    RosterFloor(p);
    StepsTo98(19, 39, 59, 79, LEVELS - 2);
    StepExactly(s, Refresh(p), LEVELS, window, s', o);
  }

  // ----- the bootstrap ladder

  /** Distances from the touch: one or two ticks more at each level. */
  ghost predicate Gaps(cum: seq<int>) {
    forall i :: 0 <= i < |cum| ==> 1 <= Gap(cum, i) <= 2
  }

  function Gap(cum: seq<int>, i: nat): int
    requires i < |cum|
  {
    if i == 0 then cum[0] else cum[i] - cum[i - 1]
  }

  function TouchBid(mid: int, half: int): int {
    AtLeastOne(mid - half)
  }

  function TouchAsk(mid: int, half: int): int {
    if mid + half <= TouchBid(mid, half) then TouchBid(mid, half) + 1 else mid + half
  }

  function LadderBid(best: int, levels: nat, i: nat, gap: int): int {
    if best - gap <= 0 then 1 + (levels - i) else best - gap
  }

  ghost predicate IsLadder(mid: int, levels: nat, half: int, cum: seq<int>, bids: seq<Level>, asks: seq<Level>) {
    && |cum| == |bids| == |asks| == levels && Gaps(cum)
    && forall i :: 0 <= i < levels ==>
         && bids[i].price == LadderBid(TouchBid(mid, half), levels, i, cum[i])
         && asks[i].price == TouchAsk(mid, half) + cum[i]
         && bids[i].quantity >= 1 && asks[i].quantity >= 1
  }

  lemma {:induction false} GapsAppend(cum: seq<int>, gap: int)
    requires Gaps(cum) && 1 <= gap - (if cum == [] then 0 else cum[|cum| - 1]) <= 2
    ensures Gaps(cum + [gap])
  {
    var more := cum + [gap];
    forall i | 0 <= i < |cum| ensures Gap(more, i) == Gap(cum, i) {
    }
  }

  /** An unset depth means the default configuration, half spread included. */
  function DepthOf(levels: int): nat {
    if levels <= 0 then LEVELS else levels
  }

  function HalfOf(levels: int, halfSpread: int): int {
    if levels <= 0 then 2 else if halfSpread < 1 then 1 else halfSpread
  }

  method BuildLadder(mid: int, levels: int, halfSpread: int) returns (bids: seq<Level>, asks: seq<Level>)
    ensures exists cum :: IsLadder(mid, DepthOf(levels), HalfOf(levels, halfSpread), cum, bids, asks)
  {
    var n: nat, half := if levels <= 0 then LEVELS else levels, if levels <= 0 then 2 else halfSpread;
    if half < 1 {
      half := 1;
    }
    var bestBid, bestAsk := mid - half, mid + half;
    if bestBid <= 0 {
      bestBid := 1;
    }
    if bestAsk <= bestBid {
      bestAsk := bestBid + 1;
    }
    assert bestBid == TouchBid(mid, half) && bestAsk == TouchAsk(mid, half);
    bids, asks := [], [];
    ghost var cum: seq<int> := [];
    var gap := 0;
    for i := 0 to n
      invariant |cum| == |bids| == |asks| == i && Gaps(cum)
      invariant gap == if i == 0 then 0 else cum[i - 1]
      invariant forall j :: 0 <= j < i ==>
        && bids[j].price == LadderBid(bestBid, n, j, cum[j]) && asks[j].price == bestAsk + cum[j]
        && bids[j].quantity >= 1 && asks[j].quantity >= 1
    {
      var more :| 1 <= more <= 2;
      gap := gap + more;
      var bp, ap := bestBid - gap, bestAsk + gap;
      if bp <= 0 {
        bp := 1 + (n - i);
      }
      var bidSize, askSize :| bidSize >= 1 && askSize >= 1;
      bids := bids + [Level(bp, bidSize)];
      asks := asks + [Level(ap, askSize)];
      GapsAppend(cum, gap);
      cum := cum + [gap];
    }
    assert IsLadder(mid, DepthOf(levels), HalfOf(levels, halfSpread), cum, bids, asks);
  }

  lemma {:induction false} GapRange(cum: seq<int>, i: nat, j: nat)
    requires Gaps(cum) && i <= j < |cum|
    ensures i + 1 <= cum[i] <= 2 * (i + 1)
    ensures cum[j] - cum[i] >= j - i
    decreases j
  {
    assert 1 <= Gap(cum, j) <= 2;
    if i < j {
      GapRange(cum, i, j - 1);
    } else if i > 0 {
      GapRange(cum, i - 1, i - 1);
    }
  }

  lemma {:induction false} LadderIsGood(mid: int, levels: nat, half: int, cum: seq<int>, bids: seq<Level>,
                                        asks: seq<Level>)
    requires IsLadder(mid, levels, half, cum, bids, asks) && TouchBid(mid, half) > 2 * levels
    ensures WellFormed(BookState(0, 0, bids, asks), levels)
  {
    forall i | 0 <= i < levels ensures bids[i].price == TouchBid(mid, half) - cum[i] >= 1 {
      GapRange(cum, i, i);
    }
    forall i, j | 0 <= i < j < levels ensures Better(bids[i].price, bids[j].price, true)
        && Better(asks[i].price, asks[j].price, false) {
      GapRange(cum, i, j);
    }
    if levels > 0 {
      GapRange(cum, 0, 0);
    }
  }

  /** Away from zero a ladder is a mirror image around its mid: every level is as far below as
      its counterpart is above, the touch half a spread and a tick or two out, and each level
      a tick or two further. */
  lemma {:induction false} LadderIsSymmetric(mid: int, levels: nat, half: int, cum: seq<int>, bids: seq<Level>,
                                             asks: seq<Level>, i: nat)
    requires IsLadder(mid, levels, half, cum, bids, asks) && half >= 1 && mid - half > 2 * levels && i < levels
    ensures mid - bids[i].price == asks[i].price - mid
    ensures i == 0 ==> half + 1 <= asks[i].price - mid <= half + 2
    ensures i > 0 ==> 1 <= asks[i].price - asks[i - 1].price <= 2
  {
    GapRange(cum, i, i);
    assert 1 <= Gap(cum, i) <= 2;
  }

  /** With every gap two ticks the ladder runs out of prices. */
  lemma {:induction false} LadderBreaks(mid: int, levels: nat, bids: seq<Level>, asks: seq<Level>, cum: seq<int>)
    requires levels >= 20 && TouchBid(mid, 2) <= 2 * levels
    requires cum == seq(levels, i => 2 * (i + 1)) && IsLadder(mid, levels, 2, cum, bids, asks)
    ensures !Ordered(BookState(0, 0, bids, asks))
  {
    var best := TouchBid(mid, 2);
    if best <= 2 {
      assert bids[0].price == 1 + levels;
      assert asks[0].price == TouchAsk(mid, 2) + 2;
    } else {
      var k := (best + 1) / 2 - 1;
      assert cum[k] == 2 * (k + 1) && cum[k - 1] == 2 * k;
      assert bids[k].price == 1 + (levels - k) && bids[k - 1].price == best - 2 * k;
      assert !Better(bids[k - 1].price, bids[k].price, true);
    }
  }

  /** With the shape used for every market, every ladder the random gaps can give is a
      well-formed book exactly when the mid is above twice the depth plus the half spread. */
  lemma {:induction false} LadderExactly(mid: int, levels: nat)
    requires levels >= 20
    ensures mid - 2 > 2 * levels
            <==> forall cum, bids, asks ::
                   IsLadder(mid, levels, 2, cum, bids, asks) ==> Ordered(BookState(0, 0, bids, asks))
  {
    if mid - 2 > 2 * levels {
      forall cum, bids, asks | IsLadder(mid, levels, 2, cum, bids, asks) ensures Ordered(BookState(0, 0, bids, asks)) {
        LadderIsGood(mid, levels, 2, cum, bids, asks);
      }
    } else {
      var cum := seq(levels, i => 2 * (i + 1));
      var best := TouchBid(mid, 2);
      var bids := seq(levels, i requires 0 <= i < levels => Level(LadderBid(best, levels, i, 2 * (i + 1)), 1));
      var asks := seq(levels, i => Level(TouchAsk(mid, 2) + 2 * (i + 1), 1));
      assert IsLadder(mid, levels, 2, cum, bids, asks);
      LadderBreaks(mid, levels, bids, asks, cum);
    }
  }

  /** A roster market therefore starts from a good book at full depth, at any of its prices. */
  lemma {:induction false} BootstrapIsGood(p: int, epoch: nat, updateID: nat, cum: seq<int>, bids: seq<Level>,
                                           asks: seq<Level>)
    requires RosterPrice(p) && IsLadder(p, LEVELS, 2, cum, bids, asks)
    ensures Good(BookState(epoch, updateID, bids, asks), LEVELS) && |bids| == |asks| == LEVELS
  {
    RosterFloor(p);
    LadderIsGood(p, LEVELS, 2, cum, bids, asks);
  }
}
