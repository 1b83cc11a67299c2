/**
 The ring of minute buckets behind market/summary.go, as a value, and what it retains.

 The window is `n` minutes long; the source's is 1440.
 */
module SummaryRing {
  import opened Domain

  datatype Bucket = Bucket(set_: bool, minute: int, volume: int, high: int, low: int, open: int, close: int,
                           trades: int)

  const EMPTY := Bucket(false, 0, 0, 0, 0, 0, 0, 0)

  type Ring = r: seq<Bucket> | |r| > 0 witness [EMPTY]

  function Minute(t: Trade): int {
    t.time / NS_PER_MINUTE
  }

  /** bucketIndex; the double remainder is what makes it right for negative minutes. */
  function Slot(minute: int, n: int): (i: int)
    requires n > 0
    ensures i == minute % n
  {
    DoubleRemainder(minute, n);
    GoMod(GoMod(minute, n) + n, n)
  }

  lemma {:induction false} DoubleRemainder(a: int, n: int)
    requires n > 0
    ensures GoMod(GoMod(a, n) + n, n) == a % n
  {
    if a < 0 {
      var q, r := (-a) / n, (-a) % n;
      if r == 0 {
        ModUnique(a, n, -q, 0);
        ModUnique(n, n, 1, 0);
      } else {
        ModUnique(a, n, -q - 1, n - r);
        ModUnique(n - r, n, 0, n - r);
      }
    } else {
      ModUnique(a % n + n, n, 1, a % n);
    }
  }

  function Opened(minute: int, t: Trade): Bucket {
    Bucket(true, minute, t.quantity, t.price, t.price, t.price, t.price, 1)
  }

  /** Folding a trade into its own minute's bucket. */
  function Merged(b: Bucket, minute: int, t: Trade): Bucket {
    if !b.set_ then Opened(minute, t)
    else b.(high := if t.price > b.high then t.price else b.high,
            low := if t.price < b.low then t.price else b.low,
            close := t.price, volume := b.volume + t.quantity, trades := b.trades + 1)
  }

  // ----- what is cached over a ring

  function Volume(r: seq<Bucket>): int {
    if r == [] then 0 else Volume(r[..|r| - 1]) + r[|r| - 1].volume
  }

  function Trades(r: seq<Bucket>): int {
    if r == [] then 0 else Trades(r[..|r| - 1]) + r[|r| - 1].trades
  }

  function Count(r: seq<Bucket>): nat {
    if r == [] then 0 else Count(r[..|r| - 1]) + if r[|r| - 1].set_ then 1 else 0
  }

  /** A slot not in use holds the zero bucket. */
  ghost predicate Clean(r: seq<Bucket>) {
    forall i :: 0 <= i < |r| && !r[i].set_ ==> r[i] == EMPTY
  }

  /** A slot in use has at least one trade. */
  ghost predicate Counted(r: seq<Bucket>) {
    forall i :: 0 <= i < |r| && r[i].set_ ==> r[i].trades > 0
  }

  ghost predicate IsHigh(r: seq<Bucket>, high: int) {
    && (exists i :: 0 <= i < |r| && r[i].set_ && r[i].high == high)
    && (forall i :: 0 <= i < |r| && r[i].set_ ==> r[i].high <= high)
  }

  ghost predicate IsLow(r: seq<Bucket>, low: int) {
    && (exists i :: 0 <= i < |r| && r[i].set_ && r[i].low == low)
    && (forall i :: 0 <= i < |r| && r[i].set_ ==> r[i].low >= low)
  }

  ghost predicate IsOpen(r: seq<Bucket>, open: int, openAt: int) {
    && (exists i :: 0 <= i < |r| && r[i].set_ && r[i].open == open && r[i].minute == openAt)
    && (forall i :: 0 <= i < |r| && r[i].set_ ==> r[i].minute >= openAt)
  }

  datatype Cache = Cache(volume: int, trades: int, count: int, high: int, low: int, open: int, openAt: int)

  const NO_DATA := Cache(0, 0, 0, 0, 0, 0, 0)

  ghost predicate Caches(r: seq<Bucket>, c: Cache) {
    && c.volume == Volume(r) && c.trades == Trades(r) && c.count == Count(r)
    && (c.count > 0 ==> IsHigh(r, c.high) && IsLow(r, c.low) && IsOpen(r, c.open, c.openAt))
    && (c.count == 0 ==> c.high == 0 && c.low == 0 && c.open == 0 && c.openAt == 0)
  }

  lemma {:induction false} SumsAfterUpdate(r: seq<Bucket>, i: nat, b: Bucket)
    requires i < |r|
    ensures Volume(r[i := b]) == Volume(r) - r[i].volume + b.volume
    ensures Trades(r[i := b]) == Trades(r) - r[i].trades + b.trades
    ensures Count(r[i := b]) == Count(r) - (if r[i].set_ then 1 else 0) + (if b.set_ then 1 else 0)
  {
    var n := |r| - 1;
    if i < n {
      SumsAfterUpdate(r[..n], i, b);
      assert r[i := b][..n] == r[..n][i := b];
    } else {
      assert r[i := b][..n] == r[..n];
    }
  }

  lemma {:induction false} CountZero(r: seq<Bucket>)
    ensures Count(r) == 0 <==> forall i :: 0 <= i < |r| ==> !r[i].set_
  {
    if r != [] {
      var n := |r| - 1;
      CountZero(r[..n]);
      assert forall i :: 0 <= i < n ==> r[i] == r[..n][i];
      assert (forall i :: 0 <= i < |r| ==> !r[i].set_) <==> (forall i :: 0 <= i < n ==> !r[..n][i].set_) && !r[n].set_;
    }
  }

  lemma {:induction false} EmptySums(r: seq<Bucket>)
    requires forall i :: 0 <= i < |r| ==> r[i] == EMPTY
    ensures Volume(r) == 0 && Trades(r) == 0 && Count(r) == 0
  {
    if r != [] {
      EmptySums(r[..|r| - 1]);
    }
  }

  // ----- one trade

  function AllEmpty(n: nat): seq<Bucket> {
    seq(n, _ => EMPTY)
  }

  /** Walking the minutes from..to and expiring what fell out of the window. */
  function ExpireSlots(r: Ring, from: int, to: int, oldest: int): (q: Ring)
    ensures |q| == |r|
    decreases if from > to then 0 else to - from + 1
  {
    if from > to then r
    else
      var i := Slot(from, |r|);
      ExpireSlots(if r[i].set_ && r[i].minute < oldest then r[i := EMPTY] else r, from + 1, to, oldest)
  }

  function Advanced(r: Ring, newest: int, minute: int): (q: Ring)
    ensures |q| == |r|
  {
    if Count(r) == 0 || minute <= newest then r
    else if minute - newest >= |r| then AllEmpty(|r|)
    else ExpireSlots(r, newest + 1, minute, minute - |r| + 1)
  }

  function Folded(r: Ring, t: Trade): (q: Ring)
    ensures |q| == |r|
  {
    var m := Minute(t);
    var i := Slot(m, |r|);
    r[i := Merged(if r[i].set_ && r[i].minute != m then EMPTY else r[i], m, t)]
  }

  datatype State = State(ring: Ring, newest: int)

  function Applied(s: State, t: Trade): (q: State)
    ensures |q.ring| == |s.ring|
  {
    var m := Minute(t);
    State(Folded(Advanced(s.ring, s.newest, m), t),
          if Count(s.ring) == 0 || m > s.newest then m else s.newest)
  }

  function Start(n: int): State
    requires n > 0
  {
    State(AllEmpty(n), 0)
  }

  function RunOf(n: int, trades: seq<Trade>): (s: State)
    requires n > 0
    ensures |s.ring| == n
  {
    if trades == [] then Start(n)
    else Applied(RunOf(n, trades[..|trades| - 1]), trades[|trades| - 1])
  }

  // ----- the naive window

  function BucketOf(trades: seq<Trade>, minute: int): Bucket {
    if trades == [] then EMPTY
    else
      var t := trades[|trades| - 1];
      var b := BucketOf(trades[..|trades| - 1], minute);
      if Minute(t) == minute then Merged(b, minute, t) else b
  }

  /** The minute of the window ending at `newest` that lives in slot `i`. */
  function MinuteAt(newest: int, i: int, n: int): int
    requires n > 0
  {
    newest - (newest - i) % n
  }

  /** Every minute's bucket, computed from scratch from all trades. */
  function NaiveRing(trades: seq<Trade>, newest: int, n: nat): seq<Bucket>
    requires n > 0
  {
    seq(n, i => BucketOf(trades, MinuteAt(newest, i, n)))
  }

  lemma {:induction false} MinuteAtRange(newest: int, i: int, n: int)
    requires n > 0 && 0 <= i < n
    ensures newest - n < MinuteAt(newest, i, n) <= newest
    ensures MinuteAt(newest, i, n) % n == i
  {
    var k := (newest - i) / n;
    assert MinuteAt(newest, i, n) == n * k + i;
    ModUnique(MinuteAt(newest, i, n), n, k, i);
  }

  lemma {:induction false} MinuteAtInverse(newest: int, m: int, n: int)
    requires n > 0 && newest - n < m <= newest
    ensures MinuteAt(newest, m % n, n) == m
  {
    MinuteAtRange(newest, m % n, n);
    ModApart(MinuteAt(newest, m % n, n), m, n);
  }

  /** No trade arrives more than a window after its time. */
  ghost predicate NeverLate(n: int, trades: seq<Trade>)
    requires n > 0
  {
    trades == [] ||
    (NeverLate(n, trades[..|trades| - 1]) &&
     OnTime(RunOf(n, trades[..|trades| - 1]), trades[|trades| - 1]))
  }

  ghost predicate OnTime(s: State, t: Trade) {
    Count(s.ring) > 0 ==> Minute(t) > s.newest - |s.ring|
  }

  lemma {:induction false} BucketOfFacts(trades: seq<Trade>, m: int)
    ensures var b := BucketOf(trades, m); if b.set_ then b.minute == m else b == EMPTY
    ensures BucketOf(trades, m).set_ <==> exists k :: 0 <= k < |trades| && Minute(trades[k]) == m
  {
    if trades != [] {
      var n := |trades| - 1;
      BucketOfFacts(trades[..n], m);
      if exists k :: 0 <= k < |trades| && Minute(trades[k]) == m {
        var k :| 0 <= k < |trades| && Minute(trades[k]) == m;
        if k < n { assert trades[..n][k] == trades[k]; }
      }
      if BucketOf(trades, m).set_ && Minute(trades[n]) != m {
        var k :| 0 <= k < n && Minute(trades[..n][k]) == m;
        assert Minute(trades[k]) == m;
      }
    }
  }
}
