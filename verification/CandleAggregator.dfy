/**
 market/candle.go: one interval's aggregator, with its bounded ring of closed candles.
 */
module CandleAggregation {
  import opened Domain
  import opened Candles

  /** How many candles the warmup can supply; used when no depth is configured. */
  function HistoryDepth(iv: Interval): nat {
    match iv case H4 => 180 case D1 => 30 case _ => 500
  }

  /** Where logical position `i` (0 = oldest) sits in the ring. */
  function Position(i: nat, head: nat, closedN: nat, depth: nat): nat
    requires depth > 0
  {
    ((if closedN == depth then head else 0) + i) % depth
  }

  /** The ring holds the newest of `candles`, oldest first, up to its depth. */
  ghost predicate RingHolds(ring: seq<Candle>, head: nat, n: nat, candles: seq<Candle>) {
    && |ring| > 0 && head < |ring|
    && n == (if |candles| <= |ring| then |candles| else |ring|)
    && (n < |ring| ==> head == n)
    && forall i :: 0 <= i < n ==> ring[Position(i, head, n, |ring|)] == candles[|candles| - n + i]
  }

  lemma {:induction false} PushHolds(ring: seq<Candle>, head: nat, n: nat, candles: seq<Candle>, c: Candle)
    requires RingHolds(ring, head, n, candles)
    ensures RingHolds(ring[head := c], (head + 1) % |ring|, if n < |ring| then n + 1 else n, candles + [c])
  {
    var depth := |ring|;
    RingPush(depth, head, n);
    var head', n' := (head + 1) % depth, if n < depth then n + 1 else n;
    var all := candles + [c];
    forall i | 0 <= i < n' ensures ring[head := c][Position(i, head', n', depth)] == all[|all| - n' + i] {
      if i < n' - 1 {
        var j := i + n - (n' - 1);
        assert ring[Position(j, head, n, depth)] == candles[|candles| - n + j];
      }
    }
  }

  class CandleAggregator {
    const symbol: string
    const interval: Interval
    const closed: array<Candle>
    var active: Candle
    var hasActive: bool
    var head: nat
    var closedN: nat
    var lateTrades: nat

    ghost var history: seq<Trade>   // trades of this symbol since the last reset
    ghost var past: seq<Candle>     // every candle closed since then

    /** All candles of the history, the active one last. */
    ghost function Everything(): Series
      reads this
    {
      Series(past + if hasActive then [active] else [], lateTrades)
    }

    ghost predicate Valid()
      reads this, closed
    {
      && Everything() == Aggregate(history, Duration(interval))
      && (!hasActive ==> past == [])
      && RingHolds(closed[..], head, closedN, past)
    }

    constructor (symbol: string, interval: Interval, depth: int)
      ensures Valid() && history == [] && fresh(closed)
      ensures closed.Length == if depth <= 0 then HistoryDepth(interval) else depth
      ensures this.symbol == symbol && this.interval == interval
    {
      var zero := Candle(0, 0, 0, 0, 0, 0, 0, 0);
      var n := if depth <= 0 then HistoryDepth(interval) else depth;
      this.symbol, this.interval := symbol, interval;
      closed := new Candle[n](_ => zero);
      active, hasActive, head, closedN, lateTrades := zero, false, 0, 0, 0;
      history, past := [], [];
    }

    /** A trade of another symbol is none of this aggregator's business; any other is folded
        in, and a candle is reported closed exactly when the trade opens the next. */
    method Apply(t: Trade) returns (changed: bool, finished: Option<Candle>)
      requires Valid()
      modifies this, closed
      ensures Valid()
      ensures t.symbol != symbol ==> !changed && finished == None && history == old(history)
      ensures t.symbol == symbol ==>
        && history == old(history) + [t]
        && Everything() == Fold(old(Everything()), t, Duration(interval))
        && changed == (lateTrades == old(lateTrades))
        && past == old(past) + (if finished.Some? then [finished.value] else [])
        && (finished.Some? ==> old(hasActive) && finished.value == old(active))
    {
      if t.symbol != symbol {
        return false, None;
      }
      assert (history + [t])[..|history|] == history;
      history := history + [t];
      changed, finished := FoldIn(t);
    }

    method FoldIn(t: Trade) returns (changed: bool, finished: Option<Candle>)
      requires RingHolds(closed[..], head, closedN, past) && (!hasActive ==> past == [])
      modifies this`active, this`hasActive, this`head, this`closedN, this`lateTrades, this`past, closed
      ensures RingHolds(closed[..], head, closedN, past) && hasActive
      ensures Everything() == Fold(old(Everything()), t, Duration(interval))
      ensures changed == (lateTrades == old(lateTrades))
      ensures past == old(past) + (if finished.Some? then [finished.value] else [])
      ensures finished.Some? ==> old(hasActive) && finished.value == old(active)
    {
      var bucket := BucketStart(t.time, Duration(interval));
      if !hasActive {
        active := NewCandle(t, Duration(interval));
        hasActive := true;
        return true, None;
      } else if bucket == active.start {
        assert (past + [active])[|past| := Applied(active, t)] == past + [Applied(active, t)];
        active := Applied(active, t);
        return true, None;
      } else if bucket > active.start {
        finished := Some(active);
        PushClosed(active);
        active := NewCandle(t, Duration(interval));
        return true, finished;
      } else {
        lateTrades := lateTrades + 1;
        return false, None;
      }
    }

    method PushClosed(c: Candle)
      requires RingHolds(closed[..], head, closedN, past)
      modifies this`head, this`closedN, this`past, closed
      ensures RingHolds(closed[..], head, closedN, past) && past == old(past) + [c]
    {
      PushHolds(closed[..], head, closedN, past, c);
      ghost var ring := closed[..][head := c];
      closed[head] := c;
      assert closed[..] == ring;
      head := (head + 1) % closed.Length;
      if closedN < closed.Length {
        closedN := closedN + 1;
      }
      past := past + [c];
    }

    /** History excludes the active candle: the newest `limit` closed ones, oldest first. */
    method History(limit: int) returns (out: seq<Candle>)
      requires Valid()
      ensures IsNewest(out, past, if limit <= 0 || limit > closedN then closedN else limit)
      ensures limit > 0 ==> |out| <= limit
    {
      out := Newest(if limit <= 0 || limit > closedN then closedN else limit);
    }

    method Newest(n: nat) returns (out: seq<Candle>)
      requires RingHolds(closed[..], head, closedN, past) && n <= closedN
      ensures IsNewest(out, past, n)
    {
      out := [];
      var i := closedN - n;
      while i < closedN
        invariant closedN - n <= i <= closedN
        invariant out == past[|past| - n..|past| - closedN + i]
      {
        out := out + [closed[Position(i, head, closedN, closed.Length)]];
        assert closed[..][Position(i, head, closedN, closed.Length)] == past[|past| - closedN + i];
        i := i + 1;
      }
    }

    /** With the active candle last: the newest `limit` candles of all, as far as they are kept. */
    method HistoryWithActive(limit: int) returns (out: seq<Candle>)
      requires RingHolds(closed[..], head, closedN, past)
      ensures IsNewest(out, Everything().candles, Shown(limit, closedN, hasActive))
      ensures limit > 0 ==> |out| <= limit && (|out| == limit || |out| == closedN + if hasActive then 1 else 0)
      ensures limit <= 0 ==> |out| == closedN + if hasActive then 1 else 0
      ensures hasActive ==> out != [] && out[|out| - 1] == active
    {
      var room := Room(limit);
      out := Newest(room);
      if hasActive {
        NewestWithLast(out, past, room, active);
        out := out + [active];
      } else {
        NewestWithNone(out, past, room);
      }
    }

    /** How many closed candles fit beside the active one. */
    method Room(limit: int) returns (room: nat)
      ensures room <= closedN
      ensures room + (if hasActive then 1 else 0) == Shown(limit, closedN, hasActive)
    {
      var limit' := if limit <= 0 then closedN + 1 else limit;
      var r := limit';
      if hasActive {
        r := r - 1;
      }
      if r > closedN {
        r := closedN;
      }
      room := r;
    }

    method Reset()
      requires Valid()
      modifies this
      ensures Valid() && history == [] && past == [] && !hasActive && closedN == 0
    {
      hasActive := false;
      active := Candle(0, 0, 0, 0, 0, 0, 0, 0);
      head, closedN, lateTrades := 0, 0, 0;
      history, past := [], [];
    }
  }

  /** `out` is the last `n` of `all`. */
  ghost predicate IsNewest(out: seq<Candle>, all: seq<Candle>, n: int) {
    0 <= n <= |all| && out == all[|all| - n..]
  }

  /** How many candles a limit leaves, of those kept. */
  function Shown(limit: int, closedN: nat, hasActive: bool): int {
    var kept := closedN + if hasActive then 1 else 0;
    if limit <= 0 || limit > kept then kept else limit
  }

  lemma {:induction false} NewestWithNone(out: seq<Candle>, past: seq<Candle>, n: nat)
    requires IsNewest(out, past, n)
    ensures IsNewest(out, past + [], n)
  {
    assert past + [] == past;
  }

  lemma {:induction false} NewestWithLast(out: seq<Candle>, past: seq<Candle>, n: nat, active: Candle)
    requires IsNewest(out, past, n)
    ensures IsNewest(out + [active], past + [active], n + 1)
  {
  }

  /** Pushing moves every retained candle one place older, and the new one comes last. */
  lemma {:induction false} RingPush(depth: nat, head: nat, n: nat)
    requires depth > 0 && head < depth && n <= depth && (n < depth ==> head == n)
    ensures var head', n' := (head + 1) % depth, if n < depth then n + 1 else n;
      && (n' < depth ==> head' == n')
      && Position(n' - 1, head', n', depth) == head
      && forall i :: 0 <= i < n' - 1 ==>
           Position(i, head', n', depth) == Position(i + n - (n' - 1), head, n, depth)
           && Position(i, head', n', depth) != head
  {
    var head', n' := (head + 1) % depth, if n < depth then n + 1 else n;
    if n < depth {
      SmallMod(head + 1, depth);
      forall i | 0 <= i < n'
        ensures Position(i, head', n', depth) == i
        ensures i < n ==> Position(i, head, n, depth) == i
      {
        if n' == depth {
          SmallMod(head' + i, depth);
        }
        SmallMod(i, depth);
      }
    } else {
      SmallMod(head + 1, depth);
      forall i | 0 <= i < depth
        ensures Position(i, head', n', depth) == (if head + 1 + i < depth then head + 1 + i
                                                  else if head + 1 + i < 2 * depth then head + 1 + i - depth
                                                  else head + 1 + i - 2 * depth)
        ensures Position(i, head, n, depth) == if head + i < depth then head + i else head + i - depth
      {
        SmallMod(head' + i, depth);
        SmallMod(head + i, depth);
      }
    }
  }

  lemma {:induction false} SmallMod(a: int, n: int)
    requires n > 0 && 0 <= a < 2 * n
    ensures a % n == if a < n then a else a - n
  {
    ModUnique(a, n, if a < n then 0 else 1, if a < n then a else a - n);
  }
}
