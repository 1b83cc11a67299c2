/**
 The book half of delivery/coalesce.go: one session's undelivered book state.

 `CoState` and the functions over it say what each operation does to the state as a
 value; the class does it in place, with the source's loops over maps.
 */
module Coalescing {
  import opened Domain
  import opened Levels

  datatype CoState = CoState(
    window: Book,          // newest engine window
    sent: Book,            // what the client's book is taken to reflect
    epoch: nat,
    updateID: nat,
    clientApplied: nat,
    bookDirty: bool,
    needsSnapshot: bool)

  const FRESH := CoState(EMPTY_BOOK, EMPTY_BOOK, 0, 0, 0, false, false)

  /** One contiguous range for the client. In `book`, quantity zero means delete. */
  datatype Delta = Delta(epoch: nat, first: nat, last: nat, book: Book)

  function OnWindow(c: CoState, epoch: nat, updateID: nat, book: Book): CoState {
    var c1 := if epoch != c.epoch
              then c.(epoch := epoch, needsSnapshot := true, sent := EMPTY_BOOK, clientApplied := 0)
              else c;
    c1.(window := book, updateID := if updateID > c1.updateID then updateID else c1.updateID, bookDirty := true)
  }

  function Take(c: CoState): (CoState, Option<Delta>) {
    if !c.bookDirty || c.needsSnapshot then (c, None)
    else if c.updateID <= c.clientApplied || c.window == c.sent then (c.(bookDirty := false), None)
    else (c.(sent := c.window, clientApplied := c.updateID, bookDirty := false),
          Some(Delta(c.epoch, c.clientApplied + 1, c.updateID, DiffBook(c.window, c.sent))))
  }

  function AfterSnapshot(c: CoState, epoch: nat, updateID: nat): CoState {
    c.(epoch := epoch, updateID := updateID, clientApplied := updateID,
       needsSnapshot := false, bookDirty := false, sent := c.window)
  }

  function AfterGap(c: CoState): CoState {
    c.(clientApplied := c.updateID, bookDirty := true)
  }

  function AfterReset(c: CoState): CoState {
    c.(window := EMPTY_BOOK, sent := EMPTY_BOOK, bookDirty := false, needsSnapshot := true,
       clientApplied := 0, updateID := 0)
  }

  class Coalescer {
    var bids: Side
    var asks: Side
    var sentBids: Side
    var sentAsks: Side
    var epoch: nat
    var updateID: nat
    var clientApplied: nat
    var bookDirty: bool
    var needsSnapshot: bool

    ghost function State(): CoState
      reads this
    {
      CoState(Book(bids, asks), Book(sentBids, sentAsks), epoch, updateID, clientApplied, bookDirty, needsSnapshot)
    }

    constructor ()
      ensures State() == FRESH
    {
      bids, asks, sentBids, sentAsks := map[], map[], map[], map[];
      epoch, updateID, clientApplied := 0, 0, 0;
      bookDirty, needsSnapshot := false, false;
    }

    method OnBookWindow(epoch: nat, updateID: nat, bids: seq<Level>, asks: seq<Level>)
      modifies this
      ensures State() == OnWindow(old(State()), epoch, updateID, BookOf(bids, asks))
      ensures this.epoch == epoch && bookDirty && State().window == BookOf(bids, asks)
      ensures this.updateID >= updateID && this.updateID >= old(this.updateID)
              && (this.updateID == updateID || this.updateID == old(this.updateID))
      ensures epoch != old(this.epoch) ==> needsSnapshot && State().sent == EMPTY_BOOK && clientApplied == 0
      ensures epoch == old(this.epoch) ==>
        needsSnapshot == old(needsSnapshot) && State().sent == old(State()).sent && clientApplied == old(clientApplied)
    {
      if epoch != this.epoch {
        this.epoch := epoch;
        needsSnapshot := true;
        bookDirty := true;
        sentBids := map[];
        sentAsks := map[];
        clientApplied := 0;
      }
      this.bids := IndexLevels(bids);
      this.asks := IndexLevels(asks);
      if updateID > this.updateID {
        this.updateID := updateID;
      }
      bookDirty := true;
    }

    /** The delta handed out indexes to exactly the diff, and is sorted best first,
        so no price appears twice. */
    method TakeBookDelta() returns (ok: bool, e: nat, first: nat, last: nat, outBids: seq<Level>, outAsks: seq<Level>)
      modifies this
      ensures State() == Take(old(State())).0
      ensures ok == Take(old(State())).1.Some?
      ensures ok ==> Take(old(State())).1.value == Delta(e, first, last, BookOf(outBids, outAsks))
      ensures ok ==> StrictlyOrdered(outBids, true) && StrictlyOrdered(outAsks, false)
      ensures ok ==> |outBids| + |outAsks| > 0
    {
      e, first, last, outBids, outAsks := 0, 0, 0, [], [];
      if !bookDirty || needsSnapshot {
        return false, e, first, last, outBids, outAsks;
      }
      if updateID <= clientApplied {
        bookDirty := false;
        return false, e, first, last, outBids, outAsks;
      }
      outBids := DiffLevels(bids, sentBids);
      outAsks := DiffLevels(asks, sentAsks);
      EmptyDiff(bids, sentBids);
      EmptyDiff(asks, sentAsks);
      if |outBids| == 0 && |outAsks| == 0 {
        bookDirty := false;
        return false, e, first, last, outBids, outAsks;
      }
      NonEmptyIndex(outBids);
      NonEmptyIndex(outAsks);
      first := clientApplied + 1;
      last := updateID;
      sentBids := bids;
      sentAsks := asks;
      clientApplied := updateID;
      bookDirty := false;
      outBids := SortLevels(outBids, true);
      outAsks := SortLevels(outAsks, false);
      return true, epoch, first, last, outBids, outAsks;
    }

    method SnapshotSent(epoch: nat, updateID: nat)
      modifies this
      ensures State() == AfterSnapshot(old(State()), epoch, updateID)
    {
      this.epoch := epoch;
      this.updateID := updateID;
      clientApplied := updateID;
      needsSnapshot := false;
      bookDirty := false;
      sentBids := bids;
      sentAsks := asks;
    }

    /** The number returned is the size of the gap the client will see. The source
        subtracts unsigned numbers; it never wraps when the ids are in order. */
    method InjectGap() returns (skipped: int)
      modifies this
      ensures State() == AfterGap(old(State()))
      ensures clientApplied == updateID == old(updateID) && bookDirty && needsSnapshot == old(needsSnapshot)
      ensures skipped == old(updateID) - old(clientApplied)
    {
      var previous := clientApplied;
      clientApplied := updateID;
      bookDirty := true;
      return updateID - previous;
    }

    method Reset()
      modifies this
      ensures State() == AfterReset(old(State()))
      ensures needsSnapshot && !bookDirty && updateID == 0 && clientApplied == 0 && epoch == old(epoch)
      ensures State().window == State().sent == EMPTY_BOOK
    {
      bids, asks, sentBids, sentAsks := map[], map[], map[], map[];
      bookDirty := false;
      needsSnapshot := true;
      clientApplied := 0;
      updateID := 0;
    }
  }

  method IndexLevels(levels: seq<Level>) returns (out: Side)
    ensures out == LevelMap(levels)
  {
    out := map[];
    for i := 0 to |levels|
      invariant out == LevelMap(levels[..i])
    {
      assert levels[..i + 1] == levels[..i] + [levels[i]];
      LevelMapAppend(levels[..i], levels[i]);
      out := out[levels[i].price := levels[i].quantity];
    }
    assert levels[..|levels|] == levels;
  }

  lemma {:induction false} NonEmptyIndex(levels: seq<Level>)
    ensures LevelMap(levels) == map[] <==> levels == []
  {
    if levels != [] {
      assert levels[|levels| - 1].price in LevelMap(levels);
    }
  }

  // ----- the loops

  function Restrict(m: Side, seen: set<int>): Side {
    map p | p in m && p in seen :: m[p]
  }

  lemma {:induction false} RestrictGrows(m: Side, seen: set<int>, price: int)
    ensures Restrict(m, seen + {price})
         == if price in m then Restrict(m, seen)[price := m[price]] else Restrict(m, seen)
  {
  }

  lemma {:induction false} AppendFresh(levels: seq<Level>, l: Level)
    requires DistinctPrices(levels) && l.price !in LevelMap(levels)
    ensures DistinctPrices(levels + [l])
    ensures LevelMap(levels + [l]) == LevelMap(levels)[l.price := l.quantity]
  {
    LevelMapKeys(levels, l.price);
    LevelMapAppend(levels, l);
  }

  /** The diff, one level a price, in whatever order the maps are walked. */
  method DiffLevels(current: Side, sent: Side) returns (out: seq<Level>)
    ensures LevelMap(out) == Diff(current, sent)
    ensures DistinctPrices(out)
  {
    out := ChangedLevels(current, sent);
    var todo := sent.Keys;
    ghost var seen := current.Keys;
    while todo != {}
      invariant todo <= sent.Keys && seen == current.Keys + (sent.Keys - todo)
      invariant DistinctPrices(out)
      invariant LevelMap(out) == Restrict(Diff(current, sent), seen)
      decreases todo
    {
      var price := AnyOf(todo);
      RestrictGrows(Diff(current, sent), seen, price);
      if price !in current {
        AppendFresh(out, Level(price, 0));
        out := out + [Level(price, 0)];
      } else {
        assert seen + {price} == seen;
      }
      todo, seen := todo - {price}, seen + {price};
    }
    assert Restrict(Diff(current, sent), seen) == Diff(current, sent);
  }

  method ChangedLevels(current: Side, sent: Side) returns (out: seq<Level>)
    ensures LevelMap(out) == Restrict(Diff(current, sent), current.Keys)
    ensures DistinctPrices(out)
  {
    out := [];
    var todo := current.Keys;
    ghost var seen: set<int> := {};
    while todo != {}
      invariant todo <= current.Keys && seen == current.Keys - todo
      invariant DistinctPrices(out)
      invariant LevelMap(out) == Restrict(Diff(current, sent), seen)
      decreases todo
    {
      var price := AnyOf(todo);
      RestrictGrows(Diff(current, sent), seen, price);
      if price !in sent || sent[price] != current[price] {
        AppendFresh(out, Level(price, current[price]));
        out := out + [Level(price, current[price])];
      }
      todo, seen := todo - {price}, seen + {price};
    }
    assert seen == current.Keys;
  }

  /** Best-first order. Sorting a delta does not change what it indexes to. */
  method SortLevels(levels: seq<Level>, descending: bool) returns (out: seq<Level>)
    requires DistinctPrices(levels)
    ensures StrictlyOrdered(out, descending)
    ensures LevelMap(out) == LevelMap(levels)
  {
    out := [];
    for i := 0 to |levels|
      invariant StrictlyOrdered(out, descending)
      invariant LevelMap(out) == LevelMap(levels[..i])
    {
      LevelMapKeys(levels[..i], levels[i].price);
      LevelMapAppend(levels[..i], levels[i]);
      assert levels[..i + 1] == levels[..i] + [levels[i]];
      out := PlaceLevel(out, levels[i], descending);
    }
    assert levels[..|levels|] == levels;
  }

  method PlaceLevel(sorted: seq<Level>, l: Level, descending: bool) returns (out: seq<Level>)
    requires StrictlyOrdered(sorted, descending) && l.price !in LevelMap(sorted)
    ensures StrictlyOrdered(out, descending)
    ensures LevelMap(out) == LevelMap(sorted)[l.price := l.quantity]
  {
    var at := 0;
    while at < |sorted| && Better(sorted[at].price, l.price, descending)
      invariant 0 <= at <= |sorted|
      invariant forall j :: 0 <= j < at ==> Better(sorted[j].price, l.price, descending)
    {
      at := at + 1;
    }
    PlacedLevel(sorted, l, at, descending);
    out := sorted[..at] + [l] + sorted[at..];
  }

  lemma {:induction false} PlacedLevel(sorted: seq<Level>, l: Level, at: nat, descending: bool)
    requires StrictlyOrdered(sorted, descending) && l.price !in LevelMap(sorted) && at <= |sorted|
    requires forall j :: 0 <= j < at ==> Better(sorted[j].price, l.price, descending)
    requires at < |sorted| ==> !Better(sorted[at].price, l.price, descending)
    ensures StrictlyOrdered(sorted[..at] + [l] + sorted[at..], descending)
    ensures LevelMap(sorted[..at] + [l] + sorted[at..]) == LevelMap(sorted)[l.price := l.quantity]
  {
    LevelMapKeys(sorted, l.price);
    assert forall j :: at <= j < |sorted| ==> sorted[at..][j - at] == sorted[j];
    LevelMapInsert(sorted[..at], l, sorted[at..]);
    assert sorted[..at] + sorted[at..] == sorted;
    assert at < |sorted| ==> sorted[at].price != l.price;
    PlacedOrder(sorted, l, at, descending);
  }

  lemma {:induction false} PlacedOrder(sorted: seq<Level>, l: Level, at: nat, descending: bool)
    requires StrictlyOrdered(sorted, descending) && at <= |sorted|
    requires forall j :: 0 <= j < at ==> Better(sorted[j].price, l.price, descending)
    requires at < |sorted| ==> Better(l.price, sorted[at].price, descending)
    ensures StrictlyOrdered(sorted[..at] + [l] + sorted[at..], descending)
  {
    var out := sorted[..at] + [l] + sorted[at..];
    forall i, j | 0 <= i < j < |out| ensures Better(out[i].price, out[j].price, descending) {
      assert out[j] == if j < at then sorted[j] else if j == at then l else sorted[j - 1];
      assert out[i] == if i < at then sorted[i] else if i == at then l else sorted[i - 1];
      if i == at && j > at + 1 {
        assert Better(sorted[at].price, sorted[j - 1].price, descending);
      }
    }
  }
}
