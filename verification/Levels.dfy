/**
 Price levels and the maps the delivery layer diffs.

 One side of a book window is a map from price to quantity. A quantity of zero means
 "no level here", so two sides look the same to a reader exactly when `At` agrees on
 every price.
 */
module Levels {

  /** One price level, as it appears in a window or in a delta. */
  datatype Level = Level(price: int, quantity: int)

  type Side = map<int, int>

  datatype Book = Book(bids: Side, asks: Side)

  const EMPTY_BOOK := Book(map[], map[])

  /** The quantity shown at a price; zero when there is no level. */
  function At(side: Side, price: int): int {
    if price in side then side[price] else 0
  }

  ghost predicate SameSide(a: Side, b: Side) {
    forall p :: At(a, p) == At(b, p)
  }

  ghost predicate SameBook(a: Book, b: Book) {
    SameSide(a.bids, b.bids) && SameSide(a.asks, b.asks)
  }

  /** The side a reader sees: levels of quantity zero are not there. */
  function Visible(side: Side): Side {
    map p | p in side && side[p] != 0 :: side[p]
  }

  function VisibleBook(book: Book): Book {
    Book(Visible(book.bids), Visible(book.asks))
  }

  /** Indexing a list of levels by price; a later level for the same price wins. */
  function LevelMap(levels: seq<Level>): Side {
    if levels == [] then map[]
    else
      var l := levels[|levels| - 1];
      LevelMap(levels[..|levels| - 1])[l.price := l.quantity]
  }

  function BookOf(bids: seq<Level>, asks: seq<Level>): Book {
    Book(LevelMap(bids), LevelMap(asks))
  }

  /** What a reader holding `sent` must be told to hold `current` instead. */
  function Diff(current: Side, sent: Side): Side {
    map p | p in current.Keys + sent.Keys && (p in current && p in sent ==> sent[p] != current[p])
      :: At(current, p)
  }

  function DiffBook(current: Book, sent: Book): Book {
    Book(Diff(current.bids, sent.bids), Diff(current.asks, sent.asks))
  }

  /** Applying a delta: zero deletes, anything else sets. */
  function Patch(side: Side, delta: Side): Side {
    map p | p in side.Keys + delta.Keys && (p in delta ==> delta[p] != 0)
      :: if p in delta then delta[p] else side[p]
  }

  function PatchBook(book: Book, delta: Book): Book {
    Book(Patch(book.bids, delta.bids), Patch(book.asks, delta.asks))
  }

  /** Reading a patched side: a price in the delta reads the target of the diff,
      and every price the diff leaves out reads the same in both of its arguments. */
  lemma {:induction false} PatchedDiffAt(side: Side, current: Side, sent: Side, p: int)
    ensures At(Patch(side, Diff(current, sent)), p)
         == if p in Diff(current, sent) then At(current, p) else At(side, p)
    ensures p !in Diff(current, sent) ==> At(current, p) == At(sent, p)
  {
  }

  /** An empty diff means the two sides are the same map. */
  lemma {:induction false} EmptyDiff(current: Side, sent: Side)
    ensures Diff(current, sent) == map[] <==> current == sent
  {
    if Diff(current, sent) == map[] {
      forall p ensures p in current <==> p in sent
               ensures p in current && p in sent ==> current[p] == sent[p]
      {
        assert p !in Diff(current, sent);
      }
    }
  }

  lemma {:induction false} VisibleSame(side: Side)
    ensures SameSide(Visible(side), side)
  {
  }

  // ----- lists of levels

  ghost predicate HasPrice(levels: seq<Level>, price: int) {
    exists i :: 0 <= i < |levels| && levels[i].price == price
  }

  ghost predicate DistinctPrices(levels: seq<Level>) {
    forall i, j :: 0 <= i < j < |levels| ==> levels[i].price != levels[j].price
  }

  /** Which of two prices is nearer the touch: the higher bid, the lower ask. */
  predicate Better(a: int, b: int, descending: bool) {
    if descending then a > b else a < b
  }

  /** Strictly best-first. */
  ghost predicate StrictlyOrdered(levels: seq<Level>, descending: bool) {
    forall i, j :: 0 <= i < j < |levels| ==> Better(levels[i].price, levels[j].price, descending)
  }

  lemma {:induction false} LevelMapKeys(levels: seq<Level>, price: int)
    ensures price in LevelMap(levels) <==> HasPrice(levels, price)
  {
    if levels != [] {
      var n := |levels| - 1;
      LevelMapKeys(levels[..n], price);
      if HasPrice(levels[..n], price) {
        var i :| 0 <= i < n && levels[..n][i].price == price;
        assert levels[i].price == price;
      }
      if HasPrice(levels, price) && levels[n].price != price {
        var i :| 0 <= i < |levels| && levels[i].price == price;
        assert levels[..n][i].price == price;
      }
    }
  }

  lemma {:induction false} LevelMapAppend(levels: seq<Level>, l: Level)
    ensures LevelMap(levels + [l]) == LevelMap(levels)[l.price := l.quantity]
  {
    assert (levels + [l])[..|levels|] == levels;
  }

  /** Inserting a level at a fresh price anywhere in the list sets that price. */
  lemma {:induction false} LevelMapInsert(a: seq<Level>, l: Level, b: seq<Level>)
    requires !HasPrice(b, l.price)
    ensures LevelMap(a + [l] + b) == LevelMap(a + b)[l.price := l.quantity]
    decreases |b|
  {
    if b == [] {
      assert a + [l] + b == a + [l] && a + b == a;
      LevelMapAppend(a, l);
    } else {
      var n := |b| - 1;
      var last := b[n];
      assert b == b[..n] + [last];
      assert a + [l] + b == (a + [l] + b[..n]) + [last];
      assert a + b == (a + b[..n]) + [last];
      LevelMapAppend(a + [l] + b[..n], last);
      LevelMapAppend(a + b[..n], last);
      forall i | 0 <= i < n ensures b[..n][i].price != l.price { assert b[i].price != l.price; }
      LevelMapInsert(a, l, b[..n]);
      assert last.price != l.price;
    }
  }
}
