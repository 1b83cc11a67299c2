/**
 One side of the canonical book as a best-first list of levels (market/book.go, the level
 helpers), and the map from price to quantity it stands for.
 */
module BookSides {
  import opened Domain
  import opened Levels

  ghost predicate Positive(side: seq<Level>) {
    forall i :: 0 <= i < |side| ==> side[i].quantity > 0
  }

  /** Where a price is inserted: before the first level it beats. */
  function InsertIndex(side: seq<Level>, price: int, descending: bool): (at: nat)
    ensures at <= |side|
  {
    if side == [] || Better(price, side[0].price, descending) then 0
    else 1 + InsertIndex(side[1..], price, descending)
  }

  function Inserted(side: seq<Level>, l: Level, descending: bool): seq<Level> {
    var at := InsertIndex(side, l.price, descending);
    side[..at] + [l] + side[at..]
  }

  /** The first level at a price, or the length of the list. */
  function IndexOf(side: seq<Level>, price: int): (at: nat)
    ensures at <= |side|
    ensures at < |side| ==> side[at].price == price
  {
    if side == [] || side[0].price == price then 0 else 1 + IndexOf(side[1..], price)
  }

  /** applyLevel: delete on zero, overwrite in place, or insert and cut to the cap. */
  function SetLevel(side: seq<Level>, l: Level, descending: bool, maxLevels: nat): seq<Level> {
    var at := IndexOf(side, l.price);
    if l.quantity == 0 then if at < |side| then side[..at] + side[at + 1..] else side
    else if at < |side| then side[at := l]
    else
      var grown := Inserted(side, l, descending);
      if |grown| > maxLevels then grown[..maxLevels] else grown
  }

  lemma {:induction false} InsertIndexIsFirst(side: seq<Level>, price: int, descending: bool)
    ensures var at := InsertIndex(side, price, descending);
      && (forall i :: 0 <= i < at ==> !Better(price, side[i].price, descending))
      && (at < |side| ==> Better(price, side[at].price, descending))
  {
    if side != [] && !Better(price, side[0].price, descending) {
      InsertIndexIsFirst(side[1..], price, descending);
      var at := InsertIndex(side, price, descending);
      assert forall i :: 0 < i < |side| ==> side[i] == side[1..][i - 1];
    }
  }

  lemma {:induction false} IndexOfIsFirst(side: seq<Level>, price: int)
    ensures forall i :: 0 <= i < IndexOf(side, price) ==> side[i].price != price
  {
    if side != [] && side[0].price != price {
      IndexOfIsFirst(side[1..], price);
      assert forall i :: 0 < i < |side| ==> side[i] == side[1..][i - 1];
    }
  }

  // ----- ordered sides

  lemma {:induction false} OrderedHasNoDuplicates(side: seq<Level>, descending: bool)
    requires StrictlyOrdered(side, descending)
    ensures DistinctPrices(side)
  {
    forall i, j | 0 <= i < j < |side| ensures side[i].price != side[j].price {
      assert Better(side[i].price, side[j].price, descending);
    }
  }

  lemma {:induction false} InsertKeepsOrder(side: seq<Level>, l: Level, descending: bool)
    requires StrictlyOrdered(side, descending) && !HasPrice(side, l.price)
    ensures StrictlyOrdered(Inserted(side, l, descending), descending)
    ensures |Inserted(side, l, descending)| == |side| + 1
  {
    InsertIndexIsFirst(side, l.price, descending);
    var at := InsertIndex(side, l.price, descending);
    var out := Inserted(side, l, descending);
    forall i, j | 0 <= i < j < |out| ensures Better(out[i].price, out[j].price, descending) {
      assert out[j] == if j < at then side[j] else if j == at then l else side[j - 1];
      assert out[i] == if i < at then side[i] else if i == at then l else side[i - 1];
      if i == at && j > at + 1 {
        assert Better(side[at].price, side[j - 1].price, descending);
      }
    }
  }

  lemma {:induction false} SetKeepsOrder(side: seq<Level>, l: Level, descending: bool, maxLevels: nat)
    requires StrictlyOrdered(side, descending)
    ensures StrictlyOrdered(SetLevel(side, l, descending, maxLevels), descending)
    ensures |side| <= maxLevels ==> |SetLevel(side, l, descending, maxLevels)| <= maxLevels
    ensures Positive(side) && l.quantity >= 0 ==> Positive(SetLevel(side, l, descending, maxLevels))
  {
    IndexOfIsFirst(side, l.price);
    if l.quantity != 0 && IndexOf(side, l.price) == |side| {
      InsertKeepsOrder(side, l, descending);
    }
  }

  // ----- the map a side stands for

  lemma {:induction false} LevelMapWithout(a: seq<Level>, l: Level, b: seq<Level>)
    requires !HasPrice(a, l.price) && !HasPrice(b, l.price)
    ensures LevelMap(a + b) == LevelMap(a + [l] + b) - {l.price}
  {
    LevelMapInsert(a, l, b);
    LevelMapKeys(a + b, l.price);
    forall i | 0 <= i < |a + b| ensures (a + b)[i].price != l.price {
      assert (a + b)[i] == if i < |a| then a[i] else b[i - |a|];
    }
  }

  /** Overwriting in place is updating the map. */
  lemma {:induction false} LevelMapReplace(side: seq<Level>, at: nat, l: Level)
    requires at < |side| && side[at].price == l.price && DistinctPrices(side)
    ensures LevelMap(side[at := l]) == LevelMap(side)[l.price := l.quantity]
  {
    var a, b := side[..at], side[at + 1..];
    assert side == a + [side[at]] + b && side[at := l] == a + [l] + b;
    forall i | 0 <= i < |b| ensures b[i].price != l.price { assert b[i] == side[at + 1 + i]; }
    LevelMapInsert(a, side[at], b);
    LevelMapInsert(a, l, b);
  }

  lemma {:induction false} DeleteIsRemoval(side: seq<Level>, at: nat)
    requires at < |side| && DistinctPrices(side)
    ensures LevelMap(side[..at] + side[at + 1..]) == LevelMap(side) - {side[at].price}
  {
    var a, b := side[..at], side[at + 1..];
    assert side == a + [side[at]] + b;
    forall i | 0 <= i < |b| ensures b[i].price != side[at].price { assert b[i] == side[at + 1 + i]; }
    LevelMapWithout(a, side[at], b);
  }

  lemma {:induction false} PatchLevel(m: Side, l: Level)
    ensures Patch(m, map[l.price := l.quantity])
         == if l.quantity == 0 then m - {l.price} else m[l.price := l.quantity]
  {
  }

  /** Short of the cap, applyLevel on an ordered side is exactly one patch of its map. */
  lemma {:induction false} SetIsPatch(side: seq<Level>, l: Level, descending: bool, maxLevels: nat)
    requires StrictlyOrdered(side, descending)
    requires |side| < maxLevels || l.quantity == 0 || HasPrice(side, l.price)
    ensures LevelMap(SetLevel(side, l, descending, maxLevels)) == Patch(LevelMap(side), map[l.price := l.quantity])
  {
    OrderedHasNoDuplicates(side, descending);
    IndexOfIsFirst(side, l.price);
    LevelMapKeys(side, l.price);
    PatchLevel(LevelMap(side), l);
    var at := IndexOf(side, l.price);
    if at < |side| {
      if l.quantity == 0 {
        DeleteIsRemoval(side, at);
      } else {
        LevelMapReplace(side, at, l);
      }
    } else if l.quantity != 0 {
      InsertIsUpdate(side, l, descending);
    } else {
      assert LevelMap(side) - {l.price} == LevelMap(side);
    }
  }

  lemma {:induction false} InsertIsUpdate(side: seq<Level>, l: Level, descending: bool)
    requires !HasPrice(side, l.price)
    ensures LevelMap(Inserted(side, l, descending)) == LevelMap(side)[l.price := l.quantity]
    ensures |Inserted(side, l, descending)| == |side| + 1
  {
    var at := InsertIndex(side, l.price, descending);
    forall i | 0 <= i < |side[at..]| ensures side[at..][i].price != l.price { assert side[at..][i] == side[at + i]; }
    LevelMapInsert(side[..at], l, side[at..]);
    assert side[..at] + side[at..] == side;
  }

  /** At the cap a new price costs the worst level, which may be the new one: what remains is
      the best `maxLevels` of the updated map. */
  lemma {:induction false} SetAtCapKeepsTheBest(side: seq<Level>, l: Level, descending: bool, maxLevels: nat)
    requires StrictlyOrdered(side, descending) && |side| == maxLevels > 0
    requires l.quantity != 0 && !HasPrice(side, l.price)
    ensures var out := SetLevel(side, l, descending, maxLevels);
            var grown := Inserted(side, l, descending);
      && |out| == maxLevels && out == grown[..maxLevels]
      && LevelMap(grown) == LevelMap(side)[l.price := l.quantity]
      && forall i :: 0 <= i < |out| ==> Better(out[i].price, grown[maxLevels].price, descending)
  {
    InsertIsUpdate(side, l, descending);
    InsertKeepsOrder(side, l, descending);
    IndexOfIsFirst(side, l.price);
  }

  // ----- a delta, level by level

  function SetLevels(side: seq<Level>, delta: seq<Level>, descending: bool, maxLevels: nat): seq<Level> {
    if delta == [] then side
    else
      var before := SetLevels(side, delta[..|delta| - 1], descending, maxLevels);
      SetLevel(before, delta[|delta| - 1], descending, maxLevels)
  }

  lemma {:induction false} SetLevelsKeepsOrder(side: seq<Level>, delta: seq<Level>, descending: bool, maxLevels: nat)
    requires StrictlyOrdered(side, descending)
    ensures StrictlyOrdered(SetLevels(side, delta, descending, maxLevels), descending)
    ensures |side| <= maxLevels ==> |SetLevels(side, delta, descending, maxLevels)| <= maxLevels
    ensures Positive(side) && (forall i :: 0 <= i < |delta| ==> delta[i].quantity >= 0)
            ==> Positive(SetLevels(side, delta, descending, maxLevels))
  {
    if delta != [] {
      var n := |delta| - 1;
      SetLevelsKeepsOrder(side, delta[..n], descending, maxLevels);
      SetKeepsOrder(SetLevels(side, delta[..n], descending, maxLevels), delta[n], descending, maxLevels);
      assert forall i :: 0 <= i < n ==> delta[..n][i] == delta[i];
    }
  }

  lemma {:induction false} OrderedLength(side: seq<Level>, prices: set<int>)
    requires DistinctPrices(side) && LevelMap(side).Keys <= prices
    ensures |side| <= |prices|
    decreases |side|
  {
    if side != [] {
      var n := |side| - 1;
      var last := side[n].price;
      LevelMapKeys(side, last);
      LevelMapKeys(side[..n], last);
      forall p | p in LevelMap(side[..n]).Keys ensures p in prices - {last} {
        LevelMapKeys(side[..n], p);
      }
      OrderedLength(side[..n], prices - {last});
    }
  }

  /** A whole delta applied to an ordered side is one patch, by the very rules clients apply
      to us, as long as all prices involved fit the cap. */
  lemma {:induction false} SetLevelsIsPatch(side: seq<Level>, delta: seq<Level>, descending: bool, maxLevels: nat)
    requires StrictlyOrdered(side, descending)
    requires |LevelMap(side).Keys + LevelMap(delta).Keys| <= maxLevels
    ensures LevelMap(SetLevels(side, delta, descending, maxLevels)) == Patch(LevelMap(side), LevelMap(delta))
  {
    if delta != [] {
      var n := |delta| - 1;
      var before, l := delta[..n], delta[n];
      var all := LevelMap(side).Keys + LevelMap(delta).Keys;
      assert before + [l] == delta;
      LevelMapAppend(before, l);
      SubsetSize(LevelMap(side).Keys + LevelMap(before).Keys, all);
      SetLevelsIsPatch(side, before, descending, maxLevels);
      SetLevelsKeepsOrder(side, before, descending, maxLevels);
      var mid := SetLevels(side, before, descending, maxLevels);
      OrderedHasNoDuplicates(mid, descending);
      if |mid| >= maxLevels && l.quantity != 0 && !HasPrice(mid, l.price) {
        LevelMapKeys(mid, l.price);
        assert LevelMap(mid).Keys <= all - {l.price};
        OrderedLength(mid, all - {l.price});
      }
      SetIsPatch(mid, l, descending, maxLevels);
      PatchTwice(LevelMap(side), LevelMap(before), l);
    }
  }

  lemma {:induction false} PatchTwice(m: Side, delta: Side, l: Level)
    ensures Patch(Patch(m, delta), map[l.price := l.quantity]) == Patch(m, delta[l.price := l.quantity])
  {
  }
}
