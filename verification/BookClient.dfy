/**
 The client half of the book protocol.

 Two clients follow it. The documented rules (delivery/coalesce_test.go, README "Order-book
 synchronization") check the epoch; the command-line probe (cmd/wsprobe/main.go) does not,
 keeps zero-quantity snapshot levels, and caps each side at fifteen levels.
 */
module BookClient {
  import opened Domain
  import opened Levels
  import opened Coalescing

  datatype Message =
    | SnapshotMsg(epoch: nat, updateID: nat, book: Book)
    | DeltaMsg(delta: Delta)

  datatype Rules = Documented | Probing

  datatype Client = Client(epoch: nat, applied: nat, book: Book, gaps: nat, stale: nat)

  const NEW_CLIENT := Client(0, 0, EMPTY_BOOK, 0, 0)

  predicate Accepts(c: Client, d: Delta, rules: Rules) {
    (rules.Documented? ==> d.epoch == c.epoch) && d.first <= c.applied + 1 && c.applied < d.last
  }

  function Receive(c: Client, m: Message, rules: Rules): Client {
    match m
    case SnapshotMsg(epoch, updateID, book) =>
      if rules.Documented? then c.(epoch := epoch, applied := updateID, book := VisibleBook(book))
      else c.(applied := updateID, book := book)
    case DeltaMsg(d) =>
      if rules.Documented? && d.epoch != c.epoch then c.(gaps := c.gaps + 1)
      else if d.last <= c.applied then c.(stale := c.stale + 1)
      else if d.first > c.applied + 1 then c.(gaps := c.gaps + 1)
      else c.(applied := d.last, book := PatchBook(c.book, d.book))
  }

  /** A delta is either applied or reported: what is refused leaves the book and the
      applied id alone and moves exactly one counter. */
  lemma {:induction false} AppliedOrReported(c: Client, d: Delta, rules: Rules)
    ensures var r := Receive(c, DeltaMsg(d), rules);
      if Accepts(c, d, rules)
      then r.applied == d.last > c.applied && r.gaps == c.gaps && r.stale == c.stale
           && r.book == PatchBook(c.book, d.book)
      else r.applied == c.applied && r.book == c.book && r.epoch == c.epoch
           && r.gaps + r.stale == c.gaps + c.stale + 1
  {
  }

  // ----- the probe

  datatype Wire =
    | WireSnapshot(epoch: nat, updateID: nat, bids: seq<Level>, asks: seq<Level>)
    | WireDelta(epoch: nat, first: nat, last: nat, bids: seq<Level>, asks: seq<Level>)

  function MessageOf(w: Wire): Message {
    match w
    case WireSnapshot(epoch, updateID, bids, asks) => SnapshotMsg(epoch, updateID, BookOf(bids, asks))
    case WireDelta(epoch, first, last, bids, asks) => DeltaMsg(Delta(epoch, first, last, BookOf(bids, asks)))
  }

  const WINDOW_SIZE := 15

  /** `kept` is `full` cut down to the window. Which levels go when there are too many is
      left open: the probe sorts prices as text. */
  ghost predicate IsTrim<K, V>(full: map<K, V>, kept: map<K, V>) {
    && kept.Keys <= full.Keys
    && (forall p :: p in kept ==> kept[p] == full[p])
    && |kept| == (if |full| <= WINDOW_SIZE then |full| else WINDOW_SIZE)
  }

  lemma {:induction false} SmallTrimIsIdentity<K, V>(full: map<K, V>, kept: map<K, V>)
    requires IsTrim(full, kept) && |full| <= WINDOW_SIZE
    ensures kept == full
  {
    assert |kept.Keys| == |kept| && |full.Keys| == |full|;
    SubsetOfSameSize(kept.Keys, full.Keys);
  }

  lemma {:induction false} SubsetOfSameSize<T>(a: set<T>, b: set<T>)
    requires a <= b && |a| == |b|
    ensures a == b
  {
    if x :| x in b && x !in a {
      assert a <= b - {x};
      SubsetSize(a, b - {x});
    }
  }

  class Probe {
    var applied: nat
    var gaps: nat
    var stale: nat
    var bids: Side
    var asks: Side

    /** The probe keeps no epoch. */
    ghost function State(): Client
      reads this
    {
      Client(0, applied, Book(bids, asks), gaps, stale)
    }

    constructor ()
      ensures State() == NEW_CLIENT
    {
      applied, gaps, stale, bids, asks := 0, 0, 0, map[], map[];
    }

    /** The probe follows the rules up to its cap, and exactly while the patched sides
        fit the cap. */
    method Observe(w: Wire)
      modifies this
      ensures var want := Receive(old(State()), MessageOf(w), Probing);
        State().(book := EMPTY_BOOK) == want.(book := EMPTY_BOOK)
            && Capped(want.book, State().book, Applies(old(State()), w))
    {
      match w
      case WireSnapshot(epoch, updateID, newBids, newAsks) =>
        applied := updateID;
        bids := IndexLevels(newBids);
        asks := IndexLevels(newAsks);
      case WireDelta(epoch, first, last, newBids, newAsks) =>
        if last <= applied {
          stale := stale + 1;
          return;
        }
        if first > applied + 1 {
          gaps := gaps + 1;
          return;
        }
        assert Applies(old(State()), w);
        bids := ApplyLevels(bids, newBids);
        asks := ApplyLevels(asks, newAsks);
        ghost var want := Receive(old(State()), MessageOf(w), Probing);
        assert want.book == Book(bids, asks) && want.applied == last;
        bids := TrimToWindow(bids);
        asks := TrimToWindow(asks);
        applied := last;
    }
  }

  predicate Applies(c: Client, w: Wire) {
    w.WireDelta? && Accepts(c, MessageOf(w).delta, Probing)
  }

  ghost predicate Capped(want: Book, got: Book, trimmed: bool) {
    if trimmed then IsTrim(want.bids, got.bids) && IsTrim(want.asks, got.asks) else got == want
  }

  /** While both patched sides fit the cap, the probe's book is the one the rules give. */
  lemma {:induction false} CapIsInvisible(want: Book, got: Book, trimmed: bool)
    requires Capped(want, got, trimmed) && |want.bids| <= WINDOW_SIZE && |want.asks| <= WINDOW_SIZE
    ensures got == want
  {
    if trimmed {
      SmallTrimIsIdentity(want.bids, got.bids);
      SmallTrimIsIdentity(want.asks, got.asks);
    }
  }

  lemma {:induction false} PatchExtended(book: Side, m: Side, l: Level)
    ensures Patch(book, m[l.price := l.quantity])
            == if l.quantity == 0 then Patch(book, m) - {l.price} else Patch(book, m)[l.price := l.quantity]
  {
  }

  /** Applying a list of levels one at a time is one patch by the map it indexes to. */
  method ApplyLevels(book: Side, levels: seq<Level>) returns (out: Side)
    ensures out == Patch(book, LevelMap(levels))
  {
    out := book;
    for i := 0 to |levels|
      invariant out == Patch(book, LevelMap(levels[..i]))
    {
      assert levels[..i + 1] == levels[..i] + [levels[i]];
      LevelMapAppend(levels[..i], levels[i]);
      PatchExtended(book, LevelMap(levels[..i]), levels[i]);
      if levels[i].quantity == 0 {
        out := out - {levels[i].price};
      } else {
        out := out[levels[i].price := levels[i].quantity];
      }
    }
    assert levels[..|levels|] == levels;
  }

  method TrimToWindow(book: Side) returns (kept: Side)
    ensures IsTrim(book, kept)
  {
    kept := book;
    while |kept| > WINDOW_SIZE
      invariant kept.Keys <= book.Keys
      invariant forall p :: p in kept ==> kept[p] == book[p]
      invariant |kept| == |book| || |kept| >= WINDOW_SIZE
      decreases |kept|
    {
      var price := AnyOf(kept.Keys);
      ghost var was := kept;
      kept := kept - {price};
      assert kept.Keys == was.Keys - {price};
    }
  }
}
