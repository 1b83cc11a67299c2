/**
 Coalescing and flush schedules: how often a session flushes must not change what its
 client ends up holding (delivery/coalesce_test.go, CoalescedRangeEqualsSequentialApplication).
 */
module Schedules {
  import opened Domain
  import opened Levels
  import opened Coalescing
  import opened BookClient

  datatype Event = Window(updateID: nat, book: Book) | Tick

  /** A coalescer whose deltas its client receives at once. */
  datatype Pair = Pair(co: CoState, client: Client)

  function Next(s: Pair, e: Event): Pair {
    match e
    case Window(id, book) => s.(co := OnWindow(s.co, s.co.epoch, id, book))
    case Tick =>
      var (co, d) := Take(s.co);
      Pair(co, if d.Some? then Receive(s.client, DeltaMsg(d.value), Documented) else s.client)
  }

  function Drive(s: Pair, events: seq<Event>): Pair {
    if events == [] then s
    else Next(Drive(s, events[..|events| - 1]), events[|events| - 1])
  }

  function Newest(id: nat, events: seq<Event>): nat {
    if events == [] then id
    else match events[|events| - 1]
         case Window(updateID, _) => updateID
         case Tick => Newest(id, events[..|events| - 1])
  }

  function LastBook(book: Book, events: seq<Event>): Book {
    if events == [] then book
    else match events[|events| - 1]
         case Window(_, last) => last
         case Tick => LastBook(book, events[..|events| - 1])
  }

  /** The windows of one epoch, as the engine publishes them: every id is new. */
  ghost predicate Increasing(id: nat, events: seq<Event>) {
    events == [] ||
    var before := events[..|events| - 1];
    Increasing(id, before) &&
    (events[|events| - 1].Window? ==> events[|events| - 1].updateID > Newest(id, before))
  }

  ghost predicate EndsFlushed(events: seq<Event>) {
    events != [] && events[|events| - 1].Tick?
  }

  /** A session just after a snapshot of `window` at `id`, and a client that took
      `snapshot` for it. */
  function Subscribed(epoch: nat, id: nat, window: Book, snapshot: Book): Pair {
    Pair(AfterSnapshot(FRESH.(window := window), epoch, id),
         Receive(NEW_CLIENT, SnapshotMsg(epoch, id, snapshot), Documented))
  }

  lemma {:induction false} PatchVisible(current: Side, sent: Side)
    ensures Patch(Visible(sent), Diff(current, sent)) == Visible(current)
  {
  }

  /** In step: the client shows what the coalescer diffs against, at the same id. */
  ghost predicate InStep(s: Pair, id: nat, book: Book) {
    && !s.co.needsSnapshot
    && s.co.updateID == id && s.co.window == book
    && s.client.epoch == s.co.epoch && s.client.applied == s.co.clientApplied <= s.co.updateID
    && s.client.book == VisibleBook(s.co.sent)
    && s.client.gaps == 0 && s.client.stale == 0
    && ((!s.co.bookDirty || s.co.updateID == s.co.clientApplied) ==> s.co.sent == s.co.window)
  }

  lemma {:induction false} DriveInStep(s: Pair, id: nat, book: Book, events: seq<Event>)
    requires InStep(s, id, book) && Increasing(id, events)
    ensures InStep(Drive(s, events), Newest(id, events), LastBook(book, events))
  {
    if events != [] {
      var before := events[..|events| - 1];
      DriveInStep(s, id, book, before);
      var r := Drive(s, before);
      PatchVisible(r.co.window.bids, r.co.sent.bids);
      PatchVisible(r.co.window.asks, r.co.sent.asks);
    }
  }

  /** Coalescing preserves meaning: whatever the schedule, a client that starts from an
      honest snapshot sees no gap and no stale delta, and once flushed it shows exactly the
      last window. */
  lemma {:induction false} FlushedClientShowsLastWindow(epoch: nat, id: nat, window: Book, events: seq<Event>)
    requires Increasing(id, events) && EndsFlushed(events)
    ensures var c := Drive(Subscribed(epoch, id, window, window), events).client;
      c.gaps == 0 && c.stale == 0 && c.book == VisibleBook(LastBook(window, events))
  {
    DriveInStep(Subscribed(epoch, id, window, window), id, window, events);
    var before := events[..|events| - 1];
    DriveInStep(Subscribed(epoch, id, window, window), id, window, before);
  }

  /** So two schedules over the same windows cannot be told apart by their books. */
  lemma {:induction false} SchedulesAgree(epoch: nat, id: nat, window: Book, one: seq<Event>, other: seq<Event>)
    requires Increasing(id, one) && EndsFlushed(one)
    requires Increasing(id, other) && EndsFlushed(other)
    requires Windows(one) == Windows(other)
    ensures Drive(Subscribed(epoch, id, window, window), one).client.book
         == Drive(Subscribed(epoch, id, window, window), other).client.book
  {
    FlushedClientShowsLastWindow(epoch, id, window, one);
    FlushedClientShowsLastWindow(epoch, id, window, other);
    LastOfWindows(window, one);
    LastOfWindows(window, other);
  }

  function Windows(events: seq<Event>): seq<Event> {
    if events == [] then []
    else Windows(events[..|events| - 1]) + (if events[|events| - 1].Window? then [events[|events| - 1]] else [])
  }

  lemma {:induction false} LastOfWindows(book: Book, events: seq<Event>)
    ensures forall e :: e in Windows(events) ==> e.Window?
    ensures LastBook(book, events)
         == if Windows(events) == [] then book else Windows(events)[|Windows(events)| - 1].book
  {
    if events != [] {
      LastOfWindows(book, events[..|events| - 1]);
    }
  }

  /** The promise holds for every sequence of windows and every schedule exactly when the
      snapshot the client got shows the window the coalescer had. */
  lemma {:induction false} MeaningPreservedExactly(epoch: nat, id: nat, window: Book, snapshot: Book)
    ensures (forall events: seq<Event> :: Increasing(id, events) && EndsFlushed(events) ==>
              Drive(Subscribed(epoch, id, window, snapshot), events).client.book
              == VisibleBook(LastBook(window, events)))
            <==> VisibleBook(snapshot) == VisibleBook(window)
  {
    var s := Subscribed(epoch, id, window, snapshot);
    if VisibleBook(snapshot) == VisibleBook(window) {
      assert s == Subscribed(epoch, id, window, window);
      forall events: seq<Event> | Increasing(id, events) && EndsFlushed(events)
        ensures Drive(s, events).client.book == VisibleBook(LastBook(window, events))
      {
        FlushedClientShowsLastWindow(epoch, id, window, events);
      }
    } else {
      var events := [Window(id + 1, window), Tick];
      var just := [Window(id + 1, window)];
      assert events[..|events| - 1] == just && just[..|just| - 1] == [];
      assert Increasing(id, []) && Newest(id, []) == id;
      assert Increasing(id, just);
      assert Increasing(id, events);
      assert LastBook(window, events) == LastBook(window, just) == window;
      DriveTwo(s, Window(id + 1, window), Tick);
      assert Drive(s, events).client == s.client;
    }
  }

  const ONE_BID := Book(map[5 := 1], map[])

  /** When they differ, as on a first subscription, the schedule shows: a level of the
      snapshot that leaves between two flushes stays for ever. */
  lemma {:induction false} SchedulesCanDiffer()
    ensures var s := Subscribed(1, 0, EMPTY_BOOK, ONE_BID);
      && Drive(s, [Window(1, ONE_BID), Tick, Window(2, EMPTY_BOOK), Tick]).client.book == EMPTY_BOOK
      && Drive(s, [Window(1, ONE_BID), Window(2, EMPTY_BOOK), Tick]).client.book == ONE_BID
  {
    var s := Subscribed(1, 0, EMPTY_BOOK, ONE_BID);
    var come, gone := Window(1, ONE_BID), Window(2, EMPTY_BOOK);
    FlushedTwice(s);
    FlushedOnce(s);
    DriveTwo(s, come, Tick);
    DriveAppend(s, [come, Tick], gone);
    DriveAppend(s, [come, Tick, gone], Tick);
    assert [come, Tick] + [gone] == [come, Tick, gone] && [come, Tick, gone] + [Tick] == [come, Tick, gone, Tick];
    DriveTwo(s, come, gone);
    DriveAppend(s, [come, gone], Tick);
    assert [come, gone] + [Tick] == [come, gone, Tick];
  }

  lemma {:induction false} FlushedTwice(s: Pair)
    requires s == Subscribed(1, 0, EMPTY_BOOK, ONE_BID)
    ensures Next(Next(Next(Next(s, Window(1, ONE_BID)), Tick), Window(2, EMPTY_BOOK)), Tick).client.book == EMPTY_BOOK
  {
    assert 5 in ONE_BID.bids;
    var one := FlushBetween(s, Window(1, ONE_BID));
    var two := FlushBetween(one, Window(2, EMPTY_BOOK));
  }

  lemma {:induction false} FlushedOnce(s: Pair)
    requires s == Subscribed(1, 0, EMPTY_BOOK, ONE_BID)
    ensures Next(Next(Next(s, Window(1, ONE_BID)), Window(2, EMPTY_BOOK)), Tick).client.book == ONE_BID
  {
  }

  /** One window, flushed at once: the client is patched by the whole difference. */
  lemma {:induction false} FlushBetween(s: Pair, w: Event) returns (r: Pair)
    requires w.Window? && w.updateID > s.co.updateID == s.co.clientApplied == s.client.applied
    requires !s.co.needsSnapshot && s.client.epoch == s.co.epoch && w.book != s.co.sent
    ensures r == Next(Next(s, w), Tick)
    ensures r.client.book == PatchBook(s.client.book, DiffBook(w.book, s.co.sent))
    ensures r.co.sent == w.book && r.co.updateID == r.co.clientApplied == r.client.applied == w.updateID
    ensures r.co.epoch == s.co.epoch == r.client.epoch && !r.co.needsSnapshot
  {
    r := Next(Next(s, w), Tick);
  }

  lemma {:induction false} DriveAppend(s: Pair, events: seq<Event>, e: Event)
    ensures Drive(s, events + [e]) == Next(Drive(s, events), e)
  {
    assert (events + [e])[..|events|] == events;
  }

  lemma {:induction false} DriveTwo(s: Pair, a: Event, b: Event)
    ensures Drive(s, [a, b]) == Next(Next(s, a), b)
  {
    assert [a, b][..1] == [a] && [a][..0] == [];
    assert Drive(s, [a]) == Next(s, a);
  }
}
