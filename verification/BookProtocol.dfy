/**
 The book protocol as a step system: one engine, one session, one client.

 The client reads the packets in the order they were queued, so its state after any number
 of them is a fold over a prefix of the log. Beside the client the fold keeps what the
 server takes the client's book to be (`shadow`), and what happened since the last snapshot.
 */
module BookProtocol {
  import opened Domain
  import opened Levels
  import opened Coalescing
  import opened BookClient
  import opened Sessions

  datatype World = World(engine: View, sess: Sess)

  datatype Step =
    | Advance(view: View)                    // the engine publishes, or resets to a later epoch
    | Window(window: View, room: bool)       // the mailbox hands over a window published earlier
    | FlushTick(faults: Faults, rooms: Room)
    | Subscribe(room: bool)                  // a subscription to the same market
    | Undeliverable(room: bool)              // a candle close found no room: resynchronise
    | Switch(view: View, room: bool)         // a subscription to another market

  predicate Published(w: View, engine: View) {
    w.epoch < engine.epoch || (w.epoch == engine.epoch && w.updateID <= engine.updateID)
  }

  function Next(w: World, step: Step): World {
    match step
    case Advance(view) => w.(engine := view)
    case Window(window, room) => w.(sess := WindowEvent(w.sess, w.engine, window, room))
    case FlushTick(faults, rooms) => w.(sess := Flush(w.sess, w.engine, faults, rooms))
    case Subscribe(room) => w.(sess := Ship(w.sess, w.engine, room))
    case Undeliverable(room) => w.(sess := Resync(w.sess, w.engine, room))
    case Switch(view, room) => World(view, Rebind(w.sess, view, room))
  }

  /** What the surroundings guarantee: ids move forward within an epoch, and the mailbox only
      holds published windows. */
  predicate Env(w: World, step: Step) {
    match step
    case Advance(view) =>
      w.engine.epoch < view.epoch || (w.engine.epoch == view.epoch && w.engine.updateID <= view.updateID)
    case Window(window, _) => Published(window, w.engine)
    case _ => true
  }

  /** A flush whose delta finds no room and is neither held back nor released with a held one. */
  predicate Resyncs(s: Sess, f: Faults, r: Room) {
    Take(if f.skip then AfterGap(s.co) else s.co).1.Some? && !f.reverse && s.held.None? && !r.first
  }

  function Run(w: World, steps: seq<Step>): World {
    if steps == [] then w
    else Next(Run(w, steps[..|steps| - 1]), steps[|steps| - 1])
  }

  // ----- following the client through the log

  datatype Track = Track(
    client: Client,
    shadow: Book,            // what the server took the client's book to be
    snapshot: Book,          // the last snapshot's content
    assumed: Book,           // what the server took that snapshot to be
    touchedBids: set<int>,   // prices the deltas applied since then mentioned
    touchedAsks: set<int>,
    seenBids: set<int>,      // prices of the windows those deltas brought the client to
    seenAsks: set<int>)

  const START := Track(NEW_CLIENT, EMPTY_BOOK, EMPTY_BOOK, EMPTY_BOOK, {}, {}, {}, {})

  function Follow(t: Track, p: Packet): Track {
    var client := Receive(t.client, p.msg, Documented);
    match p.msg
    case SnapshotMsg(_, _, book) => Track(client, p.after, book, p.after, {}, {}, {}, {})
    case DeltaMsg(d) =>
      if Accepts(t.client, d, Documented)
      then t.(client := client, shadow := p.after,
              touchedBids := t.touchedBids + d.book.bids.Keys,
              touchedAsks := t.touchedAsks + d.book.asks.Keys,
              seenBids := t.seenBids + p.after.bids.Keys,
              seenAsks := t.seenAsks + p.after.asks.Keys)
      else t.(client := client)
  }

  function TrackOf(log: seq<Packet>): Track {
    if log == [] then START else Follow(TrackOf(log[..|log| - 1]), log[|log| - 1])
  }

  /** A client that may miss a snapshot of `view`: it stands before the snapshot's id, or in
      another epoch, or it stands right there and the snapshot changes nothing about what the
      server takes it to hold. */
  predicate MayMiss(log: seq<Packet>, view: View, assumed: Book) {
    var t := TrackOf(log);
    t.client.epoch == view.epoch ==>
      t.client.applied < view.updateID || (t.client.applied == view.updateID && t.shadow == assumed)
  }

  /** A held delta that no client at or after `view` can apply. */
  predicate Outdated(p: Packet, view: View) {
    p.msg.DeltaMsg? &&
    (p.msg.delta.epoch < view.epoch || (p.msg.delta.epoch == view.epoch && p.msg.delta.last <= view.updateID))
  }

  /** The steps that keep the protocol going right. What the surroundings guarantee is not
      enough: a snapshot must not be lost on a client that cannot miss it, and a market must
      not be switched to one that a held delta could still reach. `AllowedExactly` shows that
      nothing less will do. */
  predicate Allowed(w: World, step: Step) {
    Env(w, step) &&
    match step
    case Advance(view) => true
    case Window(window, room) => window.epoch == w.sess.co.epoch || room || MayMiss(w.sess.log, w.engine, window.book)
    case FlushTick(faults, rooms) =>
      !Resyncs(w.sess, faults, rooms) || rooms.snapshot || MayMiss(w.sess.log, w.engine, EMPTY_BOOK)
    case Subscribe(room) => room || MayMiss(w.sess.log, w.engine, w.sess.co.window)
    case Undeliverable(room) => room || MayMiss(w.sess.log, w.engine, EMPTY_BOOK)
    case Switch(view, room) =>
      (room || MayMiss(w.sess.log, view, EMPTY_BOOK)) && (w.sess.held.Some? ==> Outdated(w.sess.held.value, view))
  }

  ghost predicate AllAllowed(w: World, steps: seq<Step>) {
    steps == [] ||
    (AllAllowed(w, steps[..|steps| - 1]) && Allowed(Run(w, steps[..|steps| - 1]), steps[|steps| - 1]))
  }

  /** A delta meant for the client in state `t`: it continues exactly where the client is,
      and was diffed against exactly the book the server took the client to hold. */
  ghost predicate Fits(t: Track, p: Packet) {
    p.msg.DeltaMsg? && Accepts(t.client, p.msg.delta, Documented) ==>
      && p.msg.delta.first == t.client.applied + 1
      && p.msg.delta.book == DiffBook(p.after, p.base)
      && p.base == t.shadow
  }

  ghost predicate Chained(log: seq<Packet>) {
    forall k :: 0 <= k < |log| ==> Fits(TrackOf(log[..k]), log[k])
  }

  lemma {:induction false} TrackAppend(log: seq<Packet>, p: Packet)
    ensures TrackOf(log + [p]) == Follow(TrackOf(log), p)
  {
    assert (log + [p])[..|log|] == log;
  }

  lemma {:induction false} ChainAppend(log: seq<Packet>, p: Packet)
    requires Chained(log) && Fits(TrackOf(log), p)
    ensures Chained(log + [p])
  {
    forall k | 0 <= k < |log + [p]| ensures Fits(TrackOf((log + [p])[..k]), (log + [p])[k]) {
      assert (log + [p])[..k] == log[..k];
      if k == |log| {
        assert log[..k] == log;
      }
    }
  }

  // ----- the invariant

  /** Where a client may stand relative to the coalescer in its epoch: never ahead of it, and
      when level with it, its shadow is what the coalescer diffs against next. */
  ghost predicate Behind(t: Track, co: CoState) {
    t.client.epoch == co.epoch ==>
      t.client.applied <= co.clientApplied
      && (t.client.applied == co.clientApplied ==> t.shadow == co.sent)
  }

  /** A delta held back: the client is before its range, or past it; just before it, it fits. */
  ghost predicate HeldBack(t: Track, p: Packet, co: CoState) {
    && p.msg.DeltaMsg?
    && var d := p.msg.delta;
    && d.epoch <= co.epoch
    && 0 < d.first <= d.last
    && (d.epoch == co.epoch ==> d.last <= co.clientApplied)
    && d.book == DiffBook(p.after, p.base)
    && (t.client.epoch == d.epoch ==>
          (t.client.applied < d.first || d.last <= t.client.applied)
          && (t.client.applied == d.first - 1 ==> t.shadow == p.base))
  }

  ghost predicate Ordered(co: CoState, engine: View) {
    && !co.needsSnapshot
    && co.clientApplied <= co.updateID
    && co.epoch <= engine.epoch
    && (co.epoch == engine.epoch ==> co.updateID <= engine.updateID)
  }

  ghost predicate Inv(w: World) {
    var t := TrackOf(w.sess.log);
    && Ordered(w.sess.co, w.engine)
    && Behind(t, w.sess.co)
    && (w.sess.held.Some? ==> HeldBack(t, w.sess.held.value, w.sess.co))
    && Chained(w.sess.log)
  }

  lemma {:induction false} InitInv(engine: View)
    ensures Inv(World(engine, NEW_SESSION))
  {
  }

  /** Any snapshot that may be lost, or is not, keeps the invariant: whatever the coalescer
      did since (a reset, a new window, a delta taken and thrown away), the snapshot rebases it. */
  lemma {:induction false} ShipKeeps(w: World, s: Sess, room: bool)
    requires Inv(w) && s.log == w.sess.log && s.held == w.sess.held
    requires room || MayMiss(s.log, w.engine, s.co.window)
    ensures Inv(w.(sess := Ship(s, w.engine, room)))
  {
    var t := TrackOf(s.log);
    if room {
      var p := Packet(SnapshotMsg(w.engine.epoch, w.engine.updateID, w.engine.book), s.co.sent, s.co.window);
      assert Ship(s, w.engine, room).log == s.log + [p];
      TrackAppend(s.log, p);
      ChainAppend(s.log, p);
    } else {
      assert Ship(s, w.engine, room).log == s.log;
    }
  }

  lemma {:induction false} HeldFits(t: Track, p: Packet, co: CoState)
    requires HeldBack(t, p, co)
    ensures Fits(t, p)
  {
  }

  /** After the client has seen a delta, it is past it or still short of it. */
  lemma {:induction false} SeenIsHeldBack(t: Track, p: Packet, co: CoState)
    requires HeldBack(t, p, co)
    ensures HeldBack(Follow(t, p), p, co)
  {
  }

  lemma {:induction false} FollowKeepsBehind(t: Track, p: Packet, co: CoState)
    requires Behind(t, co) && HeldBack(t, p, co)
    requires p.msg.delta.epoch == co.epoch && p.msg.delta.last == co.clientApplied ==> p.after == co.sent
    ensures Behind(Follow(t, p), co)
  {
  }

  lemma {:induction false} AppendKeeps(w: World, p: Packet)
    requires Inv(w) && HeldBack(TrackOf(w.sess.log), p, w.sess.co)
    requires p.msg.delta.epoch == w.sess.co.epoch && p.msg.delta.last == w.sess.co.clientApplied
             ==> p.after == w.sess.co.sent
    requires w.sess.held.Some? ==> HeldBack(Follow(TrackOf(w.sess.log), p), w.sess.held.value, w.sess.co)
    ensures Inv(w.(sess := w.sess.(log := w.sess.log + [p])))
    ensures TrackOf(w.sess.log + [p]) == Follow(TrackOf(w.sess.log), p)
  {
    var t := TrackOf(w.sess.log);
    HeldFits(t, p, w.sess.co);
    FollowKeepsBehind(t, p, w.sess.co);
    TrackAppend(w.sess.log, p);
    ChainAppend(w.sess.log, p);
  }

  function Taken(co: CoState): CoState {
    co.(sent := co.window, clientApplied := co.updateID, bookDirty := false)
  }

  function TakenPacket(co: CoState): Packet {
    Packet(DeltaMsg(Delta(co.epoch, co.clientApplied + 1, co.updateID, DiffBook(co.window, co.sent))),
           co.sent, co.window)
  }

  /** A freshly taken delta fits the client, and a delta held from before stays held back
      whether or not the client gets the new one first. */
  lemma {:induction false} TakeKeeps(w: World)
    requires Inv(w) && w.sess.co.clientApplied < w.sess.co.updateID
    ensures var w1 := w.(sess := w.sess.(co := Taken(w.sess.co)));
            var t := TrackOf(w.sess.log);
            var p := TakenPacket(w.sess.co);
      && Inv(w1)
      && HeldBack(t, p, w1.sess.co)
      && (w.sess.held.Some? ==> HeldBack(Follow(t, p), w.sess.held.value, w1.sess.co))
  {
  }

  lemma {:induction false} EmitKeeps(w: World, f: Faults, r: Room)
    requires Inv(w) && w.sess.co.clientApplied < w.sess.co.updateID
    requires r.first || f.reverse || w.sess.held.Some?
    ensures Inv(w.(sess := Emit(w.sess.(co := Taken(w.sess.co)), TakenPacket(w.sess.co), w.engine, f, r)))
  {
    TakeKeeps(w);
    if !f.reverse {
      if w.sess.held.Some? {
        ReleaseKeeps(w, r);
      } else {
        PlainKeeps(w, f.duplicate && r.second);
      }
    }
  }

  /** The new delta, if there is room, and then the held one, if there is room. */
  lemma {:induction false} ReleaseKeeps(w: World, r: Room)
    requires Inv(w) && w.sess.co.clientApplied < w.sess.co.updateID && w.sess.held.Some?
    ensures var p := TakenPacket(w.sess.co);
            var log := w.sess.log + Queued(p, r.first) + Queued(w.sess.held.value, r.second);
      Inv(w.(sess := Sess(Taken(w.sess.co), None, log)))
  {
    TakeKeeps(w);
    var p, late := TakenPacket(w.sess.co), w.sess.held.value;
    var w1 := w.(sess := w.sess.(co := Taken(w.sess.co)));
    var log := w.sess.log + Queued(p, r.first);
    var w2 := w.(sess := Sess(Taken(w.sess.co), None, log));
    if r.first {
      AppendKeeps(w1, p);
    } else {
      assert log == w.sess.log;
    }
    if r.second {
      AppendKeeps(w2, late);
    } else {
      assert log + Queued(late, false) == log;
    }
  }

  /** The new delta, once or twice. */
  lemma {:induction false} PlainKeeps(w: World, twice: bool)
    requires Inv(w) && w.sess.co.clientApplied < w.sess.co.updateID && w.sess.held.None?
    ensures var p := TakenPacket(w.sess.co);
      Inv(w.(sess := Sess(Taken(w.sess.co), None, w.sess.log + [p] + Queued(p, twice))))
  {
    TakeKeeps(w);
    var p := TakenPacket(w.sess.co);
    var w1 := w.(sess := w.sess.(co := Taken(w.sess.co)));
    AppendKeeps(w1, p);
    if twice {
      SeenIsHeldBack(TrackOf(w.sess.log), p, w1.sess.co);
      AppendKeeps(w.(sess := Sess(Taken(w.sess.co), None, w.sess.log + [p])), p);
    } else {
      assert w.sess.log + [p] + Queued(p, false) == w.sess.log + [p];
    }
  }

  lemma {:induction false} SkipKeeps(w: World)
    requires Inv(w)
    ensures Inv(w.(sess := w.sess.(co := AfterGap(w.sess.co))))
  {
  }

  lemma {:induction false} FlushKeeps(w: World, f: Faults, r: Room)
    requires Inv(w) && Allowed(w, FlushTick(f, r))
    ensures Inv(Next(w, FlushTick(f, r)))
  {
    var before := if f.skip then AfterGap(w.sess.co) else w.sess.co;
    var w0 := w.(sess := w.sess.(co := before));
    SkipKeeps(w);
    var (co, d) := Take(before);
    if d.None? {
      assert Inv(w.(sess := w.sess.(co := co)));
    } else if f.reverse || w.sess.held.Some? || r.first {
      EmitKeeps(w0, f, r);
    } else {
      ShipKeeps(w, w.sess.(co := AfterReset(co)), r.snapshot);
    }
  }

  lemma {:induction false} StepKeeps(w: World, step: Step)
    requires Inv(w) && Allowed(w, step)
    ensures Inv(Next(w, step))
  {
    match step
    case Advance(view) =>
    case Window(window, room) =>
      var s1 := w.sess.(co := OnWindow(w.sess.co, window.epoch, window.updateID, window.book));
      if s1.co.needsSnapshot {
        ShipKeeps(w, s1, room);
      }
    case FlushTick(faults, rooms) => FlushKeeps(w, faults, rooms);
    case Subscribe(room) => ShipKeeps(w, w.sess, room);
    case Undeliverable(room) => ShipKeeps(w, w.sess.(co := AfterReset(w.sess.co)), room);
    case Switch(view, room) => SwitchKeeps(w, view, room);
  }

  lemma {:induction false} SwitchKeeps(w: World, view: View, room: bool)
    requires Inv(w) && Allowed(w, Switch(view, room))
    ensures Inv(Next(w, Switch(view, room)))
  {
    var s := w.sess.(co := FRESH);
    if room {
      var p := Packet(SnapshotMsg(view.epoch, view.updateID, view.book), EMPTY_BOOK, EMPTY_BOOK);
      assert Ship(s, view, room).log == s.log + [p];
      TrackAppend(s.log, p);
      ChainAppend(s.log, p);
    } else {
      assert Ship(s, view, room).log == s.log;
    }
  }

  lemma {:induction false} RunKeeps(w: World, steps: seq<Step>)
    requires Inv(w) && AllAllowed(w, steps)
    ensures Inv(Run(w, steps))
  {
    if steps != [] {
      RunKeeps(w, steps[..|steps| - 1]);
      StepKeeps(Run(w, steps[..|steps| - 1]), steps[|steps| - 1]);
    }
  }

  // ----- what every run gives the client

  /** Over every run and after any number of packets: a delta is applied only if it starts
      right after the client's id, in the client's epoch, and was diffed against exactly the
      book the server took that client to hold; any other delta is reported and changes
      neither book nor id. */
  lemma {:induction false} NoSilentDivergence(engine: View, steps: seq<Step>, k: nat)
    requires AllAllowed(World(engine, NEW_SESSION), steps)
    requires var log := Run(World(engine, NEW_SESSION), steps).sess.log; k < |log| && log[k].msg.DeltaMsg?
    ensures var log := Run(World(engine, NEW_SESSION), steps).sess.log;
            var t, p := TrackOf(log[..k]), log[k];
            var after := Receive(t.client, p.msg, Documented);
      if Accepts(t.client, p.msg.delta, Documented)
      then p.msg.delta.first == t.client.applied + 1 && p.msg.delta.epoch == t.client.epoch
           && p.base == t.shadow && p.msg.delta.book == DiffBook(p.after, p.base)
      else after.book == t.client.book && after.applied == t.client.applied
           && after.gaps + after.stale == t.client.gaps + t.client.stale + 1
  {
    InitInv(engine);
    RunKeeps(World(engine, NEW_SESSION), steps);
    var log := Run(World(engine, NEW_SESSION), steps).sess.log;
    assert Fits(TrackOf(log[..k]), log[k]);
  }

  /** One side of a client's book, price by price. */
  ghost predicate ExactSide(held: Side, shadow: Side, snapshot: Side, assumed: Side, touched: set<int>) {
    forall p ::
      && At(held, p) == (if p in touched then At(shadow, p) else At(snapshot, p))
      && (p !in touched ==> At(shadow, p) == At(assumed, p))
  }

  ghost predicate Exact(t: Track) {
    && ExactSide(t.client.book.bids, t.shadow.bids, t.snapshot.bids, t.assumed.bids, t.touchedBids)
    && ExactSide(t.client.book.asks, t.shadow.asks, t.snapshot.asks, t.assumed.asks, t.touchedAsks)
  }

  lemma {:induction false} ExactSidePatch(held: Side, shadow: Side, snapshot: Side, assumed: Side, touched: set<int>,
                                          after: Side)
    requires ExactSide(held, shadow, snapshot, assumed, touched)
    ensures ExactSide(Patch(held, Diff(after, shadow)), after, snapshot, assumed, touched + Diff(after, shadow).Keys)
  {
    forall p
      ensures At(Patch(held, Diff(after, shadow)), p)
              == (if p in touched + Diff(after, shadow).Keys then At(after, p) else At(snapshot, p))
      ensures p !in touched + Diff(after, shadow).Keys ==> At(after, p) == At(assumed, p)
    {
      PatchedDiffAt(held, after, shadow, p);
      assert At(held, p) == if p in touched then At(shadow, p) else At(snapshot, p);
    }
  }

  /** The client's book, exactly: what the server believes wherever a delta has spoken since
      the last snapshot, and that snapshot everywhere else. */
  lemma {:induction false} BookIsExact(log: seq<Packet>)
    requires Chained(log)
    ensures Exact(TrackOf(log))
  {
    if log != [] {
      var n := |log| - 1;
      forall k | 0 <= k < n ensures Fits(TrackOf(log[..n][..k]), log[..n][k]) {
        assert log[..n][..k] == log[..k];
      }
      BookIsExact(log[..n]);
      var t, p := TrackOf(log[..n]), log[n];
      assert Fits(t, p);
      if p.msg.SnapshotMsg? {
        VisibleSame(p.msg.book.bids);
        VisibleSame(p.msg.book.asks);
      } else if Accepts(t.client, p.msg.delta, Documented) {
        ExactSidePatch(t.client.book.bids, t.shadow.bids, t.snapshot.bids, t.assumed.bids, t.touchedBids, p.after.bids);
        ExactSidePatch(t.client.book.asks, t.shadow.asks, t.snapshot.asks, t.assumed.asks, t.touchedAsks, p.after.asks);
      }
    }
  }

  lemma {:induction false} PrefixChained(log: seq<Packet>, k: nat)
    requires Chained(log) && k <= |log|
    ensures Chained(log[..k])
  {
    forall i | 0 <= i < k ensures Fits(TrackOf(log[..k][..i]), log[..k][i]) {
      assert log[..k][..i] == log[..i];
    }
  }

  /** The error a snapshot leaves: the prices no delta has mentioned since, where the
      snapshot is not what the server took it to be. */
  ghost predicate Resolved(snapshot: Side, assumed: Side, touched: set<int>) {
    forall p :: p !in touched ==> At(snapshot, p) == At(assumed, p)
  }

  /** After any packets whose deltas fit, the client's book is the one the server believes if
      and only if every disagreement of the last snapshot has been overwritten since. */
  lemma {:induction false} DivergenceOfLog(log: seq<Packet>)
    requires Chained(log)
    ensures var t := TrackOf(log);
      SameBook(t.client.book, t.shadow)
      <==> Resolved(t.snapshot.bids, t.assumed.bids, t.touchedBids)
           && Resolved(t.snapshot.asks, t.assumed.asks, t.touchedAsks)
  {
    BookIsExact(log);
    var t := TrackOf(log);
    DivergenceOfSide(t.client.book.bids, t.shadow.bids, t.snapshot.bids, t.assumed.bids, t.touchedBids);
    DivergenceOfSide(t.client.book.asks, t.shadow.asks, t.snapshot.asks, t.assumed.asks, t.touchedAsks);
  }

  /** So over every run and after any number of packets. */
  lemma {:induction false} DivergenceExactly(engine: View, steps: seq<Step>, k: nat)
    requires AllAllowed(World(engine, NEW_SESSION), steps)
    requires k <= |Run(World(engine, NEW_SESSION), steps).sess.log|
    ensures var t := TrackOf(Run(World(engine, NEW_SESSION), steps).sess.log[..k]);
      SameBook(t.client.book, t.shadow)
      <==> Resolved(t.snapshot.bids, t.assumed.bids, t.touchedBids)
           && Resolved(t.snapshot.asks, t.assumed.asks, t.touchedAsks)
  {
    InitInv(engine);
    RunKeeps(World(engine, NEW_SESSION), steps);
    var log := Run(World(engine, NEW_SESSION), steps).sess.log;
    PrefixChained(log, k);
    DivergenceOfLog(log[..k]);
  }

  lemma {:induction false} DivergenceOfSide(held: Side, shadow: Side, snapshot: Side, assumed: Side, touched: set<int>)
    requires ExactSide(held, shadow, snapshot, assumed, touched)
    ensures SameSide(held, shadow) <==> Resolved(snapshot, assumed, touched)
  {
    if SameSide(held, shadow) {
      forall p | p !in touched ensures At(snapshot, p) == At(assumed, p) {
        assert At(held, p) == At(shadow, p);
      }
    }
    if Resolved(snapshot, assumed, touched) {
      forall p ensures At(held, p) == At(shadow, p) {
        assert p !in touched ==> At(snapshot, p) == At(assumed, p);
      }
    }
  }

  ghost predicate HonestSnapshots(log: seq<Packet>) {
    forall i :: 0 <= i < |log| && log[i].msg.SnapshotMsg? ==> SameBook(log[i].msg.book, log[i].after)
  }

  /** If every snapshot shipped was the coalescer's own window, the client never shows
      anything but the book the server believes it shows; and a client that has caught up
      shows what the next delta will be diffed against. */
  lemma {:induction false} HonestSnapshotsKeepTheBook(engine: View, steps: seq<Step>, k: nat)
    requires AllAllowed(World(engine, NEW_SESSION), steps)
    requires HonestSnapshots(Run(World(engine, NEW_SESSION), steps).sess.log)
    requires k <= |Run(World(engine, NEW_SESSION), steps).sess.log|
    ensures var s := Run(World(engine, NEW_SESSION), steps).sess;
            var t := TrackOf(s.log[..k]);
      && SameBook(t.client.book, t.shadow)
      && ((k == |s.log| && t.client.epoch == s.co.epoch && t.client.applied == s.co.clientApplied) ==>
            SameBook(t.client.book, s.co.sent))
  {
    InitInv(engine);
    RunKeeps(World(engine, NEW_SESSION), steps);
    var s := Run(World(engine, NEW_SESSION), steps).sess;
    HonestTrack(s.log[..k]);
    DivergenceExactly(engine, steps, k);
    if k == |s.log| {
      assert s.log[..k] == s.log;
    }
  }

  /** So every delta a client applies is applied to the very book it was diffed against. */
  lemma {:induction false} AppliedToItsBase(engine: View, steps: seq<Step>, k: nat)
    requires AllAllowed(World(engine, NEW_SESSION), steps)
    requires HonestSnapshots(Run(World(engine, NEW_SESSION), steps).sess.log)
    requires var log := Run(World(engine, NEW_SESSION), steps).sess.log;
      k < |log| && log[k].msg.DeltaMsg? && Accepts(TrackOf(log[..k]).client, log[k].msg.delta, Documented)
    ensures var log := Run(World(engine, NEW_SESSION), steps).sess.log;
      && log[k].msg.delta.first == TrackOf(log[..k]).client.applied + 1
      && SameBook(TrackOf(log[..k]).client.book, log[k].base)
      && SameBook(TrackOf(log[..k + 1]).client.book, log[k].after)
  {
    NoSilentDivergence(engine, steps, k);
    HonestSnapshotsKeepTheBook(engine, steps, k);
    HonestSnapshotsKeepTheBook(engine, steps, k + 1);
    var log := Run(World(engine, NEW_SESSION), steps).sess.log;
    assert log[..k + 1] == log[..k] + [log[k]];
    TrackAppend(log[..k], log[k]);
  }

  lemma {:induction false} HonestTrack(log: seq<Packet>)
    requires HonestSnapshots(log)
    ensures SameBook(TrackOf(log).snapshot, TrackOf(log).assumed)
  {
    if log != [] {
      HonestTrack(log[..|log| - 1]);
    }
  }

  /** After a resynchronisation, or a first subscription: the server assumes nothing, so the
      client ends with the last flushed window plus exactly those snapshot levels whose price
      no flushed window since has shown; the prices of the window are always right. */
  lemma {:induction false} ResyncEffect(engine: View, steps: seq<Step>, k: nat, p: int)
    requires AllAllowed(World(engine, NEW_SESSION), steps)
    requires k <= |Run(World(engine, NEW_SESSION), steps).sess.log|
    requires TrackOf(Run(World(engine, NEW_SESSION), steps).sess.log[..k]).assumed == EMPTY_BOOK
    ensures var t := TrackOf(Run(World(engine, NEW_SESSION), steps).sess.log[..k]);
      && At(t.client.book.bids, p) == (if p in t.seenBids then At(t.shadow.bids, p) else At(t.snapshot.bids, p))
      && At(t.client.book.asks, p) == (if p in t.seenAsks then At(t.shadow.asks, p) else At(t.snapshot.asks, p))
      && (p in t.shadow.bids ==> At(t.client.book.bids, p) == At(t.shadow.bids, p))
      && (p in t.shadow.asks ==> At(t.client.book.asks, p) == At(t.shadow.asks, p))
  {
    InitInv(engine);
    RunKeeps(World(engine, NEW_SESSION), steps);
    var log := Run(World(engine, NEW_SESSION), steps).sess.log;
    PrefixChained(log, k);
    BookIsExact(log[..k]);
    TouchedIsSeen(log[..k]);
  }

  ghost predicate Tidy(touched: set<int>, seen: set<int>, shadow: Side, assumed: Side) {
    assumed == map[] ==> touched == seen && shadow.Keys <= seen
  }

  lemma {:induction false} TouchedIsSeen(log: seq<Packet>)
    requires Chained(log)
    ensures var t := TrackOf(log);
      Tidy(t.touchedBids, t.seenBids, t.shadow.bids, t.assumed.bids)
      && Tidy(t.touchedAsks, t.seenAsks, t.shadow.asks, t.assumed.asks)
  {
    if log != [] {
      var n := |log| - 1;
      PrefixChained(log, n);
      TouchedIsSeen(log[..n]);
      assert Fits(TrackOf(log[..n]), log[n]);
    }
  }

  /** What `ResyncEffect` starts from: a resynchronisation that finds room, a switch of
      market, and a subscription before any window all ship a snapshot nobody assumes. */
  lemma {:induction false} NothingAssumed(w: World, step: Step)
    requires step == Undeliverable(true) || (step.Switch? && step.room)
             || (step == Subscribe(true) && w.sess.co.window == EMPTY_BOOK)
    ensures var w1 := Next(w, step);
            var t := TrackOf(w1.sess.log);
      && t.assumed == EMPTY_BOOK && t.snapshot == w1.engine.book
      && t.client.book == VisibleBook(w1.engine.book) && t.client.applied == w1.engine.updateID
      && t.seenBids == {} && t.seenAsks == {}
  {
    var w1 := Next(w, step);
    var n := |w1.sess.log| - 1;
    assert w1.sess.log == w.sess.log + [w1.sess.log[n]];
    TrackAppend(w.sess.log, w1.sess.log[n]);
  }
}
