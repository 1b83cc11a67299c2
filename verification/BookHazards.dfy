/**
 Where the book protocol gives less than it promises, each with the exact condition or a
 concrete run.
 */
module BookHazards {
  import opened Domain
  import opened Levels
  import opened Coalescing
  import opened BookClient
  import opened Sessions
  import opened BookProtocol
  import opened BookLimits

  /** The reversed pair: session.go says the held delta is stale when it arrives. It is not.
      The client reports the newer one as a gap and then applies the older. */
  lemma {:induction false} HeldDeltaIsApplied(c: Client, older: Delta, newer: Delta, rules: Rules)
    requires older.epoch == newer.epoch == c.epoch
    requires older.first == c.applied + 1 <= older.last && newer.first == older.last + 1 <= newer.last
    ensures var r := Receive(Receive(c, DeltaMsg(newer), rules), DeltaMsg(older), rules);
      r.applied == older.last && r.book == PatchBook(c.book, older.book) && r.gaps == c.gaps + 1 && r.stale == c.stale
  {
  }

  /** Held back once and released after its successor, a delta is the stale one the comment
      expects exactly when the client had it already. */
  lemma {:induction false} HeldDeltaIsStaleExactly(c: Client, older: Delta, newer: Delta, rules: Rules)
    requires older.epoch == newer.epoch == c.epoch
    requires older.first <= older.last && newer.first == older.last + 1 <= newer.last
    ensures var m := Receive(c, DeltaMsg(newer), rules);
      Receive(m, DeltaMsg(older), rules) == m.(stale := m.stale + 1) <==> older.last <= c.applied
  {
  }

  /** A delta the probe and the documented client treat alike: the epochs agree, or the range
      is out of reach anyway. */
  predicate TreatedAlike(c: Client, d: Delta) {
    d.epoch == c.epoch || (c.applied + 1 < d.first && c.applied < d.last)
  }

  /** The same but for the epoch, which the probe does not keep. */
  predicate SameView(probe: Client, documented: Client) {
    probe.(epoch := documented.epoch) == documented
  }

  /** The probe skips the epoch check. On one delta, from the same view, it still behaves as
      documented exactly when the delta is one both treat alike. */
  lemma {:induction false} ProbeDiffersExactly(probe: Client, c: Client, d: Delta)
    requires SameView(probe, c)
    ensures SameView(Receive(probe, DeltaMsg(d), Probing), Receive(c, DeltaMsg(d), Documented)) <==> TreatedAlike(c, d)
  {
    if !TreatedAlike(c, d) {
      assert Receive(c, DeltaMsg(d), Documented).gaps == c.gaps + 1;
      assert Receive(probe, DeltaMsg(d), Probing).gaps == probe.gaps;
    }
  }

  function ClientAfter(log: seq<Packet>, rules: Rules): Client {
    if log == [] then NEW_CLIENT
    else Receive(ClientAfter(log[..|log| - 1], rules), log[|log| - 1].msg, rules)
  }

  lemma {:induction false} ClientAppend(log: seq<Packet>, a: Packet, rules: Rules)
    ensures ClientAfter(log + [a], rules) == Receive(ClientAfter(log, rules), a.msg, rules)
  {
    assert (log + [a])[..|log|] == log;
  }

  ghost predicate VisibleSnapshots(log: seq<Packet>) {
    forall k :: 0 <= k < |log| && log[k].msg.SnapshotMsg? ==> log[k].msg.book == VisibleBook(log[k].msg.book)
  }

  /** After `k` packets the probe shows what a documented client shows. */
  predicate ViewsAgree(log: seq<Packet>, k: nat)
    requires k <= |log|
  {
    SameView(ClientAfter(log[..k], Probing), ClientAfter(log[..k], Documented))
  }

  predicate PacketAlike(log: seq<Packet>, k: nat)
    requires k < |log|
  {
    log[k].msg.DeltaMsg? ==> TreatedAlike(ClientAfter(log[..k], Documented), log[k].msg.delta)
  }

  lemma {:induction false} ViewsStayExactly(log: seq<Packet>, k: nat)
    requires VisibleSnapshots(log) && k < |log| && ViewsAgree(log, k)
    ensures ViewsAgree(log, k + 1) <==> PacketAlike(log, k)
  {
    var before, p := log[..k], log[k];
    assert log[..k + 1] == before + [p];
    ClientAppend(before, p, Probing);
    ClientAppend(before, p, Documented);
    if p.msg.DeltaMsg? {
      ProbeDiffersExactly(ClientAfter(before, Probing), ClientAfter(before, Documented), p.msg.delta);
    }
  }

  /** Over whole logs whose snapshots carry no empty levels: the probe shows what a documented
      client shows, after every packet, if and only if every delta is one that both treat
      alike when it arrives. */
  lemma {:induction false} ProbeAgreesExactly(log: seq<Packet>, n: nat)
    requires VisibleSnapshots(log) && n <= |log|
    ensures (forall k :: 0 <= k <= n ==> ViewsAgree(log, k)) <==> (forall k :: 0 <= k < n ==> PacketAlike(log, k))
  {
    if n == 0 {
      assert log[..0] == [] && ViewsAgree(log, 0);
    } else {
      ProbeAgreesExactly(log, n - 1);
      if ViewsAgree(log, n - 1) {
        ViewsStayExactly(log, n - 1);
      }
    }
  }

  /** The engine publishes a window and the session hears of it: with a new epoch that is a
      snapshot, honest by construction; otherwise only the pending window changes. */
  lemma {:induction false} Publish(w: World, v: View)
    requires !w.sess.co.needsSnapshot && w.engine.epoch <= v.epoch
    requires w.engine.epoch == v.epoch ==> w.engine.updateID <= v.updateID
    ensures Allowed(w, Advance(v)) && Allowed(Next(w, Advance(v)), Window(v, true))
    ensures var r := Next(Next(w, Advance(v)), Window(v, true));
      && r.engine == v && r.sess.held == w.sess.held && !r.sess.co.needsSnapshot
      && r.sess.co.window == v.book && r.sess.co.epoch == v.epoch
      && (w.sess.co.epoch != v.epoch ==>
            && r.sess.log == w.sess.log + [Packet(SnapshotMsg(v.epoch, v.updateID, v.book), EMPTY_BOOK, v.book)]
            && r.sess.co.updateID == r.sess.co.clientApplied == v.updateID && r.sess.co.sent == v.book)
      && (w.sess.co.epoch == v.epoch ==>
            && r.sess.log == w.sess.log && r.sess.co.bookDirty
            && r.sess.co.clientApplied == w.sess.co.clientApplied && r.sess.co.sent == w.sess.co.sent
            && (v.updateID > w.sess.co.updateID ==> r.sess.co.updateID == v.updateID))
  {
  }

  lemma {:induction false} RunPublish(w: World, steps: seq<Step>, v: View) returns (more: seq<Step>)
    requires AllAllowed(w, steps)
    requires var r := Run(w, steps);
      && !r.sess.co.needsSnapshot && r.engine.epoch <= v.epoch
      && (r.engine.epoch == v.epoch ==> r.engine.updateID <= v.updateID)
    ensures AllAllowed(w, more)
    ensures Run(w, more) == Next(Next(Run(w, steps), Advance(v)), Window(v, true))
  {
    Publish(Run(w, steps), v);
    RunOne(w, steps, Advance(v));
    RunOne(w, steps + [Advance(v)], Window(v, true));
    more := steps + [Advance(v)] + [Window(v, true)];
  }

  function DeltaPacket(epoch: nat, id: nat, after: Book, base: Book): Packet {
    Packet(DeltaMsg(Delta(epoch, id, id, DiffBook(after, base))), base, after)
  }

  /** Ready to flush one update. */
  ghost predicate OneBehind(s: Sess) {
    s.co.bookDirty && !s.co.needsSnapshot && s.co.updateID == s.co.clientApplied + 1 && s.co.window != s.co.sent
  }

  lemma {:induction false} FlushOne(w: World, reverse: bool)
    requires OneBehind(w.sess)
    ensures var f := FlushTick(Faults(false, reverse, false), ALL_ROOM);
            var p := DeltaPacket(w.sess.co.epoch, w.sess.co.updateID, w.sess.co.window, w.sess.co.sent);
            var r := Next(w, f);
      && Allowed(w, f) && r.engine == w.engine && r.sess.co == Taken(w.sess.co)
      && (reverse ==> r.sess.held == Some(p) && r.sess.log == w.sess.log)
      && (!reverse && w.sess.held.Some? ==> r.sess.held == None && r.sess.log == w.sess.log + [p] + [w.sess.held.value])
      && (!reverse && w.sess.held.None? ==> r.sess.held == None && r.sess.log == w.sess.log + [p])
  {
  }

  const BOOKS := [Book(map[100 := 1], map[]), Book(map[100 := 2], map[]),
                  Book(map[200 := 7], map[]), Book(map[200 := 8], map[])]

  /** The bus hands over the market's last window before a reset, its delta is held back, and
      the session resynchronises with the next epoch. */
  lemma {:induction false} HoldAcrossReset(w: World) returns (steps: seq<Step>)
    requires w == World(View(1, 4, BOOKS[0]), NEW_SESSION)
    ensures AllAllowed(w, steps)
    ensures var r := Run(w, steps);
      && r.engine == View(2, 3, BOOKS[2]) && !r.sess.co.needsSnapshot
      && r.sess.co.epoch == 2 && r.sess.co.updateID == r.sess.co.clientApplied == 3 && r.sess.co.sent == BOOKS[2]
      && r.sess.held == Some(DeltaPacket(1, 5, BOOKS[1], BOOKS[0]))
      && r.sess.log == [Packet(SnapshotMsg(1, 4, BOOKS[0]), EMPTY_BOOK, BOOKS[0]),
                        Packet(SnapshotMsg(2, 3, BOOKS[2]), EMPTY_BOOK, BOOKS[2])]
  {
    Publish(w, View(1, 4, BOOKS[0]));
    steps := RunPublish(w, [], View(1, 4, BOOKS[0]));
    var w1 := Run(w, steps);
    assert w1.sess.log == [Packet(SnapshotMsg(1, 4, BOOKS[0]), EMPTY_BOOK, BOOKS[0])];
    Publish(w1, View(1, 5, BOOKS[1]));
    steps := RunPublish(w, steps, View(1, 5, BOOKS[1]));
    var w2 := Run(w, steps);
    assert BOOKS[1].bids[100] != BOOKS[0].bids[100];
    FlushOne(w2, true);
    RunOne(w, steps, FlushTick(Faults(false, true, false), ALL_ROOM));
    steps := steps + [FlushTick(Faults(false, true, false), ALL_ROOM)];
    var w3 := Run(w, steps);
    Publish(w3, View(2, 3, BOOKS[2]));
    steps := RunPublish(w, steps, View(2, 3, BOOKS[2]));
  }

  /** A run, with every snapshot honest and nothing lost, after which the probe has seen no
      gap and no stale delta and yet shows a bid from before the market was reset. The
      documented client reports the gap. */
  lemma {:induction false} ProbeCrossesEpochs() returns (steps: seq<Step>)
    ensures AllAllowed(World(View(1, 4, BOOKS[0]), NEW_SESSION), steps)
    ensures var s := Run(World(View(1, 4, BOOKS[0]), NEW_SESSION), steps).sess;
            var probe := ClientAfter(s.log, Probing);
      && HonestSnapshots(s.log)
      && probe.gaps == 0 && probe.stale == 0
      && 100 in probe.book.bids && 100 !in s.co.window.bids
      && ClientAfter(s.log, Documented).gaps == 1
  {
    var w := World(View(1, 4, BOOKS[0]), NEW_SESSION);
    steps := HoldAcrossReset(w);
    var log := Run(w, steps).sess.log;
    steps := DeliverAfterReset(w, steps);
    var p, q := DeltaPacket(2, 4, BOOKS[3], BOOKS[2]), DeltaPacket(1, 5, BOOKS[1], BOOKS[0]);
    CrossedLog(log, p, q, Probing);
    CrossedLog(log, p, q, Documented);
  }

  lemma {:induction false} DeliverAfterReset(w: World, before: seq<Step>) returns (steps: seq<Step>)
    requires AllAllowed(w, before)
    requires var r := Run(w, before);
      && r.engine == View(2, 3, BOOKS[2]) && !r.sess.co.needsSnapshot
      && r.sess.co.epoch == 2 && r.sess.co.updateID == r.sess.co.clientApplied == 3 && r.sess.co.sent == BOOKS[2]
      && r.sess.held == Some(DeltaPacket(1, 5, BOOKS[1], BOOKS[0]))
    ensures AllAllowed(w, steps) && Run(w, steps).sess.co.window == BOOKS[3]
    ensures Run(w, steps).sess.log == Run(w, before).sess.log
              + [DeltaPacket(2, 4, BOOKS[3], BOOKS[2])] + [DeltaPacket(1, 5, BOOKS[1], BOOKS[0])]
  {
    Publish(Run(w, before), View(2, 4, BOOKS[3]));
    steps := RunPublish(w, before, View(2, 4, BOOKS[3]));
    assert BOOKS[3].bids[200] != BOOKS[2].bids[200];
    FlushOne(Run(w, steps), false);
    RunOne(w, steps, FlushTick(Faults(false, false, false), ALL_ROOM));
    steps := steps + [FlushTick(Faults(false, false, false), ALL_ROOM)];
  }

  lemma {:induction false} CrossedLog(log: seq<Packet>, p: Packet, q: Packet, rules: Rules)
    requires log == [Packet(SnapshotMsg(1, 4, BOOKS[0]), EMPTY_BOOK, BOOKS[0]),
                     Packet(SnapshotMsg(2, 3, BOOKS[2]), EMPTY_BOOK, BOOKS[2])]
    requires p == DeltaPacket(2, 4, BOOKS[3], BOOKS[2]) && q == DeltaPacket(1, 5, BOOKS[1], BOOKS[0])
    ensures HonestSnapshots(log + [p] + [q])
    ensures var c := ClientAfter(log + [p] + [q], rules);
      if rules.Probing? then c.gaps == 0 && c.stale == 0 && 100 in c.book.bids else c.gaps == 1
  {
    ClientAppend([log[0]], log[1], rules);
    ClientAppend(log, p, rules);
    ClientAppend(log + [p], q, rules);
    assert [log[0]] + [log[1]] == log;
    ClientAppend([], log[0], rules);
    assert [] + [log[0]] == [log[0]];
    assert 100 in q.msg.delta.book.bids && q.msg.delta.book.bids[100] == 2;
  }

  // ----- what goes wrong in the book

  /** `got` is `old` with every level of `new_` written over it, and nothing removed. */
  ghost predicate Mixed(got: Side, old_: Side, new_: Side) {
    forall q :: At(got, q) == if q in new_ then At(new_, q) else At(old_, q)
  }

  ghost predicate MixedBook(got: Book, old_: Book, new_: Book) {
    Mixed(got.bids, old_.bids, new_.bids) && Mixed(got.asks, old_.asks, new_.asks)
  }

  /** Every level shown in `old_` has its price in `new_`. */
  ghost predicate Covered(old_: Side, new_: Side) {
    forall q :: At(old_, q) != 0 ==> q in new_
  }

  /** Mixing shows exactly when the old book had a price the new one has not. */
  lemma {:induction false} MixedShowsExactly(got: Side, old_: Side, new_: Side)
    requires Mixed(got, old_, new_)
    ensures SameSide(got, new_) <==> Covered(old_, new_)
  {
    if SameSide(got, new_) {
      forall q | At(old_, q) != 0 ensures q in new_ {
        assert At(got, q) == At(new_, q);
      }
    }
    if Covered(old_, new_) {
      forall q ensures At(got, q) == At(new_, q) {
        assert At(old_, q) != 0 ==> q in new_;
      }
    }
  }

  /** A delta diffed against nothing removes nothing. */
  lemma {:induction false} DiffAgainstNothing(held: Book, after: Book)
    ensures MixedBook(PatchBook(held, DiffBook(after, EMPTY_BOOK)), held, after)
  {
    forall q
      ensures At(Patch(held.bids, Diff(after.bids, map[])), q)
              == if q in after.bids then At(after.bids, q) else At(held.bids, q)
      ensures At(Patch(held.asks, Diff(after.asks, map[])), q)
              == if q in after.asks then At(after.asks, q) else At(held.asks, q)
    {
      PatchedDiffAt(held.bids, after.bids, map[], q);
      PatchedDiffAt(held.asks, after.asks, map[], q);
    }
  }

  /** The two steps whose snapshot the server assumes nothing of, when it finds no room. */
  predicate LosesSnapshot(step: Step) {
    step == Undeliverable(false) || (step.Switch? && !step.room)
  }

  function EngineAfter(w: World, step: Step): View {
    if step.Switch? then step.view else w.engine
  }

  /** A snapshot lost on a client that cannot miss it: the next update is taken as its own,
      and every level the client had and the market has not stays, unreported. After a switch
      those are the old market's levels. */
  lemma {:induction false} LostSnapshotMixes(w: World, step: Step, v: View) returns (more: seq<Step>)
    requires Inv(w) && w.sess.held.None? && LosesSnapshot(step) && !Allowed(w, step)
    requires v.epoch == EngineAfter(w, step).epoch && v.book != EMPTY_BOOK
    requires v.updateID > TrackOf(w.sess.log).client.applied
    ensures AllAllowed(Next(w, step), more) && Run(Next(w, step), more).engine == v
    ensures var c0, c := TrackOf(w.sess.log).client, TrackOf(Run(Next(w, step), more).sess.log).client;
      && c.epoch == v.epoch && c.applied == v.updateID && c.gaps == c0.gaps && c.stale == c0.stale
      && MixedBook(c.book, c0.book, v.book)
  {
    var n := Next(w, step);
    LostSnapshotLeaves(w, step);
    more := PublishAndFlush(n, v, ALL_ROOM);
    var p := NextPacket(n.sess.co, v);
    assert Run(n, more).sess.log == w.sess.log + [p];
    TakenAsItsOwn(w.sess.log, p, v);
  }

  /** The coalescer starts over behind the client and assumes nothing. */
  lemma {:induction false} LostSnapshotLeaves(w: World, step: Step)
    requires Inv(w) && w.sess.held.None? && LosesSnapshot(step) && !Allowed(w, step)
    ensures var n, c := Next(w, step), TrackOf(w.sess.log).client;
      && n.engine == EngineAfter(w, step) && n.sess.log == w.sess.log && n.sess.held == None
      && !n.sess.co.needsSnapshot && n.sess.co.sent == EMPTY_BOOK && n.sess.co.epoch == n.engine.epoch == c.epoch
      && n.sess.co.clientApplied == n.sess.co.updateID == n.engine.updateID <= c.applied
  {
    assert Next(w, step).sess.log == w.sess.log;
  }

  /** A delta diffed against nothing, taken by a client inside or just before its range. */
  lemma {:induction false} TakenAsItsOwn(log: seq<Packet>, p: Packet, v: View)
    requires p.msg.DeltaMsg?
             && p.msg.delta == Delta(v.epoch, p.msg.delta.first, v.updateID, DiffBook(v.book, EMPTY_BOOK))
    requires Accepts(TrackOf(log).client, p.msg.delta, Documented)
    ensures var c0, c := TrackOf(log).client, TrackOf(log + [p]).client;
      && c.epoch == v.epoch && c.applied == v.updateID && c.gaps == c0.gaps && c.stale == c0.stale
      && MixedBook(c.book, c0.book, v.book)
  {
    TrackAppend(log, p);
    DiffAgainstNothing(TrackOf(log).client.book, v.book);
  }

  /** And such a client is reached from a new session without any fault: it has just been sent
      a snapshot. Losing a resynchronisation, or the snapshot of a switch to a market whose id
      is no higher, ends in a mix of the two books that nobody reports. */
  lemma {:induction false} LostSnapshotDiverges(e: View, v0: View, step: Step, v: View)
    returns (before: seq<Step>, after: seq<Step>)
    requires Env(World(e, NEW_SESSION), Advance(v0)) && v0.book != EMPTY_BOOK
    requires step == Undeliverable(false)
             || (step.Switch? && !step.room && step.view.epoch == v0.epoch && step.view.updateID <= v0.updateID)
    requires v.epoch == v0.epoch && v.updateID > v0.updateID && v.book != EMPTY_BOOK
    ensures AllAllowed(World(e, NEW_SESSION), before)
    ensures var w := Run(World(e, NEW_SESSION), before);
            var r := Run(Next(w, step), after);
            var c := TrackOf(r.sess.log).client;
      && w.engine == v0 && !Allowed(w, step) && AllAllowed(Next(w, step), after) && r.engine == v
      && c.gaps == 0 && c.stale == 0 && MixedBook(c.book, VisibleBook(v0.book), v.book)
  {
    InitInv(e);
    before := Rebase(World(e, NEW_SESSION), v0);
    RunKeeps(World(e, NEW_SESSION), before);
    after := LostSnapshotMixes(Run(World(e, NEW_SESSION), before), step, v);
  }

  /** The engine publishes `v` and the delta to it is held back. */
  lemma {:induction false} PublishAndHold(w: World, v: View) returns (steps: seq<Step>)
    requires ReadyFor(w, v)
    ensures AllAllowed(w, steps)
    ensures var r := Run(w, steps);
      r.engine == v && r.sess.held == Some(NextPacket(w.sess.co, v)) && r.sess.log == w.sess.log
  {
    RunOne(w, [], Advance(v));
    RunOne(w, [Advance(v)], Window(v, true));
    steps := [Advance(v)] + [Window(v, true)];
    assert Run(w, steps).sess.co == w.sess.co.(window := v.book, updateID := v.updateID, bookDirty := true);
    RunOne(w, steps, FlushTick(Faults(false, true, false), ALL_ROOM));
    steps := steps + [FlushTick(Faults(false, true, false), ALL_ROOM)];
  }

  /** A delta held back across a switch, from a new session: one market's delta `v0` to `v1`
      is held, the client switches to a market that is behind it, and when that market's next
      update ends where the held range starts, the client puts the old market's levels into
      the new market's book. Nothing is lost and nothing is reported. */
  lemma {:induction false} SwitchWithHeldDiverges(e: View, v0: View, v1: View, view: View, v2: View)
    returns (before: seq<Step>, after: seq<Step>)
    requires Env(World(e, NEW_SESSION), Advance(v0))
    requires v1.epoch == v0.epoch && v1.updateID > v0.updateID && v1.book != v0.book
    requires view.epoch == v0.epoch == v2.epoch && view.updateID < v0.updateID == v2.updateID && v2.book != EMPTY_BOOK
    ensures AllAllowed(World(e, NEW_SESSION), before)
    ensures var w := Run(World(e, NEW_SESSION), before);
            var n := Next(w, Switch(view, true));
            var r := Run(n, after);
            var c := TrackOf(r.sess.log).client;
      && !Allowed(w, Switch(view, true)) && AllAllowed(n, after) && r.engine == v2
      && c.gaps == 0 && c.stale == 0 && c.applied == v1.updateID && Shows(c.book, v1.book, v0.book)
  {
    var held;
    before, held := HoldFromStart(e, v0, v1);
    after := SwitchAndRelease(Run(World(e, NEW_SESSION), before), held, view, v2, v1, v0.book);
  }

  /** The book has the new quantity at every price where `after` differs from `base`. */
  ghost predicate Shows(book: Book, after: Book, base: Book) {
    && (forall q :: q in Diff(after.bids, base.bids) ==> At(book.bids, q) == At(after.bids, q))
    && (forall q :: q in Diff(after.asks, base.asks) ==> At(book.asks, q) == At(after.asks, q))
  }

  lemma {:induction false} HoldFromStart(e: View, v0: View, v1: View) returns (steps: seq<Step>, held: Packet)
    requires Env(World(e, NEW_SESSION), Advance(v0))
    requires v1.epoch == v0.epoch && v1.updateID > v0.updateID && v1.book != v0.book
    ensures AllAllowed(World(e, NEW_SESSION), steps)
    ensures var w := Run(World(e, NEW_SESSION), steps);
            var c := TrackOf(w.sess.log).client;
      w.sess.held == Some(held) && c.gaps == 0 && c.stale == 0
    ensures var d := Delta(v0.epoch, v0.updateID + 1, v1.updateID, DiffBook(v1.book, v0.book));
      held == Packet(DeltaMsg(d), v0.book, v1.book)
  {
    var w0 := World(e, NEW_SESSION);
    var one := Rebase(w0, v0);
    var w1 := Run(w0, one);
    var two := PublishAndHold(w1, v1);
    RunTwice(w0, one, two);
    steps, held := one + two, NextPacket(w1.sess.co, v1);
  }

  lemma {:induction false} SwitchAndRelease(w: World, held: Packet, view: View, v: View, old_: View, base: Book)
    returns (after: seq<Step>)
    requires w.sess.held == Some(held) && view.epoch == v.epoch && view.updateID < v.updateID < old_.updateID
             && v.book != EMPTY_BOOK
    requires held.msg == DeltaMsg(Delta(v.epoch, v.updateID + 1, old_.updateID, DiffBook(old_.book, base)))
    ensures var n := Next(w, Switch(view, true));
            var r := Run(n, after);
            var c0, c := TrackOf(w.sess.log).client, TrackOf(r.sess.log).client;
      && !Allowed(w, Switch(view, true)) && AllAllowed(n, after) && r.engine == v
      && c.applied == old_.updateID && c.gaps == c0.gaps && c.stale == c0.stale && Shows(c.book, old_.book, base)
  {
    SwitchShips(w, view);
    after := ReleaseFrom(Next(w, Switch(view, true)), held, v, old_, base);
  }

  /** The new market's update, and then the held delta that continues where it ends. */
  lemma {:induction false} ReleaseFrom(n: World, held: Packet, v: View, old_: View, base: Book)
    returns (after: seq<Step>)
    requires n.sess.held == Some(held) && ReadyFor(n, v) && n.sess.co.sent == EMPTY_BOOK && v.updateID < old_.updateID
    requires var c := TrackOf(n.sess.log).client;
      c.epoch == v.epoch && c.applied == n.sess.co.clientApplied
    requires held.msg == DeltaMsg(Delta(v.epoch, v.updateID + 1, old_.updateID, DiffBook(old_.book, base)))
    ensures var r := Run(n, after);
            var c0, c := TrackOf(n.sess.log).client, TrackOf(r.sess.log).client;
      && AllAllowed(n, after) && r.engine == v
      && c.applied == old_.updateID && c.gaps == c0.gaps && c.stale == c0.stale && Shows(c.book, old_.book, base)
  {
    after := PublishAndFlush(n, v, ALL_ROOM);
    var p := NextPacket(n.sess.co, v);
    assert Run(n, after).sess.log == n.sess.log + [p] + [held];
    TakenAsItsOwn(n.sess.log, p, v);
    ReleasedAfter(n.sess.log + [p], held, old_, base);
  }

  lemma {:induction false} SwitchShips(w: World, view: View)
    ensures var n := Next(w, Switch(view, true));
            var c0, c := TrackOf(w.sess.log).client, TrackOf(n.sess.log).client;
      && n.engine == view && n.sess.held == w.sess.held && !n.sess.co.needsSnapshot
      && n.sess.co.epoch == view.epoch && n.sess.co.clientApplied == n.sess.co.updateID == view.updateID
      && n.sess.co.sent == EMPTY_BOOK
      && c.epoch == view.epoch && c.applied == view.updateID && c.gaps == c0.gaps && c.stale == c0.stale
  {
    var shipped := Packet(SnapshotMsg(view.epoch, view.updateID, view.book), EMPTY_BOOK, EMPTY_BOOK);
    assert Next(w, Switch(view, true)).sess.log == w.sess.log + [shipped];
    TrackAppend(w.sess.log, shipped);
  }

  /** The held delta, when it continues where the client has come to. */
  lemma {:induction false} ReleasedAfter(log: seq<Packet>, held: Packet, v: View, base: Book)
    requires var c := TrackOf(log).client;
      held.msg == DeltaMsg(Delta(c.epoch, c.applied + 1, v.updateID, DiffBook(v.book, base))) && c.applied < v.updateID
    ensures var c0, c := TrackOf(log).client, TrackOf(log + [held]).client;
      c.applied == v.updateID && c.gaps == c0.gaps && c.stale == c0.stale && Shows(c.book, v.book, base)
  {
    TrackAppend(log, held);
    var c := TrackOf(log).client;
    forall q | q in Diff(v.book.bids, base.bids)
      ensures At(Patch(c.book.bids, Diff(v.book.bids, base.bids)), q) == At(v.book.bids, q)
    {
      PatchedDiffAt(c.book.bids, v.book.bids, base.bids, q);
    }
    forall q | q in Diff(v.book.asks, base.asks)
      ensures At(Patch(c.book.asks, Diff(v.book.asks, base.asks)), q) == At(v.book.asks, q)
    {
      PatchedDiffAt(c.book.asks, v.book.asks, base.asks, q);
    }
  }
}
