/**
 What the book protocol needs of its surroundings, exactly: a step that `Allowed` leaves out
 leads to a state from which the protocol, going on without any fault of its own, hands the
 client a delta that does not fit.
 */
module BookLimits {
  import opened Domain
  import opened Levels
  import opened Coalescing
  import opened BookClient
  import opened Sessions
  import opened BookProtocol

  const NO_FAULTS := Faults(false, false, false)
  const ALL_ROOM := Room(true, true, true)

  /** However the protocol goes on, every delta the client applies fits. */
  ghost predicate Sound(w: World) {
    forall more: seq<Step> :: AllAllowed(w, more) ==> Chained(Run(w, more).sess.log)
  }

  lemma {:induction false} RunOne(w: World, steps: seq<Step>, a: Step)
    requires AllAllowed(w, steps) && Allowed(Run(w, steps), a)
    ensures AllAllowed(w, steps + [a]) && Run(w, steps + [a]) == Next(Run(w, steps), a)
  {
    assert (steps + [a])[..|steps|] == steps;
  }

  function Other(b: Book): (c: Book)
    ensures c != b
  {
    assert 1 in map[1 := 1];
    if b == EMPTY_BOOK then Book(map[1 := 1], map[]) else EMPTY_BOOK
  }

  // ----- steering

  /** What a flush takes after the engine has published `v`. */
  function NextPacket(co: CoState, v: View): Packet {
    Packet(DeltaMsg(Delta(v.epoch, co.clientApplied + 1, v.updateID, DiffBook(v.book, co.sent))), co.sent, v.book)
  }

  /** The session has caught up with the engine's epoch, and `v` is news. */
  predicate ReadyFor(w: World, v: View) {
    && !w.sess.co.needsSnapshot
    && w.sess.co.epoch == w.engine.epoch == v.epoch
    && w.sess.co.clientApplied <= w.sess.co.updateID <= w.engine.updateID < v.updateID
    && v.book != w.sess.co.sent
  }

  lemma {:induction false} PublishAndFlush(w: World, v: View, r: Room) returns (steps: seq<Step>)
    requires ReadyFor(w, v) && (r.first || w.sess.held.Some?)
    ensures steps == [Advance(v), Window(v, true), FlushTick(NO_FAULTS, r)]
    ensures AllAllowed(w, steps)
    ensures var s := Run(w, steps).sess;
      && Run(w, steps).engine == v && s.held == None
      && s.log == w.sess.log + Queued(NextPacket(w.sess.co, v), r.first)
                  + (if w.sess.held.Some? then Queued(w.sess.held.value, r.second) else [])
  {
    steps := [];
    RunOne(w, [], Advance(v));
    RunOne(w, [Advance(v)], Window(v, true));
    var w2 := Run(w, [Advance(v)] + [Window(v, true)]);
    assert w2.sess.co == w.sess.co.(window := v.book, updateID := v.updateID, bookDirty := true);
    FlushPublished(w2, r);
    RunOne(w, [Advance(v)] + [Window(v, true)], FlushTick(NO_FAULTS, r));
    steps := [Advance(v)] + [Window(v, true)] + [FlushTick(NO_FAULTS, r)];
  }

  lemma {:induction false} FlushPublished(w: World, r: Room)
    requires w.sess.co.bookDirty && !w.sess.co.needsSnapshot
    requires w.sess.co.clientApplied < w.sess.co.updateID && w.sess.co.window != w.sess.co.sent
    requires r.first || w.sess.held.Some?
    ensures Allowed(w, FlushTick(NO_FAULTS, r))
    ensures var p, n := TakenPacket(w.sess.co), Next(w, FlushTick(NO_FAULTS, r));
      && n.engine == w.engine && n.sess.held == None && n.sess.co == Taken(w.sess.co)
      && n.sess.log == w.sess.log + Queued(p, r.first)
                       + (if w.sess.held.Some? then Queued(w.sess.held.value, r.second) else [])
  {
    assert w.sess.log + [TakenPacket(w.sess.co)] + [] == w.sess.log + [TakenPacket(w.sess.co)];
  }

  lemma {:induction false} RunTwice(w: World, one: seq<Step>, two: seq<Step>)
    requires AllAllowed(w, one) && AllAllowed(Run(w, one), two)
    ensures AllAllowed(w, one + two) && Run(w, one + two) == Run(Run(w, one), two)
  {
    if two == [] {
      assert one + two == one;
    } else {
      var n := |two| - 1;
      RunTwice(w, one, two[..n]);
      assert (one + two)[..|one + two| - 1] == one + two[..n];
    }
  }

  lemma {:induction false} UnfitBreaks(log: seq<Packet>, p: Packet, rest: seq<Packet>)
    requires !Fits(TrackOf(log), p)
    ensures !Chained(log + [p] + rest)
  {
    var all := log + [p] + rest;
    assert all[..|log|] == log && all[|log|] == p;
  }

  /** The engine publishes `v`, the session hears of it, and the client subscribes again. */
  lemma {:induction false} Rebase(w: World, v: View) returns (steps: seq<Step>)
    requires Ordered(w.sess.co, w.engine) && Env(w, Advance(v))
    ensures AllAllowed(w, steps)
    ensures var r := Run(w, steps);
            var t, c0 := TrackOf(r.sess.log), TrackOf(w.sess.log).client;
      && r.engine == v && r.sess.held == w.sess.held && !r.sess.co.needsSnapshot
      && r.sess.co.epoch == v.epoch && r.sess.co.updateID == r.sess.co.clientApplied == v.updateID
      && r.sess.co.window == r.sess.co.sent == t.shadow == v.book
      && t.client == Client(v.epoch, v.updateID, VisibleBook(v.book), c0.gaps, c0.stale)
  {
    RunOne(w, [], Advance(v));
    RunOne(w, [Advance(v)], Window(v, true));
    steps := [Advance(v)] + [Window(v, true)];
    var w2 := Run(w, steps);
    assert w2.engine == v && w2.sess.co.window == v.book && w2.sess.held == w.sess.held;
    if w.sess.co.epoch != v.epoch {
      TrackAppend(w.sess.log, Packet(SnapshotMsg(v.epoch, v.updateID, v.book), EMPTY_BOOK, v.book));
    }
    RunOne(w, steps, Subscribe(true));
    steps := steps + [Subscribe(true)];
    TrackAppend(w2.sess.log, Packet(SnapshotMsg(v.epoch, v.updateID, v.book), w2.sess.co.sent, v.book));
  }

  // ----- the two ways to go wrong

  /** A client at or past the coalescer, or level with it and taken for something else, takes
      the next delta for its own. */
  lemma {:induction false} AheadBreaks(w: World) returns (more: seq<Step>)
    requires Ordered(w.sess.co, w.engine) && w.sess.co.epoch == w.engine.epoch
    requires !Behind(TrackOf(w.sess.log), w.sess.co)
    ensures AllAllowed(w, more) && !Chained(Run(w, more).sess.log)
  {
    var t := TrackOf(w.sess.log);
    var id := 1 + if t.client.applied < w.engine.updateID then w.engine.updateID else t.client.applied;
    var v := View(w.engine.epoch, id, Other(w.sess.co.sent));
    more := PublishAndFlush(w, v, ALL_ROOM);
    var p := NextPacket(w.sess.co, v);
    var rest := if w.sess.held.Some? then [w.sess.held.value] else [];
    assert Run(w, more).sess.log == w.sess.log + [p] + rest;
    UnfitBreaks(w.sess.log, p, rest);
  }

  /** A held delta that the engine has not left behind: bring the market to just before its
      end, with another book, and it is released. */
  lemma {:induction false} ReachableHeldBreaks(w: World) returns (more: seq<Step>)
    requires Ordered(w.sess.co, w.engine) && w.sess.held.Some?
    requires var p := w.sess.held.value;
      p.msg.DeltaMsg? && 0 < p.msg.delta.first <= p.msg.delta.last && !Outdated(p, w.engine)
    ensures AllAllowed(w, more) && !Chained(Run(w, more).sess.log)
  {
    var p := w.sess.held.value;
    var d := p.msg.delta;
    var v := View(d.epoch, d.last - 1, Other(p.base));
    var one := Rebase(w, v);
    var w1 := Run(w, one);
    var v2 := View(d.epoch, d.last, Other(v.book));
    var two := PublishAndFlush(w1, v2, Room(false, true, true));
    RunTwice(w, one, two);
    more := one + two;
    assert Run(w, more).sess.log == w1.sess.log + [p] + [];
    UnfitBreaks(w1.sess.log, p, []);
  }

  // ----- exactly

  /** From every state the protocol can be in, and for every step its surroundings can make:
      `Allowed` holds if and only if whatever follows keeps every applied delta fitting. */
  lemma {:induction false} AllowedExactly(w: World, step: Step)
    requires Inv(w) && Env(w, step)
    ensures Allowed(w, step) <==> Sound(Next(w, step))
  {
    var n := Next(w, step);
    if Allowed(w, step) {
      StepKeeps(w, step);
      InvIsSound(n);
    } else {
      NotAllowedLeads(w, step);
      if !Behind(TrackOf(n.sess.log), n.sess.co) {
        var more := AheadBreaks(n);
        assert !Sound(n);
      } else {
        var more := ReachableHeldBreaks(n);
        assert !Sound(n);
      }
    }
  }

  lemma {:induction false} InvIsSound(w: World)
    requires Inv(w)
    ensures Sound(w)
  {
    forall more: seq<Step> | AllAllowed(w, more) ensures Chained(Run(w, more).sess.log) {
      RunKeeps(w, more);
    }
  }

  /** A snapshot lost on a client that cannot miss it leaves that client ahead; a switch with
      a held delta leaves the delta within reach. */
  lemma {:induction false} NotAllowedLeads(w: World, step: Step)
    requires Inv(w) && Env(w, step) && !Allowed(w, step)
    ensures var n := Next(w, step);
      && Ordered(n.sess.co, n.engine) && n.sess.co.epoch == n.engine.epoch
      && (!Behind(TrackOf(n.sess.log), n.sess.co)
          || (n.sess.held == w.sess.held && w.sess.held.Some? && !Outdated(w.sess.held.value, n.engine)))
  {
    var n := Next(w, step);
    assert (step.Switch? && step.room) || n.sess.log == w.sess.log;
  }

  lemma {:induction false} Prefixes(steps: seq<Step>, n: nat)
    requires |steps| == n + 1
    ensures steps[..n + 1] == steps
    ensures forall k :: 0 <= k <= n ==> steps[..n][..k] == steps[..k]
  {
  }

  /** Every state of a run, from the first to the last, is sound. */
  ghost predicate SoundThroughout(w: World, steps: seq<Step>) {
    forall k :: 0 <= k <= |steps| ==> SoundAt(w, steps[..k])
  }

  ghost predicate SoundAt(w: World, steps: seq<Step>) {
    Sound(Run(w, steps))
  }

  lemma {:induction false} SoundOneMore(w: World, steps: seq<Step>, n: nat)
    requires |steps| == n + 1
    ensures SoundThroughout(w, steps) <==> SoundThroughout(w, steps[..n]) && SoundAt(w, steps)
  {
    Prefixes(steps, n);
    if SoundThroughout(w, steps) {
      forall k | 0 <= k <= n ensures SoundAt(w, steps[..n][..k]) {
        assert SoundAt(w, steps[..k]);
      }
    }
    if SoundThroughout(w, steps[..n]) && SoundAt(w, steps) {
      forall k | 0 <= k <= n ensures SoundAt(w, steps[..k]) {
        assert SoundAt(w, steps[..n][..k]);
      }
    }
  }

  /** The same over whole runs: the steps were all allowed if and only if the protocol could
      have gone on soundly from every point of the run. */
  lemma {:induction false} RunsExactly(w: World, steps: seq<Step>)
    requires Inv(w) && forall k :: 0 <= k < |steps| ==> Env(Run(w, steps[..k]), steps[k])
    ensures AllAllowed(w, steps) <==> SoundThroughout(w, steps)
  {
    if steps == [] {
      InvIsSound(w);
      assert forall k :: 0 <= k <= |steps| ==> steps[..k] == [];
    } else {
      var n := |steps| - 1;
      Prefixes(steps, n);
      RunsExactly(w, steps[..n]);
      SoundOneMore(w, steps, n);
      LastStepExactly(w, steps, n);
    }
  }

  lemma {:induction false} LastStepExactly(w: World, steps: seq<Step>, n: nat)
    requires |steps| == n + 1 && Inv(w) && Env(Run(w, steps[..n]), steps[n])
    ensures AllAllowed(w, steps) <==> AllAllowed(w, steps[..n]) && SoundAt(w, steps)
  {
    if AllAllowed(w, steps[..n]) {
      RunKeeps(w, steps[..n]);
      AllowedExactly(Run(w, steps[..n]), steps[n]);
    }
  }

  /** What the server can tell by itself: to a client that has had everything, the snapshot
      must be news, or change nothing. */
  lemma {:induction false} UpToDateMayMiss(w: World, assumed: Book)
    requires Inv(w)
    requires TrackOf(w.sess.log).client.epoch == w.sess.co.epoch
    requires TrackOf(w.sess.log).client.applied == w.sess.co.clientApplied
    ensures MayMiss(w.sess.log, w.engine, assumed)
            <==> || w.engine.epoch != w.sess.co.epoch
                 || w.sess.co.clientApplied < w.engine.updateID
                 || assumed == w.sess.co.sent
  {
  }
}
