/**
 The book steps of delivery/session.go: windows from the bus, flushes with their injected
 faults, snapshots, resynchronisation and rebinding to another market.

 Every packet queued for the client is kept in `log`. A packet also records the book the
 server took the client to hold before it and after it; the client never sees those two.
 */
module Sessions {
  import opened Domain
  import opened Levels
  import opened Coalescing
  import opened BookClient

  /** The engine's own book, as `Engine.Book()` returns it, cut to the session's window. */
  datatype View = View(epoch: nat, updateID: nat, book: Book)

  datatype Packet = Packet(msg: Message, base: Book, after: Book)

  datatype Sess = Sess(co: CoState, held: Option<Packet>, log: seq<Packet>)

  const NEW_SESSION := Sess(FRESH, None, [])

  datatype Faults = Faults(skip: bool, reverse: bool, duplicate: bool)

  /** Which of the frames a step queues find room in the outbound queue. */
  datatype Room = Room(first: bool, second: bool, snapshot: bool)

  function Queued(p: Packet, room: bool): seq<Packet> {
    if room then [p] else []
  }

  /** sendSnapshot: the result of the enqueue is ignored. */
  function Ship(s: Sess, e: View, room: bool): Sess {
    var co := AfterSnapshot(s.co, e.epoch, e.updateID);
    var p := Packet(SnapshotMsg(e.epoch, e.updateID, e.book), s.co.sent, co.sent);
    s.(co := co, log := s.log + Queued(p, room))
  }

  function Resync(s: Sess, e: View, room: bool): Sess {
    Ship(s.(co := AfterReset(s.co)), e, room)
  }

  /** bindEngine followed by the snapshot of handleSubscribe. A held delta survives. */
  function Rebind(s: Sess, e: View, room: bool): Sess {
    Ship(s.(co := FRESH), e, room)
  }

  function WindowEvent(s: Sess, e: View, w: View, room: bool): Sess {
    var s1 := s.(co := OnWindow(s.co, w.epoch, w.updateID, w.book));
    if s1.co.needsSnapshot then Ship(s1, e, room) else s1
  }

  function Flush(s: Sess, e: View, f: Faults, r: Room): Sess {
    var before := if f.skip then AfterGap(s.co) else s.co;
    var (co, d) := Take(before);
    if d.None? then s.(co := co)
    else Emit(s.(co := co), Packet(DeltaMsg(d.value), before.sent, co.sent), e, f, r)
  }

  function Emit(s: Sess, p: Packet, e: View, f: Faults, r: Room): Sess {
    if f.reverse then s.(held := Some(p))
    else if s.held.Some? then
      s.(held := None, log := s.log + Queued(p, r.first) + Queued(s.held.value, r.second))
    else if !r.first then Resync(s, e, r.snapshot)
    else s.(log := s.log + [p] + Queued(p, f.duplicate && r.second))
  }

  /** Neither held back, nor released with a held one, nor lost. */
  predicate SentPlainly(reverse: bool, held: Option<Packet>, r: Room) {
    !reverse && held.None? && r.first
  }

  class Session {
    var coalescer: Coalescer
    var heldDelta: Option<Wire>
    var outbound: seq<Wire>
    var skipBookDeltas: int
    var reverseDeltas: bool
    var duplicateDelta: bool

    ghost var held: Option<Packet>
    ghost var log: seq<Packet>

    /** What is on the wire is what the packets say. */
    ghost predicate Valid()
      reads this
    {
      && (heldDelta.Some? <==> held.Some?)
      && (held.Some? ==> MessageOf(heldDelta.value) == held.value.msg)
      && |outbound| == |log|
      && forall i :: 0 <= i < |log| ==> MessageOf(outbound[i]) == log[i].msg
    }

    ghost function State(): Sess
      reads this, coalescer
    {
      Sess(coalescer.State(), held, log)
    }

    constructor ()
      ensures Valid() && fresh(coalescer) && State() == NEW_SESSION
      ensures skipBookDeltas == 0 && !reverseDeltas && !duplicateDelta
    {
      coalescer := new Coalescer();
      heldDelta, outbound := None, [];
      held, log := None, [];
      skipBookDeltas, reverseDeltas, duplicateDelta := 0, false, false;
    }

    method Enqueue(frame: Wire, ghost p: Packet, room: bool)
      requires Valid() && MessageOf(frame) == p.msg
      modifies this`outbound, this`log
      ensures Valid() && log == old(log) + Queued(p, room)
    {
      if room {
        outbound := outbound + [frame];
        log := log + [p];
      }
    }

    method SendSnapshot(epoch: nat, updateID: nat, bids: seq<Level>, asks: seq<Level>, room: bool)
      requires Valid()
      modifies this`outbound, this`log, coalescer
      ensures Valid() && coalescer == old(coalescer)
      ensures State() == Ship(old(State()), View(epoch, updateID, BookOf(bids, asks)), room)
    {
      ghost var before := coalescer.State();
      Enqueue(WireSnapshot(epoch, updateID, bids, asks),
              Packet(SnapshotMsg(epoch, updateID, BookOf(bids, asks)), before.sent, before.window), room);
      coalescer.SnapshotSent(epoch, updateID);
    }

    method RequestResync(epoch: nat, updateID: nat, bids: seq<Level>, asks: seq<Level>, room: bool)
      requires Valid()
      modifies this`outbound, this`log, coalescer
      ensures Valid() && coalescer == old(coalescer)
      ensures State() == Resync(old(State()), View(epoch, updateID, BookOf(bids, asks)), room)
    {
      coalescer.Reset();
      SendSnapshot(epoch, updateID, bids, asks, room);
    }

    method BindEngine(epoch: nat, updateID: nat, bids: seq<Level>, asks: seq<Level>, room: bool)
      requires Valid()
      modifies this
      ensures Valid() && fresh(coalescer)
      ensures State() == Rebind(old(State()), View(epoch, updateID, BookOf(bids, asks)), room)
    {
      coalescer := new Coalescer();
      SendSnapshot(epoch, updateID, bids, asks, room);
    }

    method HandleBookWindow(w: View, bids: seq<Level>, asks: seq<Level>,
                            engine: View, engineBids: seq<Level>, engineAsks: seq<Level>, room: bool)
      requires Valid() && w.book == BookOf(bids, asks) && engine.book == BookOf(engineBids, engineAsks)
      modifies this`outbound, this`log, coalescer
      ensures Valid() && coalescer == old(coalescer)
      ensures State() == WindowEvent(old(State()), engine, w, room)
    {
      coalescer.OnBookWindow(w.epoch, w.updateID, bids, asks);
      if coalescer.needsSnapshot {
        SendSnapshot(engine.epoch, engine.updateID, engineBids, engineAsks, room);
      }
    }

    /** The faults asked for are used up where the source uses them up: the skip at once,
        the reversal by the first delta, the duplicate by the first delta sent plainly. */
    method FlushBook(engine: View, engineBids: seq<Level>, engineAsks: seq<Level>, r: Room)
      requires Valid() && engine.book == BookOf(engineBids, engineAsks)
      modifies this, coalescer
      ensures Valid() && coalescer == old(coalescer)
      ensures var f := Faults(old(skipBookDeltas) > 0, old(reverseDeltas), old(duplicateDelta));
        State() == Flush(old(State()), engine, f, r)
      ensures skipBookDeltas == 0
      ensures var co := old(coalescer.State());
              var taken := Take(if old(skipBookDeltas) > 0 then AfterGap(co) else co).1.Some?;
        && reverseDeltas == (old(reverseDeltas) && !taken)
        && duplicateDelta == (old(duplicateDelta) && !(taken && SentPlainly(old(reverseDeltas), old(held), r)))
    {
      var skip := skipBookDeltas;
      skipBookDeltas := 0;
      if skip > 0 {
        var _ := coalescer.InjectGap();
      }
      ghost var before := coalescer.State();
      var ok, epoch, first, last, bids, asks := coalescer.TakeBookDelta();
      if !ok {
        return;
      }
      ghost var d := Delta(epoch, first, last, BookOf(bids, asks));
      ghost var p := Packet(DeltaMsg(d), before.sent, coalescer.State().sent);
      EmitFrame(WireDelta(epoch, first, last, bids, asks), p, engine, engineBids, engineAsks, r);
    }

    method EmitFrame(frame: Wire, ghost p: Packet, engine: View, engineBids: seq<Level>, engineAsks: seq<Level>,
                     r: Room)
      requires Valid() && MessageOf(frame) == p.msg && engine.book == BookOf(engineBids, engineAsks)
      modifies this, coalescer
      ensures Valid() && coalescer == old(coalescer) && skipBookDeltas == old(skipBookDeltas)
      ensures State() == Emit(old(State()), p, engine, Faults(false, old(reverseDeltas), old(duplicateDelta)), r)
      ensures !reverseDeltas
      ensures duplicateDelta == (old(duplicateDelta) && !SentPlainly(old(reverseDeltas), old(held), r))
    {
      if reverseDeltas {
        reverseDeltas := false;
        heldDelta, held := Some(frame), Some(p);
        return;
      }
      if heldDelta.Some? {
        var late := heldDelta.value;
        ghost var latePacket := held.value;
        heldDelta, held := None, None;
        Enqueue(frame, p, r.first);
        Enqueue(late, latePacket, r.second);
        return;
      }
      if !r.first {
        RequestResync(engine.epoch, engine.updateID, engineBids, engineAsks, r.snapshot);
        return;
      }
      Enqueue(frame, p, true);
      if duplicateDelta {
        duplicateDelta := false;
        Enqueue(frame, p, r.second);
      }
    }
  }
}
