/**
 What the injected faults, a lost frame and a new epoch look like to the client
 (delivery/session.go): each shows in its counters or its book the way it is meant to.
 */
module BookFaults {
  import opened Domain
  import opened Levels
  import opened Coalescing
  import opened BookClient
  import opened Sessions

  // ----- a skipped range

  /** What can happen to a coalescer between two deltas. */
  datatype Pause = Seen(window: View) | Looked

  function Paused(co: CoState, pauses: seq<Pause>): CoState {
    if pauses == [] then co
    else
      var before := Paused(co, pauses[..|pauses| - 1]);
      match pauses[|pauses| - 1]
      case Seen(w) => OnWindow(before, w.epoch, w.updateID, w.book)
      case Looked => Take(before).0
  }

  /** Nothing has been handed out so far. */
  predicate Silent(co: CoState, pauses: seq<Pause>) {
    pauses == [] ||
    (Silent(co, pauses[..|pauses| - 1])
     && (pauses[|pauses| - 1].Looked? ==> Take(Paused(co, pauses[..|pauses| - 1])).1.None?))
  }

  lemma {:induction false} StaysAhead(co: CoState, pauses: seq<Pause>)
    requires Silent(co, pauses)
    ensures var after := Paused(co, pauses);
      after.needsSnapshot || (after.epoch == co.epoch && after.clientApplied == co.clientApplied)
  {
    if pauses != [] {
      StaysAhead(co, pauses[..|pauses| - 1]);
    }
  }

  /** A flush that skips sends nothing, and counts everything known so far as sent. */
  lemma {:induction false} SkipSendsNothing(s: Sess, e: View, f: Faults, r: Room)
    requires f.skip
    ensures var t := Flush(s, e, f, r);
      && t.log == s.log && t.held == s.held
      && t.co.clientApplied == t.co.updateID == s.co.updateID && t.co.epoch == s.co.epoch
      && t.co.window == s.co.window && t.co.sent == s.co.sent && t.co.needsSnapshot == s.co.needsSnapshot
  {
  }

  /** So a client that had everything reports a gap at the first delta afterwards, whatever
      windows come in between, and the delta changes nothing else. */
  lemma {:induction false} GapIsReported(s: Sess, e: View, f: Faults, r: Room, c: Client, pauses: seq<Pause>)
    requires f.skip && c.epoch == s.co.epoch && c.applied == s.co.clientApplied < s.co.updateID
    requires Silent(Flush(s, e, f, r).co, pauses)
    requires Take(Paused(Flush(s, e, f, r).co, pauses)).1.Some?
    ensures var d := Take(Paused(Flush(s, e, f, r).co, pauses)).1.value;
      && d.first == s.co.updateID + 1 > c.applied + 1
      && Receive(c, DeltaMsg(d), Documented) == c.(gaps := c.gaps + 1)
  {
    SkipSendsNothing(s, e, f, r);
    StaysAhead(Flush(s, e, f, r).co, pauses);
  }

  /** And there is such a delta as soon as a window brings news. */
  lemma {:induction false} GapIsReached(s: Sess, e: View, f: Faults, r: Room, w: View)
    requires f.skip && !s.co.needsSnapshot
    requires w.epoch == s.co.epoch && w.updateID > s.co.updateID && w.book != s.co.sent
    ensures var d := Take(Paused(Flush(s, e, f, r).co, [Seen(w)])).1;
      d.Some? && d.value.last == w.updateID && d.value.book == DiffBook(w.book, s.co.sent)
  {
    SkipSendsNothing(s, e, f, r);
    var co := Flush(s, e, f, r).co;
    assert [Seen(w)][..0] == [];
    assert Paused(co, []) == co;
    assert Paused(co, [Seen(w)]) == OnWindow(co, w.epoch, w.updateID, w.book);
  }

  // ----- a delta twice, a pair of deltas the wrong way round

  /** What this flush has for the client. */
  predicate Hands(s: Sess, d: Delta) {
    Take(s.co).1 == Some(d)
  }

  /** The client stands where the coalescer thinks it does. */
  predicate InStep(c: Client, co: CoState) {
    c.epoch == co.epoch && c.applied == co.clientApplied
  }

  /** A duplicate is the same delta once more; the client applies one and reports the other. */
  lemma {:induction false} DuplicateIsStale(s: Sess, e: View, d: Delta, c: Client)
    requires Hands(s, d) && s.held.None? && InStep(c, s.co)
    ensures var n, t := |s.log|, Flush(s, e, Faults(false, false, true), Room(true, true, true));
      && |t.log| == n + 2 && t.log[..n] == s.log && t.log[n] == t.log[n + 1] && t.log[n].msg == DeltaMsg(d)
      && t.held == s.held
    ensures var once := Receive(c, DeltaMsg(d), Documented);
      && once.applied == d.last && once.stale == c.stale && once.gaps == c.gaps
      && Receive(once, DeltaMsg(d), Documented) == once.(stale := c.stale + 1)
  {
  }

  /** Without the fault, or without room for the second frame, it is sent once. */
  lemma {:induction false} SentOnce(s: Sess, e: View, d: Delta, f: Faults, r: Room)
    requires Hands(s, d) && s.held.None? && !f.skip && !f.reverse && r.first && !(f.duplicate && r.second)
    ensures var n, t := |s.log|, Flush(s, e, f, r);
      |t.log| == n + 1 && t.log[..n] == s.log && t.log[n].msg == DeltaMsg(d)
  {
  }

  /** A reversed pair: the first delta is held back and sent after the next one. The client
      reports the second as a gap and applies the first, so the second is lost on it. */
  lemma {:induction false} ReversedPair(s: Sess, e: View, e2: View, w: View, d: Delta, d2: Delta, r: Room, c: Client)
    requires Hands(s, d) && s.held.None? && InStep(c, s.co)
    requires var t := Flush(s, e, Faults(false, true, false), r);
      w.epoch == s.co.epoch && Hands(t.(co := OnWindow(t.co, w.epoch, w.updateID, w.book)), d2)
    ensures var n, t := |s.log|, Flush(s, e, Faults(false, true, false), r);
            var u := Flush(t.(co := OnWindow(t.co, w.epoch, w.updateID, w.book)), e2, Faults(false, false, false),
                           Room(true, true, true));
      && t.log == s.log && t.held.Some? && u.held.None?
      && |u.log| == n + 2 && u.log[..n] == s.log && u.log[n].msg == DeltaMsg(d2) && u.log[n + 1].msg == DeltaMsg(d)
    ensures d2.first == d.last + 1
    ensures Receive(Receive(c, DeltaMsg(d2), Documented), DeltaMsg(d), Documented)
            == c.(gaps := c.gaps + 1, applied := d.last, book := PatchBook(c.book, d.book))
  {
  }

  // ----- a frame that finds no room, and a new epoch

  /** The client has just read `e`, and the server takes it to hold nothing. */
  predicate Restarted(s: Sess, t: Sess, e: View, c: Client) {
    && |t.log| == |s.log| + 1 && t.log[..|s.log|] == s.log
    && !t.co.needsSnapshot && t.co.epoch == e.epoch && t.co.clientApplied == e.updateID
    && Receive(c, t.log[|s.log|].msg, Documented)
       == c.(epoch := e.epoch, applied := e.updateID, book := VisibleBook(e.book))
  }

  /** A book delta that finds no room is not dropped: the client is given the engine's book
      instead, whatever state it was in. */
  lemma {:induction false} LostDeltaRestarts(s: Sess, e: View, d: Delta, duplicate: bool, second: bool, c: Client)
    requires Hands(s, d) && s.held.None?
    ensures var t := Flush(s, e, Faults(false, false, duplicate), Room(false, second, true));
      Restarted(s, t, e, c) && t.co.sent == EMPTY_BOOK && t.held.None?
  {
  }

  /** A subscription is answered with the engine's book too; to another market with nothing
      assumed of the client, to the same one as if the newest window had been sent. A held
      delta stays held. */
  lemma {:induction false} SubscribingRestarts(s: Sess, e: View, c: Client)
    ensures Restarted(s, Ship(s, e, true), e, c) && Ship(s, e, true).co.sent == s.co.window
    ensures Restarted(s, Rebind(s, e, true), e, c) && Rebind(s, e, true).co.sent == EMPTY_BOOK
    ensures Restarted(s, Resync(s, e, true), e, c) && Resync(s, e, true).co.sent == EMPTY_BOOK
    ensures Ship(s, e, true).held == Rebind(s, e, true).held == Resync(s, e, true).held == s.held
  {
  }

  /** A window of another epoch is answered with the engine's book at once, and one of the same
      epoch with nothing. */
  lemma {:induction false} NewEpochRestarts(s: Sess, e: View, w: View, c: Client)
    requires !s.co.needsSnapshot
    ensures var t := WindowEvent(s, e, w, true);
      if w.epoch != s.co.epoch then Restarted(s, t, e, c) && t.co.sent == w.book else t.log == s.log
  {
  }
}
