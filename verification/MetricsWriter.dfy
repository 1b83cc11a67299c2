/**
 metrics/writer.go: the single writer that batches the queue into transactions.

 Producers push while the writer works. `Traffic` stands for their pushes at the points
 where the writer is about to take the queue's lock; whether there are any is a parameter.
 */
module MetricsWriter {
  import opened Domain
  import opened MetricsFlow
  import opened MetricsPace
  import opened MetricsQueue

  const DEFAULT_BATCH := 128

  /** The store; a write succeeds or fails as a whole. How each attempt went is kept. */
  class Repository {
    ghost var log: seq<Batch>
    ghost var attempts: seq<bool>

    constructor ()
      ensures log == [] && attempts == []
    {
      log, attempts := [], [];
    }

    method WriteBatch(b: Batch) returns (ok: bool)
      modifies this
      ensures log == if ok then old(log) + [b] else old(log)
      ensures attempts == old(attempts) + [ok]
    {
      ok := *;
      attempts := attempts + [ok];
      if ok {
        log := log + [b];
      }
    }
  }

  // ----- what the attempts decide

  /** The batches settled so far, committed or dropped, and whether a retry is due. */
  datatype Ledger = Ledger(settled: seq<bool>, due: bool)

  /** A first success settles a batch; after a first failure the second attempt does. */
  function Replay(attempts: seq<bool>): Ledger {
    if attempts == [] then Ledger([], false)
    else
      var l, ok := Replay(attempts[..|attempts| - 1]), attempts[|attempts| - 1];
      if l.due || ok then Ledger(l.settled + [ok], false) else Ledger(l.settled, true)
  }

  lemma {:induction false} ReplayOneMore(attempts: seq<bool>, ok: bool)
    ensures var l := Replay(attempts);
      Replay(attempts + [ok]) == if l.due || ok then Ledger(l.settled + [ok], false) else Ledger(l.settled, true)
  {
    assert (attempts + [ok])[..|attempts|] == attempts;
  }

  /** Two refusals in a row, from some attempt on. */
  ghost predicate RefusedTwice(attempts: seq<bool>, from: nat) {
    exists i :: from <= i < |attempts| - 1 && !attempts[i] && !attempts[i + 1]
  }

  lemma {:induction false} RefusedOneMore(attempts: seq<bool>, ok: bool, from: nat)
    requires from <= |attempts|
    ensures RefusedTwice(attempts + [ok], from)
            <==> RefusedTwice(attempts, from) || (|attempts| > from && !attempts[|attempts| - 1] && !ok)
  {
    var more, n := attempts + [ok], |attempts| - 1;
    if RefusedTwice(attempts, from) {
      var i :| from <= i < n && !attempts[i] && !attempts[i + 1];
      assert !more[i] && !more[i + 1];
    }
    if |attempts| > from && !attempts[n] && !ok {
      assert !more[n] && !more[n + 1];
    }
  }

  /** Since `l` a batch was dropped exactly if the store refused twice in a row; `last` is the
      last answer, if there was `any`. */
  ghost predicate Tallies(l: Ledger, now: Ledger, refused: bool, any: bool, last: bool) {
    && l.settled <= now.settled && (AnyFailed(now.settled, |l.settled|) <==> refused)
    && (any && !last ==> now.due || refused) && (now.due ==> any && !last)
  }

  lemma {:induction false} TallyOneMore(l: Ledger, m: Ledger, refused: bool, any: bool, last: bool, ok: bool)
    requires Tallies(l, m, refused, any, last)
    ensures var now := if m.due || ok then Ledger(m.settled + [ok], false) else Ledger(m.settled, true);
      Tallies(l, now, refused || (any && !last && !ok), true, ok)
  {
    OneMoreCommitted(m.settled, |l.settled|, ok);
  }

  /** From a moment when no retry is due. */
  lemma {:induction false} DropsAreRefusals(before: seq<bool>, tries: seq<bool>)
    requires !Replay(before).due
    ensures Tallies(Replay(before), Replay(before + tries), RefusedTwice(before + tries, |before|),
                    tries != [], tries != [] && tries[|tries| - 1])
  {
    if tries == [] {
      assert before + tries == before;
    } else {
      var n := |tries| - 1;
      var most, ok := before + tries[..n], tries[n];
      assert before + tries == most + [ok];
      DropsAreRefusals(before, tries[..n]);
      TallyOneMore(Replay(before), Replay(most), RefusedTwice(most, |before|), n > 0, n > 0 && tries[n - 1], ok);
      ReplayOneMore(most, ok);
      RefusedOneMore(most, ok, |before|);
    }
  }

  /** What became of the batches is what the store answered; without a store none was kept and
      none was tried. */
  ghost predicate Answered(configured: bool, committed: seq<bool>, attempts: seq<bool>) {
    if configured then Replay(attempts) == Ledger(committed, false)
    else attempts == [] && forall i :: 0 <= i < |committed| ==> !committed[i]
  }

  /** One batch: with a store one attempt, and a second exactly if the first fails. */
  ghost predicate Tried(configured: bool, ok: bool, before: seq<bool>, after: seq<bool>) {
    if !configured then !ok && after == before
    else (ok && after == before + [true]) || after == before + [false] + [ok]
  }

  lemma {:induction false} AnsweredOneMore(configured: bool, committed: seq<bool>, before: seq<bool>, ok: bool,
                                           after: seq<bool>)
    requires Answered(configured, committed, before) && Tried(configured, ok, before, after)
    ensures Answered(configured, committed + [ok], after)
  {
    ReplayOneMore(before, true);
    ReplayOneMore(before, false);
    ReplayOneMore(before + [false], ok);
  }

  /** Over any stretch of the writer's work: with a store, a batch was dropped exactly if two
      attempts in a row were refused; without one, exactly if there was a batch. */
  lemma {:induction false} FailuresExactly(configured: bool, was: seq<bool>, now: seq<bool>, before: seq<bool>,
                                           after: seq<bool>)
    requires Answered(configured, was, before) && Answered(configured, now, after) && was <= now && before <= after
    ensures AnyFailed(now, |was|) <==> if configured then RefusedTwice(after, |before|) else |now| > |was|
  {
    if configured {
      assert after == before + after[|before|..];
      DropsAreRefusals(before, after[|before|..]);
    } else if |now| > |was| {
      assert !now[|was|];
    }
  }

  ghost function Records(pushed: seq<Record>, ids: seq<nat>): seq<Record>
    requires forall i :: 0 <= i < |ids| ==> ids[i] < |pushed|
  {
    seq(|ids|, i requires 0 <= i < |ids| => pushed[ids[i]])
  }

  ghost predicate Known(pushed: seq<Record>, batches: seq<seq<nat>>) {
    forall b, i :: 0 <= b < |batches| && 0 <= i < |batches[b]| ==> batches[b][i] < |pushed|
  }

  /** What the store holds: every batch that was committed, once, in order. */
  ghost function Stored(pushed: seq<Record>, batches: seq<seq<nat>>, committed: seq<bool>): seq<Batch>
    requires |committed| == |batches| && Known(pushed, batches)
  {
    if batches == [] then []
    else
      var n := |batches| - 1;
      Stored(pushed, batches[..n], committed[..n])
      + if committed[n] then [BatchOf(Records(pushed, batches[n]))] else []
  }

  lemma {:induction false} StoredStays(pushed: seq<Record>, more: seq<Record>, batches: seq<seq<nat>>,
                                       committed: seq<bool>)
    requires |committed| == |batches| && Known(pushed, batches) && pushed <= more
    ensures Known(more, batches) && Stored(more, batches, committed) == Stored(pushed, batches, committed)
  {
    if batches != [] {
      var n := |batches| - 1;
      StoredStays(pushed, more, batches[..n], committed[..n]);
      assert Records(more, batches[n]) == Records(pushed, batches[n]);
    }
  }

  lemma {:induction false} StoredAppend(pushed: seq<Record>, batches: seq<seq<nat>>, committed: seq<bool>,
                                        batch: seq<nat>, ok: bool)
    requires |committed| == |batches| && Known(pushed, batches)
    requires forall i :: 0 <= i < |batch| ==> batch[i] < |pushed|
    ensures Known(pushed, batches + [batch])
    ensures Stored(pushed, batches + [batch], committed + [ok])
         == Stored(pushed, batches, committed) + if ok then [BatchOf(Records(pushed, batch))] else []
  {
    assert (batches + [batch])[..|batches|] == batches && (committed + [ok])[..|batches|] == committed;
  }

  /** The batches themselves, in order. */
  ghost function BatchesOf(pushed: seq<Record>, batches: seq<seq<nat>>): seq<Batch>
    requires Known(pushed, batches)
  {
    seq(|batches|, b requires 0 <= b < |batches| => BatchOf(Records(pushed, batches[b])))
  }

  lemma {:induction false} KnownBefore(pushed: seq<Record>, was: seq<seq<nat>>, more: seq<seq<nat>>, batch: seq<nat>)
    requires Known(pushed, was) && Known(pushed, more + [batch])
    ensures Known(pushed, more) && Known(pushed, was + more)
    ensures forall i :: 0 <= i < |batch| ==> batch[i] < |pushed|
  {
    var all := more + [batch];
    assert all[|more|] == batch;
    assert forall b :: 0 <= b < |more| ==> all[b] == more[b];
  }

  function AllKept(n: nat): seq<bool> {
    if n == 0 then [] else AllKept(n - 1) + [true]
  }

  /** If every batch cut since was committed, the store has grown by all of them. */
  lemma {:induction false} StoredGrows(pushed: seq<Record>, was: seq<seq<nat>>, committed: seq<bool>,
                                       more: seq<seq<nat>>, kept: seq<bool>)
    requires |committed| == |was| && |kept| == |more| && kept == AllKept(|more|)
    requires Known(pushed, was) && Known(pushed, more) && Known(pushed, was + more)
    ensures Stored(pushed, was + more, committed + kept) == Stored(pushed, was, committed) + BatchesOf(pushed, more)
  {
    if more == [] {
      assert was + more == was && committed + kept == committed;
    } else {
      var n := |more| - 1;
      var before, batch, most := more[..n], more[n], AllKept(n);
      assert more == before + [batch] && |kept| == n + 1 && kept == most + [true];
      KnownBefore(pushed, was, before, batch);
      StoredGrows(pushed, was, committed, before, most);
      StoredGrowsOne(pushed, was, committed, before, most, batch);
    }
  }

  lemma {:induction false} NoneFailedIsAllKept(was: seq<bool>, kept: seq<bool>)
    requires !AnyFailed(was + kept, |was|)
    ensures kept == AllKept(|kept|)
  {
    if kept != [] {
      var n := |kept| - 1;
      var all := was + kept;
      assert all[|was| + n] && all[..|was| + n] == was + kept[..n];
      assert forall i :: 0 <= i < |was| + n ==> all[..|was| + n][i] == all[i];
      NoneFailedIsAllKept(was, kept[..n]);
      assert kept == kept[..n] + [true];
    }
  }

  lemma {:induction false} StoredGrowsOne(pushed: seq<Record>, was: seq<seq<nat>>, committed: seq<bool>,
                                          more: seq<seq<nat>>, kept: seq<bool>, batch: seq<nat>)
    requires |committed| == |was| && |kept| == |more| && forall i :: 0 <= i < |batch| ==> batch[i] < |pushed|
    requires Known(pushed, was) && Known(pushed, more) && Known(pushed, was + more)
    requires Known(pushed, more + [batch]) && Known(pushed, was + (more + [batch]))
    requires Stored(pushed, was + more, committed + kept) == Stored(pushed, was, committed) + BatchesOf(pushed, more)
    ensures Stored(pushed, was + (more + [batch]), committed + (kept + [true]))
            == Stored(pushed, was, committed) + BatchesOf(pushed, more + [batch])
  {
    StoredAppend(pushed, was + more, committed + kept, batch, true);
    BatchesOneMore(pushed, more, batch);
    assert was + (more + [batch]) == (was + more) + [batch];
    assert committed + (kept + [true]) == (committed + kept) + [true];
  }

  lemma {:induction false} BatchesOneMore(pushed: seq<Record>, more: seq<seq<nat>>, batch: seq<nat>)
    requires Known(pushed, more) && Known(pushed, more + [batch])
    requires forall i :: 0 <= i < |batch| ==> batch[i] < |pushed|
    ensures BatchesOf(pushed, more + [batch]) == BatchesOf(pushed, more) + [BatchOf(Records(pushed, batch))]
  {
  }

  /** What a stretch of work from `a` to `b` has done to the store. */
  ghost predicate Kept(configured: bool, a: Snapshot, b: Snapshot, failed: bool, log: seq<Batch>, log': seq<Batch>) {
    && (failed <==> if configured then RefusedTwice(b.attempts, |a.attempts|) else |b.flow.batches| > |a.flow.batches|)
    && a.flow.batches <= b.flow.batches && Known(b.pushed, b.flow.batches[|a.flow.batches|..])
    && (!failed ==> log' == log + BatchesOf(b.pushed, b.flow.batches[|a.flow.batches|..]))
  }

  /** The log is what was stored, and the flags are what the store answered. */
  ghost predicate Told(configured: bool, s: Snapshot, log: seq<Batch>) {
    && |s.committed| == |s.flow.batches| && Known(s.pushed, s.flow.batches)
    && log == Stored(s.pushed, s.flow.batches, s.committed) && Answered(configured, s.committed, s.attempts)
  }

  lemma {:induction false} DrainedKeeps(configured: bool, a: Snapshot, b: Snapshot, failed: bool, all: bool,
                                        quiet: bool, log: seq<Batch>, log': seq<Batch>)
    requires Told(configured, a, log) && Told(configured, b, log') && Drained(a, b, failed, all, quiet)
    ensures Kept(configured, a, b, failed, log, log')
  {
    FailuresExactly(configured, a.committed, b.committed, a.attempts, b.attempts);
    var more, kept := b.flow.batches[|a.flow.batches|..], b.committed[|a.committed|..];
    assert b.flow.batches == a.flow.batches + more && b.committed == a.committed + kept;
    assert Known(b.pushed, more);
    if !failed {
      NoneFailedIsAllKept(a.committed, kept);
      StoredStays(a.pushed, b.pushed, a.flow.batches, a.committed);
      StoredGrows(b.pushed, a.flow.batches, a.committed, more, kept);
    }
  }

  /** With a store that takes every write, nothing is reported and every batch cut is in it;
      without a store everything cut is reported and the store is not touched. */
  lemma {:induction false} WillingStoreKeepsAll(configured: bool, a: Snapshot, b: Snapshot, failed: bool,
                                                log: seq<Batch>, log': seq<Batch>)
    requires Told(configured, a, log) && Told(configured, b, log') && Kept(configured, a, b, failed, log, log')
    ensures configured && (forall i :: |a.attempts| <= i < |b.attempts| ==> b.attempts[i]) ==>
      !failed && log' == log + BatchesOf(b.pushed, b.flow.batches[|a.flow.batches|..])
    ensures !configured ==> b.attempts == [] && (failed <==> |b.flow.batches| > |a.flow.batches|)
  {
  }

  /** One more batch, tried and committed or dropped. */
  lemma {:induction false} ToldOneMore(configured: bool, pushed: seq<Record>, batches: seq<seq<nat>>,
                                       committed: seq<bool>, ids: seq<nat>, ok: bool, before: seq<bool>,
                                       after: seq<bool>)
    requires |committed| == |batches| && Known(pushed, batches) && forall i :: 0 <= i < |ids| ==> ids[i] < |pushed|
    requires Answered(configured, committed, before) && Tried(configured, ok, before, after)
    ensures Known(pushed, batches + [ids]) && Answered(configured, committed + [ok], after) && before <= after
    ensures Stored(pushed, batches + [ids], committed + [ok])
         == Stored(pushed, batches, committed) + if ok then [BatchOf(Records(pushed, ids))] else []
  {
    AnsweredOneMore(configured, committed, before, ok, after);
    StoredAppend(pushed, batches, committed, ids, ok);
  }

  class BatchWriter {
    const queue: RecordQueue
    const repository: Repository
    const configured: bool           // whether the writer has a repository at all
    const batchSize: nat
    var pending: seq<Record>

    ghost var pendingIds: seq<nat>
    ghost var batches: seq<seq<nat>>
    ghost var committed: seq<bool>

    ghost function Flow(): MetricsFlow.Flow
      reads this, queue
    {
      MetricsFlow.Flow(|queue.pushed|, queue.evicted, queue.queued, pendingIds, batches)
    }

    ghost predicate Valid()
      reads this, queue, queue.buf, repository
    {
      && queue.Valid() && batchSize > 0
      && (forall i :: 0 <= i < |pendingIds| ==> pendingIds[i] < |queue.pushed|)
      && pending == Records(queue.pushed, pendingIds)
      && |committed| == |batches| && Known(queue.pushed, batches)
      && repository.log == Stored(queue.pushed, batches, committed)
      && Answered(configured, committed, repository.attempts)
    }

    /** Every record is somewhere, once, and in order. */
    ghost predicate Accounted()
      reads this, queue
    {
      Conserved(Flow())
    }

    constructor (queue: RecordQueue, repository: Repository, configured: bool, batchSize: int)
      requires queue.Valid() && queue.pushed == [] && queue.evicted == [] && queue.queued == []
      requires repository.log == [] && repository.attempts == []
      ensures Valid() && this.queue == queue && this.repository == repository && this.configured == configured
      ensures this.batchSize == if batchSize <= 0 then DEFAULT_BATCH else batchSize
      ensures Flow() == EMPTY_FLOW
    {
      this.queue, this.repository, this.configured := queue, repository, configured;
      this.batchSize := if batchSize <= 0 then DEFAULT_BATCH else batchSize;
      pending, pendingIds, batches, committed := [], [], [], [];
    }

    /** Pushes by other goroutines. */
    method Traffic(quiet: bool)
      requires Valid() && Accounted()
      modifies queue, queue.buf
      ensures Valid() && Accounted()
      ensures old(queue.pushed) <= queue.pushed && old(queue.evicted) <= queue.evicted
      ensures quiet ==> queue.pushed == old(queue.pushed) && queue.evicted == old(queue.evicted)
      ensures quiet ==> queue.queued == old(queue.queued)
      ensures Head(Flow()) >= Head(old(Flow()))
    {
      if quiet {
        return;
      }
      var n: nat :| true;
      for i := 0 to n
        invariant Valid() && Accounted()
        invariant old(queue.pushed) <= queue.pushed && old(queue.evicted) <= queue.evicted
        invariant Head(Flow()) >= Head(old(Flow()))
      {
        var kind: Kind, row: int := *, *;
        PushKeeps(Flow(), queue.buf.Length);
        Arrival(Row(kind, row));
      }
    }

    /** One push, seen from the writer. */
    method Arrival(r: Record)
      requires Valid() && r.Row?
      modifies queue, queue.buf
      ensures Valid() && Flow() == Pushed(old(Flow()), queue.buf.Length) && queue.pushed == old(queue.pushed) + [r]
    {
      ghost var was := queue.pushed;
      StoredStays(was, was + [r], batches, committed);
      var _ := queue.Push(r);
      assert Records(queue.pushed, pendingIds) == Records(was, pendingIds);
    }

    method Pull() returns (n: nat)
      requires Valid()
      modifies this`pending, this`pendingIds, queue`head, queue`count, queue`queued, queue.buf
      ensures Valid() && n == Min(MAX_DRAIN, |old(queue.queued)|)
      ensures Flow() == Pulled(old(Flow()), MAX_DRAIN)
    {
      ghost var ids := queue.queued;
      var records := queue.Drain(MAX_DRAIN);
      ghost var taken := ids[..|records|];
      assert forall i :: 0 <= i < |taken| ==> taken[i] == ids[i];
      pending := pending + records;
      pendingIds := pendingIds + taken;
      return |records|;
    }

    method TakePending(n: nat) returns (batch: Batch, ghost ids: seq<nat>)
      requires Valid() && 0 < n <= |pending|
      modifies this`pending, this`pendingIds
      ensures ids == old(pendingIds)[..n] && pendingIds == old(pendingIds)[n..]
      ensures pending == old(pending)[n..] == Records(queue.pushed, pendingIds)
      ensures batch == BatchOf(Records(queue.pushed, ids)) && batch.Len() == n
    {
      ids := pendingIds[..n];
      assert pending[..n] == Records(queue.pushed, ids);
      BatchCounts(pending[..n]);
      batch := ToBatch(pending[..n]);
      pending := pending[n..];
      pendingIds := pendingIds[n..];
    }

    /** One retry, then the batch is dropped; without a store nothing is tried. */
    method Commit(batch: Batch) returns (ok: bool)
      modifies repository
      ensures repository.log == if ok then old(repository.log) + [batch] else old(repository.log)
      ensures Tried(configured, ok, old(repository.attempts), repository.attempts)
    {
      if !configured {
        return false;
      }
      ok := repository.WriteBatch(batch);
      if ok {
        return;
      }
      ok := repository.WriteBatch(batch);
    }

    /** One batch off the front of the pending records, committed or dropped. */
    method CommitFirst(n: nat) returns (ok: bool, rows: nat)
      requires Valid() && 0 < n <= |pending|
      modifies this`pending, this`pendingIds, this`batches, this`committed, repository
      ensures Valid() && rows == n
      ensures Flow() == Cut(old(Flow()), n) && committed == old(committed) + [ok]
      ensures old(repository.attempts) <= repository.attempts
    {
      ghost var cut := Cut(Flow(), n);
      var batch, ids := TakePending(n);
      rows := batch.Len();
      ghost var before := repository.attempts;
      ok := Commit(batch);
      ToldOneMore(configured, queue.pushed, batches, committed, ids, ok, before, repository.attempts);
      batches, committed := batches + [ids], committed + [ok];
      assert Flow() == cut;
    }

    /** A pull while producers push. */
    method PullAmid(quiet: bool) returns (n: nat)
      requires Valid() && Accounted()
      modifies this`pending, this`pendingIds, queue, queue.buf
      ensures Valid() && Accounted()
      ensures old(queue.pushed) <= queue.pushed && old(queue.evicted) <= queue.evicted
      ensures quiet ==> queue.pushed == old(queue.pushed) && queue.evicted == old(queue.evicted)
      ensures quiet ==> |queue.queued| == |old(queue.queued)| - Min(MAX_DRAIN, |old(queue.queued)|)
      ensures n <= MAX_DRAIN && (n < MAX_DRAIN ==> queue.queued == [])
      ensures Head(Flow()) >= Head(old(Flow())) + n && |pending| == |old(pending)| + n
    {
      Traffic(quiet);
      WriterKeeps(Flow(), MAX_DRAIN);
      n := Pull();
    }

    /** One full batch. */
    method CommitBatch() returns (ok: bool, rows: nat)
      requires Valid() && |pending| >= batchSize
      modifies this`pending, this`pendingIds, this`batches, this`committed, repository
      ensures Valid() && rows == batchSize && |pending| == |old(pending)| - batchSize
      ensures Rest(|pending|, batchSize) == Rest(|old(pending)|, batchSize)
      ensures Batched(old(Flow()), Flow()) && committed == old(committed) + [ok]
      ensures old(repository.attempts) <= repository.attempts
    {
      WriterKeepsLine(Flow(), batchSize);
      ok, rows := CommitFirst(batchSize);
    }

    /** Full batches while there are any. */
    method CommitFull() returns (failed: bool, rows: nat)
      requires Valid()
      modifies this`pending, this`pendingIds, this`batches, this`committed, repository
      ensures Valid() && |pending| == Rest(|old(pending)|, batchSize) && rows == Whole(|old(pending)|, batchSize)
      ensures Batched(old(Flow()), Flow()) && old(committed) <= committed
      ensures old(repository.attempts) <= repository.attempts
      ensures failed == AnyFailed(committed, |old(committed)|)
    {
      failed, rows := false, 0;
      while |pending| >= batchSize
        invariant Valid() && rows + |pending| == |old(pending)|
        invariant Rest(|pending|, batchSize) == Rest(|old(pending)|, batchSize)
        invariant Batched(old(Flow()), Flow()) && old(committed) <= committed
        invariant old(repository.attempts) <= repository.attempts
        invariant failed == AnyFailed(committed, |old(committed)|)
        decreases |pending|
      {
        ghost var before := committed;
        var ok, n := CommitBatch();
        OneMoreCommitted(before, |old(committed)|, ok);
        failed := failed || !ok;
        rows := rows + n;
      }
    }

    ghost function Now(): Snapshot
      reads this, queue, repository
    {
      Snapshot(Flow(), queue.pushed, committed, repository.attempts)
    }

    /** One iteration of drain's loop; `more` says that it went on. */
    method DrainRound(all: bool, quiet: bool) returns (failed: bool, rows: nat, ghost pulled: nat, more: bool)
      requires Valid() && Accounted()
      modifies this, queue, queue.buf, repository
      ensures Valid() && Accounted()
      ensures Drained(old(Now()), Now(), failed, all, quiet)
      ensures rows == Whole(|old(pending)|, batchSize) && |pending| == Rest(|old(pending)|, batchSize) + pulled
      ensures all ==> Round(old(Flow()), Flow(), batchSize, rows, pulled, quiet)
      ensures more <==> all && pulled > 0
    {
      ghost var before := Now();
      failed, rows := CommitFull();
      ghost var cut := Now();
      BatchedConserves(before.flow, cut.flow);
      pulled, more := PullIf(all, quiet);
      RoundDone(before, cut, Now(), failed, all, quiet, batchSize, rows, pulled);
    }

    method PullIf(all: bool, quiet: bool) returns (ghost pulled: nat, more: bool)
      requires Valid() && Accounted() && |pending| < batchSize
      modifies this`pending, this`pendingIds, queue, queue.buf
      ensures Valid() && Accounted()
      ensures if all then PulledAmid(old(Now()), Now(), quiet, pulled) else Now() == old(Now()) && pulled == 0
      ensures more <==> all && pulled > 0
    {
      if !all {
        return 0, false;
      }
      var n := PullAmid(quiet);
      return n, !(n == 0 && |pending| < batchSize);
    }

    /** The remainder is committed as one batch, however long. */
    method CommitRest() returns (failed: bool)
      requires Valid() && Accounted()
      modifies this`pending, this`pendingIds, this`batches, this`committed, repository
      ensures Valid() && Accounted() && pending == []
      ensures Batched(old(Flow()), Flow()) && old(committed) <= committed
      ensures old(repository.attempts) <= repository.attempts
      ensures failed == AnyFailed(committed, |old(committed)|)
    {
      failed := false;
      if |pending| > 0 {
        WriterKeepsLine(Flow(), |pending|);
        WriterKeeps(Flow(), |pending|);
        ghost var before := committed;
        var ok, _ := CommitFirst(|pending|);
        assert committed[|before|] == ok;
        failed := !ok;
      }
    }

    /** An iteration after `looks` others since `start`, with its look at the context. */
    method NextRound(all: bool, quiet: bool, patience: Option<nat>, soFar: bool, looks: nat, before: nat,
                     ghost start: Snapshot)
      returns (failed: bool, written: nat, more: bool)
      requires Valid() && Accounted() && before < MAX_DRAIN
      requires Underway(start, Now(), soFar, all, quiet, batchSize, patience, looks, before, true)
      modifies this, queue, queue.buf, repository
      ensures Valid() && Accounted()
      ensures Underway(start, Now(), failed, all, quiet, batchSize, patience, looks + 1, written, more)
      ensures more ==> Budget(written, |pending|, batchSize) < Budget(before, |old(pending)|, batchSize)
    {
      ghost var was, oldPending := Now(), |pending|;
      var rows;
      ghost var pulled;
      failed, rows, pulled, more := DrainRound(all, quiet);
      written := before + rows;
      if more && Cancelled(patience, looks + 1) {
        written := MAX_DRAIN;
      }
      BudgetShrinks(before, rows, oldPending, |pending|, pulled, batchSize);
      RoundFollows(start, was, Now(), soFar, failed, all, quiet, batchSize, patience, looks, before,
                   rows, pulled, written);
      failed := soFar || failed;
    }

    /** Whatever the producers and the context do, it ends, with nothing pending; and asked for
        everything, as far into the queue as `Rounds` says. A failure is reported exactly if the
        store refused twice in a row; if it never did, every batch that was cut is in it. */
    method Drain(all: bool, quiet: bool, patience: Option<nat>) returns (failed: bool)
      requires Valid() && Accounted()
      modifies this, queue, queue.buf, repository
      ensures Valid() && Accounted() && pending == []
      ensures Drained(old(Now()), Now(), failed, all, quiet)
      ensures all ==> Finished(old(Flow()), Flow(), Rounds(|old(pending)|, batchSize, patience), quiet)
      ensures Kept(configured, old(Now()), Now(), failed, old(repository.log), repository.log)
    {
      ghost var start, log := Now(), repository.log;
      failed := DrainOut(all, quiet, patience);
      DrainedKeeps(configured, start, Now(), failed, all, quiet, log, repository.log);
    }

    /** The body of drain: its loop, then the rest. */
    method DrainOut(all: bool, quiet: bool, patience: Option<nat>) returns (failed: bool)
      requires Valid() && Accounted()
      modifies this, queue, queue.buf, repository
      ensures Valid() && Accounted() && pending == []
      ensures Drained(old(Now()), Now(), failed, all, quiet)
      ensures all ==> Finished(old(Flow()), Flow(), Rounds(|old(pending)|, batchSize, patience), quiet)
    {
      ghost var start := Now();
      var looks, written, more;
      failed, looks, written, more := DrainFull(all, quiet, patience);
      ghost var before := Now();
      UnderwayEnds(start, before, failed, all, quiet, batchSize, patience, looks, written, more);
      var some := CommitRest();
      DrainedRest(start, before, Now(), failed, some, all, quiet);
      failed := failed || some;
    }

    /** The loop of drain. The context is looked at once a round. */
    method DrainFull(all: bool, quiet: bool, patience: Option<nat>)
      returns (failed: bool, looks: nat, written: nat, more: bool)
      requires Valid() && Accounted()
      modifies this, queue, queue.buf, repository
      ensures Valid() && Accounted() && !(more && written < MAX_DRAIN)
      ensures Underway(old(Now()), Now(), failed, all, quiet, batchSize, patience, looks, written, more)
    {
      failed, written, looks, more := false, 0, 0, true;
      ghost var start := Now();
      AtTheStart(start, all, quiet, batchSize, patience);
      while more && written < MAX_DRAIN
        invariant Valid() && Accounted()
        invariant Underway(start, Now(), failed, all, quiet, batchSize, patience, looks, written, more)
        decreases more, Budget(written, |pending|, batchSize)
      {
        failed, written, more := NextRound(all, quiet, patience, failed, looks, written, start);
        looks := looks + 1;
      }
    }
  }

  lemma {:induction false} AtTheStart(a: Snapshot, all: bool, quiet: bool, batchSize: nat, patience: Option<nat>)
    requires batchSize > 0
    ensures Underway(a, a, false, all, quiet, batchSize, patience, 0, 0, true)
  {
  }

  lemma {:induction false} UnderwayEnds(a: Snapshot, b: Snapshot, failed: bool, all: bool, quiet: bool, batchSize: nat,
                                        patience: Option<nat>, looks: nat, written: nat, more: bool)
    requires batchSize > 0 && !(more && written < MAX_DRAIN)
    requires Underway(a, b, failed, all, quiet, batchSize, patience, looks, written, more)
    ensures Ended(a, b, failed, all, quiet, batchSize, patience)
  {
  }

  /** Bounds the iterations of drain: each one that goes on has taken something from the
      queue, and what it took counts toward the limit once it is written. */
  function Budget(written: nat, pending: nat, batchSize: nat): nat {
    if written >= MAX_DRAIN then 0
    else if written + pending >= MAX_DRAIN + batchSize then 1
    else 1 + MAX_DRAIN + batchSize - written - pending
  }

  ghost predicate AnyFailed(committed: seq<bool>, from: nat) {
    exists i :: from <= i < |committed| && !committed[i]
  }

  datatype Snapshot = Snapshot(flow: Flow, pushed: seq<Record>, committed: seq<bool>, attempts: seq<bool>)

  /** What a drain does to the writer and the queue between `a` and `b`: records, losses and
      batches only accumulate; a failure is reported exactly when one of its batches was
      dropped; with no producers nothing arrives or is evicted; and the queue is left alone
      unless everything was asked for. */
  ghost predicate Drained(a: Snapshot, b: Snapshot, failed: bool, all: bool, quiet: bool) {
    && a.flow.pushed <= b.flow.pushed && a.flow.evicted <= b.flow.evicted && a.flow.batches <= b.flow.batches
    && a.committed <= b.committed && failed == AnyFailed(b.committed, |a.committed|)
    && a.attempts <= b.attempts && a.pushed <= b.pushed
    && (quiet ==> b.pushed == a.pushed && b.flow.evicted == a.flow.evicted)
    && (!all ==> b.flow.queued == a.flow.queued)
  }

  ghost predicate Ended(a: Snapshot, b: Snapshot, failed: bool, all: bool, quiet: bool, batchSize: nat,
                        patience: Option<nat>)
    requires batchSize > 0
  {
    && Drained(a, b, failed, all, quiet)
    && (all ==> Finished(a.flow, b.flow, Rounds(|a.flow.pending|, batchSize, patience), quiet))
  }

  /** After `looks` rounds, of which the last said whether there are `more`. */
  ghost predicate Underway(a: Snapshot, b: Snapshot, failed: bool, all: bool, quiet: bool, batchSize: nat,
                           patience: Option<nat>, looks: nat, written: nat, more: bool)
    requires batchSize > 0
  {
    && Drained(a, b, failed, all, quiet)
    && (all ==>
          if more && written < MAX_DRAIN then Continuing(a.flow, b.flow, batchSize, patience, quiet, looks, written)
          else Finished(a.flow, b.flow, Rounds(|a.flow.pending|, batchSize, patience), quiet))
  }

  /** A round is its batches and, asked for everything, a pull amid the producers' pushes. */
  lemma {:induction false} RoundDone(a: Snapshot, b: Snapshot, c: Snapshot, failed: bool, all: bool, quiet: bool,
                                     batchSize: nat, rows: nat, pulled: nat)
    requires batchSize > 0 && Batched(a.flow, b.flow) && b.pushed == a.pushed && a.committed <= b.committed
    requires a.attempts <= b.attempts && failed == AnyFailed(b.committed, |a.committed|)
    requires rows == Whole(|a.flow.pending|, batchSize) && |b.flow.pending| == Rest(|a.flow.pending|, batchSize)
    requires if all then PulledAmid(b, c, quiet, pulled) else c == b && pulled == 0
    ensures Drained(a, c, failed, all, quiet)
    ensures all ==> Round(a.flow, c.flow, batchSize, rows, pulled, quiet)
  {
  }

  ghost predicate PulledAmid(b: Snapshot, c: Snapshot, quiet: bool, n: nat) {
    && c.committed == b.committed && c.attempts == b.attempts && c.flow.batches == b.flow.batches
    && b.pushed <= c.pushed && b.flow.pushed <= c.flow.pushed && b.flow.evicted <= c.flow.evicted
    && (quiet ==> c.pushed == b.pushed && c.flow.pushed == b.flow.pushed && c.flow.evicted == b.flow.evicted)
    && (quiet ==> |c.flow.queued| == |b.flow.queued| - Min(MAX_DRAIN, |b.flow.queued|))
    && n <= MAX_DRAIN && (n < MAX_DRAIN ==> c.flow.queued == [])
    && Head(c.flow) >= Head(b.flow) + n && |c.flow.pending| == |b.flow.pending| + n
  }

  lemma {:induction false} DrainedTwice(a: Snapshot, b: Snapshot, c: Snapshot, f1: bool, f2: bool, all: bool,
                                        quiet: bool)
    requires Drained(a, b, f1, all, quiet) && Drained(b, c, f2, all, quiet)
    ensures Drained(a, c, f1 || f2, all, quiet)
  {
    FailedEither(a.committed, b.committed, c.committed);
  }

  /** One more round, and its look at the context. */
  lemma {:induction false} RoundFollows(a: Snapshot, b: Snapshot, c: Snapshot, f1: bool, f2: bool, all: bool,
                                        quiet: bool, batchSize: nat, patience: Option<nat>, looks: nat,
                                        before: nat, rows: nat, pulled: nat, written: nat)
    requires batchSize > 0 && before < MAX_DRAIN
    requires Underway(a, b, f1, all, quiet, batchSize, patience, looks, before, true)
    requires Drained(b, c, f2, all, quiet) && (all ==> Round(b.flow, c.flow, batchSize, rows, pulled, quiet))
    requires all && pulled > 0 ==> written == if Cancelled(patience, looks + 1) then MAX_DRAIN else before + rows
    ensures Underway(a, c, f1 || f2, all, quiet, batchSize, patience, looks + 1, written, all && pulled > 0)
  {
    if all {
      RoundEnds(a.flow, b.flow, c.flow, batchSize, patience, quiet, looks, before, rows, pulled);
    }
    DrainedTwice(a, b, c, f1, f2, all, quiet);
  }

  lemma {:induction false} BudgetShrinks(before: nat, rows: nat, pending: nat, pending': nat, pulled: nat,
                                         batchSize: nat)
    requires batchSize > 0 && before < MAX_DRAIN
    requires rows == Whole(pending, batchSize) && pending' == Rest(pending, batchSize) + pulled
    ensures pulled > 0 ==> Budget(before + rows, pending', batchSize) < Budget(before, pending, batchSize)
    ensures Budget(MAX_DRAIN, pending', batchSize) < Budget(before, pending, batchSize)
  {
  }

  lemma {:induction false} DrainedRest(a: Snapshot, b: Snapshot, c: Snapshot, f1: bool, f2: bool, all: bool,
                                       quiet: bool)
    requires Drained(a, b, f1, all, quiet)
    requires Batched(b.flow, c.flow) && c.pushed == b.pushed && b.committed <= c.committed && b.attempts <= c.attempts
             && f2 == AnyFailed(c.committed, |b.committed|)
    ensures Drained(a, c, f1 || f2, all, quiet)
  {
    FailedEither(a.committed, b.committed, c.committed);
  }

  lemma {:induction false} OneMoreCommitted(committed: seq<bool>, from: nat, ok: bool)
    requires from <= |committed|
    ensures AnyFailed(committed + [ok], from) <==> AnyFailed(committed, from) || !ok
  {
    var more := committed + [ok];
    assert more[|committed|] == ok && forall i :: 0 <= i < |committed| ==> more[i] == committed[i];
  }

  lemma {:induction false} FailedEither(a: seq<bool>, b: seq<bool>, c: seq<bool>)
    requires a <= b <= c
    ensures AnyFailed(c, |a|) <==> AnyFailed(b, |a|) || AnyFailed(c, |b|)
  {
    if AnyFailed(b, |a|) {
      var i :| |a| <= i < |b| && !b[i];
      assert !c[i];
    }
    if AnyFailed(c, |a|) && !AnyFailed(c, |b|) {
      var i :| |a| <= i < |c| && !c[i];
      assert !b[i];
    }
  }

  /** The contract of Flush, whatever the producers do meanwhile and whatever the capacity: if
      no more was queued at the call than the drain's rounds can pull, every record that had
      arrived was evicted or is in a batch, in exactly one of the two and once. */
  lemma {:induction false} FlushHandlesEverything(a: Flow, b: Flow, k: nat, quiet: bool, id: nat)
    requires Conserved(b) && b.pending == [] && Finished(a, b, k, quiet)
    requires |a.queued| <= MAX_DRAIN * k && id < a.pushed
    ensures id in b.evicted
            <==> !exists i, j :: 0 <= i < |b.batches| && 0 <= j < |b.batches[i]| && b.batches[i][j] == id
  {
    GoneIsTaken(a, b);
    assert Taken(b) == Flat(b.batches);
    if id in Flat(b.batches) {
      var i, j := FromFlat(b.batches, id);
      assert id in Line(b);
    }
    if i, j :| 0 <= i < |b.batches| && 0 <= j < |b.batches[i]| && b.batches[i][j] == id {
      var k := InFlat(b.batches, i, j);
      assert id in Line(b);
    }
  }

  lemma {:induction false} FromFlat(batches: seq<seq<nat>>, id: nat) returns (i: nat, j: nat)
    requires id in Flat(batches)
    ensures i < |batches| && j < |batches[i]| && batches[i][j] == id
  {
    var n := |batches| - 1;
    if id in batches[n] {
      i := n;
      j :| 0 <= j < |batches[n]| && batches[n][j] == id;
    } else {
      i, j := FromFlat(batches[..n], id);
    }
  }

  /** The writer cut batches; nothing else happened. */
  ghost predicate Batched(f: Flow, g: Flow) {
    g.pushed == f.pushed && g.evicted == f.evicted && g.queued == f.queued && Taken(g) == Taken(f)
        && f.batches <= g.batches
  }

  lemma {:induction false} BatchedConserves(f: Flow, g: Flow)
    requires Conserved(f) && Batched(f, g)
    ensures Conserved(g) && Line(g) == Line(f)
  {
  }
}
