/**
 How far a drain gets (metrics/writer.go): its loop pulls at most 10000 records a round and
 stops once it has written as many, or once it finds its context cancelled.
 */
module MetricsPace {
  import opened Domain
  import opened MetricsFlow

  const MAX_DRAIN := 10000

  /** What is left of `x` records when all full batches have gone. */
  function Rest(x: nat, batchSize: nat): (r: nat)
    requires batchSize > 0
    ensures r < batchSize && r <= x
  {
    if x < batchSize then x else Rest(x - batchSize, batchSize)
  }

  /** The records of `x` that fill whole batches. */
  function Whole(x: nat, batchSize: nat): nat
    requires batchSize > 0
  {
    x - Rest(x, batchSize)
  }

  lemma {:induction false} RestIsRemainder(x: nat, batchSize: nat)
    requires batchSize > 0
    ensures Rest(x, batchSize) == x % batchSize && Whole(x, batchSize) == batchSize * (x / batchSize)
  {
    if x < batchSize {
      ModUnique(x, batchSize, 0, x);
    } else {
      var y := x - batchSize;
      RestIsRemainder(y, batchSize);
      OneMore(y / batchSize, batchSize);
      ModUnique(x, batchSize, y / batchSize + 1, y % batchSize);
    }
  }

  lemma {:induction false} RestAdd(s: nat, c: nat, batchSize: nat)
    requires batchSize > 0
    ensures Rest(Rest(s, batchSize) + c, batchSize) == Rest(s + c, batchSize)
  {
    if s >= batchSize {
      RestAdd(s - batchSize, c, batchSize);
    }
  }

  /** What has been written when round `j` has cut its batches, if every pull before it was
      full. */
  function WrittenBy(pending: nat, batchSize: nat, j: nat): nat
    requires batchSize > 0 && j >= 1
  {
    Whole(pending + MAX_DRAIN * (j - 1), batchSize)
  }

  /** The context survives the first `patience` looks at it, or all of them. */
  predicate Cancelled(patience: Option<nat>, j: nat) {
    patience.Some? && j > patience.value
  }

  predicate Stops(pending: nat, batchSize: nat, patience: Option<nat>, j: nat)
    requires batchSize > 0 && j >= 1
  {
    Cancelled(patience, j) || WrittenBy(pending, batchSize, j) >= MAX_DRAIN
  }

  /** The first round from `j` on after which the drain stops. */
  function RoundsFrom(pending: nat, batchSize: nat, patience: Option<nat>, j: nat): (k: nat)
    requires batchSize > 0 && j >= 1
    ensures k >= j && Stops(pending, batchSize, patience, k)
    ensures forall i :: j <= i < k ==> !Stops(pending, batchSize, patience, i)
    decreases if pending + MAX_DRAIN * (j - 1) >= MAX_DRAIN + batchSize then 0
              else 1 + MAX_DRAIN + batchSize - pending - MAX_DRAIN * (j - 1)
  {
    if Stops(pending, batchSize, patience, j) then j else RoundsFrom(pending, batchSize, patience, j + 1)
  }

  function Rounds(pending: nat, batchSize: nat, patience: Option<nat>): (k: nat)
    requires batchSize > 0
    ensures k >= 1
  {
    RoundsFrom(pending, batchSize, patience, 1)
  }

  /** The arrival number at the front of the queue. */
  function Head(f: Flow): int {
    f.pushed - |f.queued|
  }

  /** Everything that had arrived in `a` has left the queue in `f`. */
  predicate Gone(a: Flow, f: Flow) {
    Head(f) >= a.pushed
  }

  /** One round: whole batches go, and up to a full pull arrives; a pull that is not full
      leaves the queue empty. */
  predicate Round(f0: Flow, f1: Flow, batchSize: nat, rows: nat, pulled: nat, quiet: bool)
    requires batchSize > 0
  {
    && f0.pushed <= f1.pushed && pulled <= MAX_DRAIN && (pulled < MAX_DRAIN ==> f1.queued == [])
    && rows == Whole(|f0.pending|, batchSize) && |f1.pending| == Rest(|f0.pending|, batchSize) + pulled
    && Head(f1) >= Head(f0) + pulled
    && (quiet ==> f1.pushed == f0.pushed && |f1.queued| == |f0.queued| - Min(MAX_DRAIN, |f0.queued|))
  }

  /** After `j` rounds since `a`: either all that had arrived is gone, or every pull was full. */
  predicate InPace(a: Flow, f: Flow, batchSize: nat, j: nat, written: nat)
    requires batchSize > 0
  {
    Gone(a, f) ||
    (&& written + |f.pending| == |a.pending| + MAX_DRAIN * j
     && Rest(|f.pending|, batchSize) == Rest(|a.pending| + MAX_DRAIN * j, batchSize)
     && Head(f) >= Head(a) + MAX_DRAIN * j)
  }

  predicate QuietAt(a: Flow, f: Flow, j: nat) {
    f.pushed == a.pushed && |f.queued| == |a.queued| - Min(MAX_DRAIN * j, |a.queued|)
  }

  /** Where a drain that stops after `k` full pulls leaves the queue. */
  predicate Finished(a: Flow, f: Flow, k: nat, quiet: bool) {
    && (|a.queued| <= MAX_DRAIN * k ==> Gone(a, f))
    && (quiet ==> QuietAt(a, f, k))
  }

  predicate Continuing(a: Flow, f: Flow, batchSize: nat, patience: Option<nat>, quiet: bool, j: nat, written: nat)
    requires batchSize > 0
  {
    var k := Rounds(|a.pending|, batchSize, patience);
    && a.pushed <= f.pushed && InPace(a, f, batchSize, j, written)
    && (Gone(a, f) || k == RoundsFrom(|a.pending|, batchSize, patience, j + 1))
    && (quiet ==> QuietAt(a, f, j) && (Gone(a, f) ==> |a.queued| <= MAX_DRAIN * k))
  }

  lemma {:induction false} PaceStep(a: Flow, f0: Flow, f1: Flow, batchSize: nat, j: nat, written: nat, rows: nat,
                                    pulled: nat, quiet: bool)
    requires batchSize > 0 && a.pushed <= f0.pushed
    requires InPace(a, f0, batchSize, j, written) && Round(f0, f1, batchSize, rows, pulled, quiet)
    ensures InPace(a, f1, batchSize, j + 1, written + rows)
    ensures Gone(a, f0) || written + rows == WrittenBy(|a.pending|, batchSize, j + 1)
  {
    if !Gone(a, f0) {
      RestAdd(|a.pending| + MAX_DRAIN * j, MAX_DRAIN, batchSize);
    }
  }

  lemma {:induction false} QuietStep(a: Flow, f0: Flow, f1: Flow, j: nat)
    requires QuietAt(a, f0, j) && f1.pushed == f0.pushed
    requires |f1.queued| == |f0.queued| - Min(MAX_DRAIN, |f0.queued|)
    ensures QuietAt(a, f1, j + 1)
    ensures f1.queued == [] ==> |a.queued| <= MAX_DRAIN * (j + 1)
  {
  }

  /** After one more round the drain goes on in pace, or it is finished as `Rounds` says. */
  lemma {:induction false} RoundEnds(a: Flow, f0: Flow, f1: Flow, batchSize: nat, patience: Option<nat>, quiet: bool,
                                     j: nat, written: nat, rows: nat, pulled: nat)
    requires batchSize > 0 && Continuing(a, f0, batchSize, patience, quiet, j, written)
    requires Round(f0, f1, batchSize, rows, pulled, quiet)
    ensures if pulled == 0 || written + rows >= MAX_DRAIN || Cancelled(patience, j + 1)
            then Finished(a, f1, Rounds(|a.pending|, batchSize, patience), quiet)
            else Continuing(a, f1, batchSize, patience, quiet, j + 1, written + rows)
  {
    PaceStep(a, f0, f1, batchSize, j, written, rows, pulled, quiet);
    if quiet {
      QuietStep(a, f0, f1, j);
    }
  }

  // ----- what that means for a caller

  /** The rounds are the first that stop, and there is always one. */
  lemma {:induction false} RoundsIsLeast(pending: nat, batchSize: nat, patience: Option<nat>, k: nat)
    requires batchSize > 0 && k >= 1
    ensures k == Rounds(pending, batchSize, patience)
            <==> && Stops(pending, batchSize, patience, k)
                 && forall j :: 1 <= j < k ==> !Stops(pending, batchSize, patience, j)
  {
    var r := Rounds(pending, batchSize, patience);
    assert k < r ==> !Stops(pending, batchSize, patience, k);
  }

  /** A context cancelled before the first look leaves one pull. */
  lemma {:induction false} CancelledPullsOnce(pending: nat, batchSize: nat)
    requires batchSize > 0
    ensures Rounds(pending, batchSize, Some(0)) == 1
  {
  }

  /** Records that left the queue were evicted or taken. */
  lemma {:induction false} GoneIsTaken(a: Flow, f: Flow)
    requires Conserved(f) && Gone(a, f)
    ensures forall id: nat :: id < a.pushed ==> id in f.evicted || id in Taken(f)
  {
    forall id: nat | id < a.pushed ensures id in f.evicted || id in Taken(f) {
      assert id in f.evicted || id in Line(f);
      assert id !in f.queued;
    }
  }

  /** With no producers, a drain handles everything that had arrived if and only if no more
      was queued than its rounds can pull; otherwise the queue keeps exactly the rest. */
  lemma {:induction false} QuietDrainExactly(a: Flow, f: Flow, k: nat)
    requires Conserved(a) && Conserved(f) && f.pending == [] && Finished(a, f, k, true)
    ensures f.queued == a.queued[Min(MAX_DRAIN * k, |a.queued|)..]
    ensures |a.queued| <= MAX_DRAIN * k
            <==> forall id: nat :: id < a.pushed ==> id in f.evicted || id in Flat(f.batches)
  {
    assert Taken(f) == Flat(f.batches);
    if |a.queued| <= MAX_DRAIN * k {
      GoneIsTaken(a, f);
    } else {
      var id := f.queued[0];
      QueuedIsNotTaken(f);
      assert id < a.pushed;
    }
  }

  lemma {:induction false} QueuedIsNotTaken(f: Flow)
    requires Conserved(f) && f.queued != []
    ensures f.queued[0] < f.pushed && f.queued[0] !in f.evicted && f.queued[0] !in Taken(f)
  {
    var n := |Taken(f)|;
    assert Line(f)[n] == f.queued[0];
    assert f.queued[0] in Line(f);
    forall i | 0 <= i < n ensures Taken(f)[i] != f.queued[0] {
      assert Line(f)[i] == Taken(f)[i];
    }
  }

  /** A queue the configuration accepts, drained by a live context with the default batches:
      three pulls, and 10000 records that had arrived are left. Half of it is emptied. */
  lemma {:induction false} LargeQueueIsLeftBehind(a: Flow, f: Flow)
    requires a.pending == [] && Finished(a, f, Rounds(0, 128, None), true)
    ensures |a.queued| == 40000 ==> |f.queued| == 10000
    ensures |a.queued| == 20000 ==> |f.queued| == 0
  {
    ThreeRounds(0, 128);
  }

  lemma {:induction false} ThreeRounds(pending: nat, batchSize: nat)
    requires pending == 0 && batchSize == 128
    ensures Rounds(pending, batchSize, None) == 3
  {
    RestIsRemainder(MAX_DRAIN, batchSize);
    RestIsRemainder(MAX_DRAIN * 2, batchSize);
    assert !Stops(pending, batchSize, None, 1);
    assert !Stops(pending, batchSize, None, 2);
    assert Stops(pending, batchSize, None, 3);
    RoundsIsLeast(pending, batchSize, None, 3);
  }
}
