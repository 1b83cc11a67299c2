/**
 The path of a metric record (metrics/queue.go, metrics/writer.go) as a step system over
 arrival numbers. Producers push at any time; the writer pulls the queue into its pending
 list and cuts batches off the front of it.
 */
module MetricsFlow {

  /** Where the first `pushed` records are. */
  datatype Flow = Flow(pushed: nat, evicted: seq<nat>, queued: seq<nat>, pending: seq<nat>, batches: seq<seq<nat>>)

  const EMPTY_FLOW := Flow(0, [], [], [], [])

  /** A full queue gives up its oldest record for the new one. */
  function Pushed(f: Flow, capacity: nat): Flow
    requires capacity > 0
  {
    var evicts := |f.queued| >= capacity;
    f.(pushed := f.pushed + 1,
       evicted := if evicts then f.evicted + [f.queued[0]] else f.evicted,
       queued := (if evicts then f.queued[1..] else f.queued) + [f.pushed])
  }

  function Min(a: int, b: int): int {
    if a < b then a else b
  }

  function Pulled(f: Flow, max: nat): Flow {
    var n := Min(max, |f.queued|);
    f.(pending := f.pending + f.queued[..n], queued := f.queued[n..])
  }

  function Cut(f: Flow, n: nat): Flow {
    var k := Min(n, |f.pending|);
    f.(batches := f.batches + [f.pending[..k]], pending := f.pending[k..])
  }

  function Flat(batches: seq<seq<nat>>): seq<nat> {
    if batches == [] then [] else Flat(batches[..|batches| - 1]) + batches[|batches| - 1]
  }

  /** What has left the queue for good, in the order it goes to the store. */
  function Taken(f: Flow): seq<nat> {
    Flat(f.batches) + f.pending
  }

  /** Everything not evicted, in the order it goes to the store. */
  function Line(f: Flow): seq<nat> {
    Taken(f) + f.queued
  }

  ghost predicate Increasing(s: seq<nat>) {
    forall i, j :: 0 <= i < j < |s| ==> s[i] < s[j]
  }

  /** Every record is in exactly one place, once, and what is not evicted is in the order of
      arrival: batch after batch, then pending, then queue. */
  ghost predicate Conserved(f: Flow) {
    && Increasing(Line(f)) && Increasing(f.evicted)
    && (forall id :: id in f.evicted ==> id < f.pushed && id !in Line(f))
    && (forall id :: id in Line(f) ==> id < f.pushed)
    && (forall id: nat :: id < f.pushed ==> id in f.evicted || id in Line(f))
    && |f.evicted| + |Line(f)| == f.pushed
    // the queue holds the newest arrivals
    && |f.queued| <= f.pushed && forall i :: 0 <= i < |f.queued| ==> f.queued[i] == f.pushed - |f.queued| + i
  }

  lemma {:induction false} FlatAppend(batches: seq<seq<nat>>, batch: seq<nat>)
    ensures Flat(batches + [batch]) == Flat(batches) + batch
  {
    assert (batches + [batch])[..|batches|] == batches;
  }

  lemma {:induction false} PullKeepsLine(f: Flow, n: nat)
    ensures Taken(Pulled(f, n)) == Taken(f) + f.queued[..Min(n, |f.queued|)]
    ensures Line(Pulled(f, n)) == Line(f)
  {
    var m := Min(n, |f.queued|);
    var flat := Flat(f.batches);
    assert flat + (f.pending + f.queued[..m]) == (flat + f.pending) + f.queued[..m];
    SplitLine(flat + f.pending, f.queued, m);
  }

  lemma {:induction false} SplitLine(a: seq<nat>, b: seq<nat>, m: nat)
    requires m <= |b|
    ensures (a + b[..m]) + b[m..] == a + b
  {
    assert b[..m] + b[m..] == b;
  }

  lemma {:induction false} CutKeepsLine(f: Flow, n: nat)
    ensures Taken(Cut(f, n)) == Taken(f)
  {
    var k := Min(n, |f.pending|);
    FlatAppend(f.batches, f.pending[..k]);
    SplitLine(Flat(f.batches), f.pending, k);
  }

  /** The writer's own steps move records along the line and nothing else. */
  lemma {:induction false} WriterKeepsLine(f: Flow, n: nat)
    ensures Line(Pulled(f, n)) == Line(f) == Line(Cut(f, n))
    ensures Taken(f) <= Taken(Pulled(f, n)) && Taken(Cut(f, n)) == Taken(f)
  {
    PullKeepsLine(f, n);
    CutKeepsLine(f, n);
  }

  /** Taking one element out of an increasing list and adding a greater one at the end. */
  lemma {:induction false} ReplaceOldest(a: seq<nat>, x: nat, b: seq<nat>, last: nat)
    requires Increasing(a + [x] + b) && forall id :: id in a + [x] + b ==> id < last
    ensures Increasing(a + b + [last])
    ensures forall id :: id in a + b + [last] <==> id == last || (id in a + [x] + b && id != x)
  {
    var was, now := a + [x] + b, a + b + [last];
    assert was[|a|] == x;
    forall i | 0 <= i < |a + b| ensures now[i] == was[if i < |a| then i else i + 1] && now[i] != x {
    }
    forall id | id in was && id != x ensures id in now {
      assert id in a || id in b;
    }
    forall id | id in now && id != last ensures id in was && id != x {
      var i :| 0 <= i < |now| && now[i] == id;
      assert i < |a + b|;
    }
    forall i, j | 0 <= i < j < |now| ensures now[i] < now[j] {
      assert now[i] in was;
      if j == |a + b| {
        assert now[j] == last;
      }
    }
  }

  lemma {:induction false} AppendIncreasing(s: seq<nat>, x: nat)
    requires Increasing(s) && forall i :: 0 <= i < |s| ==> s[i] < x
    ensures Increasing(s + [x])
  {
  }

  /** A record no longer on the line is older than the whole queue. */
  lemma {:induction false} NewestQueued(f: Flow, id: nat)
    requires Conserved(f) && id < f.pushed && id !in Line(f) && f.queued != []
    ensures id < f.queued[0]
  {
    forall k: nat | f.queued[0] <= k < f.pushed ensures k in Line(f) {
      assert f.queued[k - f.queued[0]] == k;
    }
  }

  /** The line after an eviction: the oldest queued record gone, the new one at the end. */
  lemma {:induction false} EvictLine(f: Flow, capacity: nat)
    requires capacity > 0 && Conserved(f) && |f.queued| >= capacity
    ensures var g, x := Pushed(f, capacity), f.queued[0];
      && Increasing(Line(g)) && |Line(g)| == |Line(f)| && x in Line(f)
      && forall id :: id in Line(g) <==> id == f.pushed || (id in Line(f) && id != x)
  {
    var g := Pushed(f, capacity);
    var x, rest := f.queued[0], f.queued[1..];
    assert f.queued == [x] + rest;
    assert Line(f) == Taken(f) + [x] + rest;
    assert Line(g) == Taken(f) + rest + [f.pushed];
    ReplaceOldest(Taken(f), x, rest, f.pushed);
    assert Line(f)[|Taken(f)|] == x;
  }

  lemma {:induction false} EvictedGrow(f: Flow)
    requires Conserved(f) && f.queued != []
    ensures Increasing(f.evicted + [f.queued[0]])
  {
    forall i | 0 <= i < |f.evicted| ensures f.evicted[i] < f.queued[0] {
      assert f.evicted[i] in f.evicted;
      NewestQueued(f, f.evicted[i]);
    }
    AppendIncreasing(f.evicted, f.queued[0]);
  }

  lemma {:induction false} EvictKeeps(f: Flow, capacity: nat)
    requires capacity > 0 && Conserved(f) && |f.queued| >= capacity
    ensures Conserved(Pushed(f, capacity))
  {
    var g, x := Pushed(f, capacity), f.queued[0];
    EvictLine(f, capacity);
    EvictedGrow(f);
    assert forall id :: id in g.evicted <==> id in f.evicted || id == x;
    forall id: nat | id < g.pushed ensures id in g.evicted || id in Line(g) {
      assert id < f.pushed ==> id in f.evicted || id in Line(f);
    }
  }

  lemma {:induction false} PushKeeps(f: Flow, capacity: nat)
    requires capacity > 0 && Conserved(f)
    ensures Conserved(Pushed(f, capacity))
  {
    if |f.queued| >= capacity {
      EvictKeeps(f, capacity);
    } else {
      var g := Pushed(f, capacity);
      assert Line(g) == Line(f) + [f.pushed];
      assert forall i :: 0 <= i < |Line(f)| ==> Line(f)[i] in Line(f);
      AppendIncreasing(Line(f), f.pushed);
      forall id: nat | id < g.pushed ensures id in g.evicted || id in Line(g) {
        assert id < f.pushed ==> id in f.evicted || id in Line(f);
      }
    }
  }

  lemma {:induction false} WriterKeeps(f: Flow, n: nat)
    requires Conserved(f)
    ensures Conserved(Pulled(f, n)) && Conserved(Cut(f, n))
  {
    WriterKeepsLine(f, n);
  }

  // ----- runs

  datatype Step = Push | Pull(max: nat) | Take(n: nat)

  function Next(f: Flow, s: Step, capacity: nat): Flow
    requires capacity > 0
  {
    match s
    case Push => Pushed(f, capacity)
    case Pull(max) => Pulled(f, max)
    case Take(n) => Cut(f, n)
  }

  function Run(steps: seq<Step>, capacity: nat): Flow
    requires capacity > 0
  {
    if steps == [] then EMPTY_FLOW else Next(Run(steps[..|steps| - 1], capacity), steps[|steps| - 1], capacity)
  }

  /** Over every interleaving of producers and the writer, nothing is lost without being
      evicted, nothing is stored twice, and the order of arrival is kept. */
  lemma {:induction false} RunConserves(steps: seq<Step>, capacity: nat)
    requires capacity > 0
    ensures Conserved(Run(steps, capacity)) && |Run(steps, capacity).queued| <= capacity
  {
    if steps != [] {
      var before := steps[..|steps| - 1];
      RunConserves(before, capacity);
      match steps[|steps| - 1]
      case Push => PushKeeps(Run(before, capacity), capacity);
      case Pull(max) => WriterKeeps(Run(before, capacity), max);
      case Take(n) => WriterKeeps(Run(before, capacity), n);
    }
  }

  /** The record that arrives is never the one dropped: only the oldest queued record is, and
      only when the queue is full. */
  lemma {:induction false} DropsOldest(f: Flow, capacity: nat)
    requires capacity > 0 && Conserved(f)
    ensures var g := Pushed(f, capacity);
      && f.pushed in g.queued
      && (g.evicted != f.evicted <==> |f.queued| >= capacity)
      && (g.evicted != f.evicted ==>
            g.evicted == f.evicted + [f.queued[0]] && forall id :: id in g.queued ==> f.queued[0] < id)
  {
    var g := Pushed(f, capacity);
    assert g.queued[|g.queued| - 1] == f.pushed;
    PushKeeps(f, capacity);
    assert |f.queued| >= capacity ==> |g.evicted| == |f.evicted| + 1;
  }

  lemma {:induction false} InFlat(batches: seq<seq<nat>>, b: nat, x: nat) returns (i: nat)
    requires b < |batches| && x < |batches[b]|
    ensures i < |Flat(batches)| && Flat(batches)[i] == batches[b][x]
    ensures |Flat(batches[..b])| <= i < |Flat(batches[..b])| + |batches[b]|
    decreases |batches|
  {
    var n := |batches| - 1;
    if b < n {
      i := InFlat(batches[..n], b, x);
      assert batches[..n][..b] == batches[..b];
    } else {
      i := |Flat(batches[..n])| + x;
    }
  }

  lemma {:induction false} FlatPrefix(batches: seq<seq<nat>>, b: nat)
    requires b < |batches|
    ensures |Flat(batches[..b])| + |batches[b]| <= |Flat(batches)|
    ensures forall c :: b < c < |batches| ==> |Flat(batches[..b])| + |batches[b]| <= |Flat(batches[..c])|
  {
    var n := |batches| - 1;
    if b < n {
      FlatPrefix(batches[..n], b);
      assert batches[..n][..b] == batches[..b];
      assert forall c :: 0 <= c <= n ==> batches[..n][..c] == batches[..c];
    }
  }

  /** A record never reaches the store in a later transaction than one that arrived after
      it: a session's row is there before the samples that refer to it. */
  lemma {:induction false} EarlierNeverLater(f: Flow, a: nat, x: nat, b: nat, y: nat)
    requires Conserved(f) && a < |f.batches| && b < |f.batches| && x < |f.batches[a]| && y < |f.batches[b]|
    requires f.batches[a][x] < f.batches[b][y]
    ensures a <= b && (a == b ==> x < y)
  {
    var i := InFlat(f.batches, a, x);
    var j := InFlat(f.batches, b, y);
    assert Line(f)[i] == f.batches[a][x] && Line(f)[j] == f.batches[b][y];
    if a > b {
      FlatPrefix(f.batches, b);
    }
    if a == b && x > y {
      SameBatch(f, a, y, x);
    }
  }

  lemma {:induction false} SameBatch(f: Flow, a: nat, x: nat, y: nat)
    requires Conserved(f) && a < |f.batches| && x < y < |f.batches[a]|
    ensures f.batches[a][x] < f.batches[a][y]
  {
    var n := |Flat(f.batches[..a])|;
    BatchAt(f.batches, a);
    assert Flat(f.batches)[n..n + |f.batches[a]|] == f.batches[a];
    assert Line(f)[n + x] == f.batches[a][x] && Line(f)[n + y] == f.batches[a][y];
  }

  lemma {:induction false} BatchAt(batches: seq<seq<nat>>, a: nat)
    requires a < |batches|
    ensures var n := |Flat(batches[..a])|;
      n + |batches[a]| <= |Flat(batches)| && Flat(batches)[n..n + |batches[a]|] == batches[a]
  {
    var last := |batches| - 1;
    if a < last {
      BatchAt(batches[..last], a);
      assert batches[..last][..a] == batches[..a];
      var n := |Flat(batches[..a])|;
      assert Flat(batches)[n..n + |batches[a]|] == Flat(batches[..last])[n..n + |batches[a]|];
    }
  }
}
