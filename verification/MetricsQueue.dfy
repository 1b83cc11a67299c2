/**
 metrics/queue.go: the bounded drop-oldest ring, and the sorting of a run of records into
 the rows of one transaction.
 */
module MetricsQueue {
  import opened Domain
  import opened MetricsFlow

  datatype Kind = Latency | Health | Tier | Delivery | BookSync | Protocol | Session | Engine | CandleClose | Fault

  /** One queued metric. The source's record has one pointer set; a cleared slot has none. */
  datatype Record = Blank | Row(kind: Kind, row: int)

  datatype Batch = Batch(
    latency: seq<int>, health: seq<int>, tiers: seq<int>, delivery: seq<int>, bookEvents: seq<int>,
    protocol: seq<int>, sessions: seq<int>, engineEvents: seq<int>, candleCloses: seq<int>, faults: seq<int>)
  {
    function Len(): nat {
      |latency| + |health| + |tiers| + |delivery| + |bookEvents|
      + |protocol| + |sessions| + |engineEvents| + |candleCloses| + |faults|
    }
  }

  /** The rows of one kind, in order. */
  function RowsOf(records: seq<Record>, kind: Kind): seq<int> {
    if records == [] then []
    else
      var r := records[|records| - 1];
      RowsOf(records[..|records| - 1], kind) + if r.Row? && r.kind == kind then [r.row] else []
  }

  /** Every table gets the rows of its kind in order. */
  function BatchOf(records: seq<Record>): Batch {
    Batch(RowsOf(records, Latency), RowsOf(records, Health), RowsOf(records, Tier), RowsOf(records, Delivery),
          RowsOf(records, BookSync), RowsOf(records, Protocol), RowsOf(records, Session), RowsOf(records, Engine),
          RowsOf(records, CandleClose), RowsOf(records, Fault))
  }

  ghost predicate AllRows(records: seq<Record>) {
    forall i :: 0 <= i < |records| ==> records[i].Row?
  }

  /** No record is lost or filed twice. */
  lemma {:induction false} BatchCounts(records: seq<Record>)
    requires AllRows(records)
    ensures BatchOf(records).Len() == |records|
  {
    if records != [] {
      BatchCounts(records[..|records| - 1]);
    }
  }

  /** The table of each kind of record. */
  function TableOf(b: Batch, kind: Kind): seq<int> {
    match kind
    case Latency => b.latency
    case Health => b.health
    case Tier => b.tiers
    case Delivery => b.delivery
    case BookSync => b.bookEvents
    case Protocol => b.protocol
    case Session => b.sessions
    case Engine => b.engineEvents
    case CandleClose => b.candleCloses
    case Fault => b.faults
  }

  /** How many of the first `n` records are of one kind. */
  function Earlier(records: seq<Record>, n: nat, kind: Kind): nat
    requires n <= |records|
  {
    if n == 0 then 0
    else Earlier(records, n - 1, kind) + if records[n - 1].Row? && records[n - 1].kind == kind then 1 else 0
  }

  lemma {:induction false} RowsOfPrefix(records: seq<Record>, n: nat, kind: Kind)
    requires n <= |records|
    ensures |RowsOf(records[..n], kind)| == Earlier(records, n, kind)
    ensures RowsOf(records[..n], kind) <= RowsOf(records, kind)
    decreases |records|
  {
    var last := |records| - 1;
    if n <= last {
      RowsOfPrefix(records[..last], n, kind);
      assert records[..last][..n] == records[..n];
      EarlierOfPrefix(records, last, n, kind);
    } else {
      assert records[..n] == records;
      if n > 0 {
        RowsOfPrefix(records[..last], last, kind);
        assert records[..last][..last] == records[..last];
        EarlierOfPrefix(records, last, last, kind);
      }
    }
  }

  lemma {:induction false} EarlierOfPrefix(records: seq<Record>, m: nat, n: nat, kind: Kind)
    requires n <= m <= |records|
    ensures Earlier(records[..m], n, kind) == Earlier(records, n, kind)
  {
    if n > 0 {
      EarlierOfPrefix(records, m, n - 1, kind);
    }
  }

  /** Every record is in the table of its own kind, behind the earlier ones of that kind; and
      each table holds as many rows as there are records of its kind. */
  lemma {:induction false} RowIsFiled(records: seq<Record>, i: nat)
    requires i < |records| && records[i].Row?
    ensures var table, k := TableOf(BatchOf(records), records[i].kind), Earlier(records, i, records[i].kind);
      k < |table| == Earlier(records, |records|, records[i].kind) && table[k] == records[i].row
  {
    var kind := records[i].kind;
    RowsOfPrefix(records, i, kind);
    RowsOfPrefix(records, i + 1, kind);
    RowsOfPrefix(records, |records|, kind);
    assert records[..i + 1][..i] == records[..i];
    assert records[..|records|] == records;
    assert TableOf(BatchOf(records), kind) == RowsOf(records, kind);
  }

  lemma {:induction false} AppendRow(records: seq<Record>, r: Record, kind: Kind)
    ensures RowsOf(records + [r], kind) == RowsOf(records, kind) + if r.Row? && r.kind == kind then [r.row] else []
  {
    assert (records + [r])[..|records|] == records;
  }

  /** The switch of toBatch. */
  function Filed(b: Batch, r: Record): Batch {
    match r
    case Blank => b
    case Row(Latency, row) => b.(latency := b.latency + [row])
    case Row(Health, row) => b.(health := b.health + [row])
    case Row(Tier, row) => b.(tiers := b.tiers + [row])
    case Row(Delivery, row) => b.(delivery := b.delivery + [row])
    case Row(BookSync, row) => b.(bookEvents := b.bookEvents + [row])
    case Row(Protocol, row) => b.(protocol := b.protocol + [row])
    case Row(Session, row) => b.(sessions := b.sessions + [row])
    case Row(Engine, row) => b.(engineEvents := b.engineEvents + [row])
    case Row(CandleClose, row) => b.(candleCloses := b.candleCloses + [row])
    case Row(Fault, row) => b.(faults := b.faults + [row])
  }

  lemma {:induction false} FiledIsBatched(records: seq<Record>, r: Record)
    ensures BatchOf(records + [r]) == Filed(BatchOf(records), r)
  {
    AppendRow(records, r, Latency);
    AppendRow(records, r, Health);
    AppendRow(records, r, Tier);
    AppendRow(records, r, Delivery);
    AppendRow(records, r, BookSync);
    AppendRow(records, r, Protocol);
    AppendRow(records, r, Session);
    AppendRow(records, r, Engine);
    AppendRow(records, r, CandleClose);
    AppendRow(records, r, Fault);
  }

  method ToBatch(records: seq<Record>) returns (b: Batch)
    ensures b == BatchOf(records)
  {
    b := Batch([], [], [], [], [], [], [], [], [], []);
    for i := 0 to |records|
      invariant b == BatchOf(records[..i])
    {
      assert records[..i + 1] == records[..i] + [records[i]];
      FiledIsBatched(records[..i], records[i]);
      b := Filed(b, records[i]);
    }
    assert records[..|records|] == records;
  }

  // ----- the ring

  /** Where the `i`-th queued record sits. */
  function Place(head: nat, i: nat, n: nat): nat
    requires n > 0
  {
    (head + i) % n
  }

  lemma {:induction false} PlaceIs(head: nat, i: nat, n: nat)
    requires head < n && i <= n
    ensures Place(head, i, n) == if head + i < n then head + i else head + i - n
  {
    if head + i < n {
      ModUnique(head + i, n, 0, head + i);
    } else if head + i < 2 * n {
      ModUnique(head + i, n, 1, head + i - n);
    }
  }

  /** The ring holds the queued records from `head` on, and nothing else. */
  ghost predicate Holds(ring: seq<Record>, head: nat, queued: seq<nat>, pushed: seq<Record>) {
    && head < |ring| && |queued| <= |ring|
    && (forall i :: 0 <= i < |queued| ==> queued[i] < |pushed| && ring[Place(head, i, |ring|)] == pushed[queued[i]])
    && (forall i :: |queued| <= i < |ring| ==> ring[Place(head, i, |ring|)] == Blank)
  }

  lemma {:induction false} NextPlace(head: nat, i: nat, n: nat)
    requires head < n && i < n
    ensures Place((head + 1) % n, i, n) == Place(head, if i < n - 1 then i + 1 else 0, n)
    ensures Place(head, i, n) == head <==> i == 0
  {
    PlaceIs(head, 0, n);
    PlaceIs(head, 1, n);
    PlaceIs((head + 1) % n, i, n);
    PlaceIs(head, if i < n - 1 then i + 1 else 0, n);
    PlaceIs(head, i, n);
  }

  lemma {:induction false} DropHolds(ring: seq<Record>, head: nat, queued: seq<nat>, pushed: seq<Record>)
    requires Holds(ring, head, queued, pushed) && queued != []
    ensures Holds(ring[head := Blank], (head + 1) % |ring|, queued[1..], pushed)
  {
    var n, q := |ring|, queued[1..];
    var next := (head + 1) % n;
    forall i | 0 <= i < n
      ensures ring[head := Blank][Place(next, i, n)] == if i < |q| then pushed[q[i]] else Blank
    {
      NextPlace(head, i, n);
      NextPlace(head, if i < n - 1 then i + 1 else 0, n);
    }
  }

  lemma {:induction false} PutHolds(ring: seq<Record>, head: nat, queued: seq<nat>, pushed: seq<Record>, r: Record)
    requires Holds(ring, head, queued, pushed) && |queued| < |ring|
    ensures Holds(ring[Place(head, |queued|, |ring|) := r], head, queued + [|pushed|], pushed + [r])
  {
    var n, at := |ring|, Place(head, |queued|, |ring|);
    PlaceIs(head, |queued|, n);
    forall i | 0 <= i < n
      ensures ring[at := r][Place(head, i, n)] == if i == |queued| then r else ring[Place(head, i, n)]
    {
      PlaceIs(head, i, n);
    }
  }

  class RecordQueue {
    const buf: array<Record>
    var head: nat
    var count: nat

    ghost var pushed: seq<Record>   // every record that ever arrived
    ghost var evicted: seq<nat>     // arrival numbers of those dropped
    ghost var queued: seq<nat>      // arrival numbers of those in the ring, oldest first

    ghost predicate Valid()
      reads this, buf
    {
      Holds(buf[..], head, queued, pushed) && count == |queued| && AllRows(pushed)
    }

    ghost function Flow(): MetricsFlow.Flow
      reads this
    {
      MetricsFlow.Flow(|pushed|, evicted, queued, [], [])
    }

    constructor (capacity: int)
      ensures Valid() && fresh(buf) && buf.Length == (if capacity < 1 then 1 else capacity)
      ensures pushed == [] && evicted == [] && queued == []
    {
      var n := if capacity < 1 then 1 else capacity;
      buf := new Record[n](_ => Blank);
      head, count := 0, 0;
      pushed, evicted, queued := [], [], [];
      new;
      forall i | 0 <= i < n ensures buf[Place(head, i, n)] == Blank {
        PlaceIs(head, i, n);
      }
    }

    /** Clearing the front slot and moving past it. */
    method DropFront()
      requires Valid() && count > 0
      modifies this`head, this`count, this`queued, buf
      ensures Valid() && queued == old(queued)[1..]
    {
      DropHolds(buf[..], head, queued, pushed);
      ghost var ring := buf[..];
      buf[head] := Blank;
      assert buf[..] == ring[head := Blank];
      head := (head + 1) % buf.Length;
      count := count - 1;
      queued := queued[1..];
    }

    /** False means that the oldest record was dropped to make room. */
    method Push(r: Record) returns (kept: bool)
      requires Valid() && r.Row?
      modifies this, buf
      ensures Valid() && pushed == old(pushed) + [r]
      ensures Flow() == Pushed(old(Flow()), buf.Length)
      ensures kept <==> evicted == old(evicted)
    {
      var dropped := false;
      if count == buf.Length {
        evicted := evicted + [queued[0]];
        DropFront();
        dropped := true;
      }
      PutHolds(buf[..], head, queued, pushed, r);
      ghost var ring := buf[..];
      buf[(head + count) % buf.Length] := r;
      assert buf[..] == ring[Place(head, count, buf.Length) := r];
      count := count + 1;
      queued := queued + [|pushed|];
      pushed := pushed + [r];
      return !dropped;
    }

    /** The oldest records leave in the order they came. */
    method Drain(max: int) returns (out: seq<Record>)
      requires Valid()
      modifies this`head, this`count, this`queued, buf
      ensures Valid()
      ensures |out| == Min(if max < 0 then 0 else max, old(count))
      ensures queued == old(queued)[|out|..]
      ensures forall i :: 0 <= i < |out| ==> old(queued)[i] < |pushed| && out[i] == pushed[old(queued)[i]]
    {
      if count == 0 || max <= 0 {
        return [];
      }
      var n := if max > count then count else max;
      out := [];
      for i := 0 to n
        invariant Valid() && |out| == i && queued == old(queued)[i..]
        invariant forall j :: 0 <= j < i ==> old(queued)[j] < |pushed| && out[j] == pushed[old(queued)[j]]
      {
        PlaceIs(head, 0, buf.Length);
        assert queued[0] == old(queued)[i];
        out := out + [buf[head]];
        DropFront();
      }
    }
  }
}
