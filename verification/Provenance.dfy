/** Provenance/provenance.c in place: a ring of the last 256 records and the trace that
    walks a copy of it with fixed-size queues. */
module Provenance {
  import opened Words
  import opened Bits
  import opened TraceModel

  const MAX_RECORDS := 256

  datatype Cell = Cell(valid: bool, record: Record)

  /** The last 256 of all records ever stored, oldest first. */
  function Recent(history: seq<Record>): (r: seq<Record>)
    ensures |r| <= MAX_RECORDS && |r| <= |history| && (|history| <= MAX_RECORDS ==> r == history)
  {
    if |history| <= MAX_RECORDS then history else history[|history| - MAX_RECORDS..]
  }

  function Pick(log: seq<Record>, indices: seq<nat>): (r: seq<Record>)
    requires forall a :: 0 <= a < |indices| ==> indices[a] < |log|
    ensures |r| == |indices| && forall a :: 0 <= a < |r| ==> r[a] == log[indices[a]]
  {
    seq(|indices|, a requires 0 <= a < |indices| => log[indices[a]])
  }

  function CellOf(j: nat): (i: nat)
    ensures i < MAX_RECORDS
  {
    j % MAX_RECORDS
  }

  class Log {
    const cells: array<Cell>
    var count: nat
    var nextId: u32
    var dropped: u32
    /** Every record stored since the last reset. */
    ghost var history: seq<Record>

    ghost predicate Valid()
      reads this, cells
    {
      && cells.Length == MAX_RECORDS
      && count == |Recent(history)|
      && nextId == Wrap32(|history| + 1) && dropped == Wrap32(|history| - count)
      && forall j :: |history| - count <= j < |history| ==> cells[CellOf(j)] == Cell(true, history[j])
    }

    constructor ()
      ensures Valid() && history == [] && fresh(cells)
    {
      cells := new Cell[MAX_RECORDS](_ => Cell(false, Record(0, 0, Entity(0, 0), Entity(0, 0), 0, 0)));
      count, nextId, dropped := 0, 1, 0;
      history := [];
    }

    /** Stores in the next cell of the ring, over the oldest record once it is full; the ring
        stays right even when `next_id` wraps, since 256 divides 2^32. */
    method Store(source: Entity, target: Entity, relation: nat, reason: nat, tick: u32) returns (id: u32)
      requires Valid()
      modifies this, cells
      ensures Valid() && history == old(history) + [Record(id, tick, source, target, relation, reason)]
      ensures id == Wrap32(|old(history)| + 1)
    {
      hide CellOf, Wrap32, Recent;
      ghost var n := |history|;
      RecentLength(history);
      WrapNext(n + 1);
      var index := NextCell();
      id := nextId;
      var next: int := nextId;
      nextId := Wrap32(next + 1);
      var record := Record(id, tick, source, target, relation, reason);
      cells[index] := Cell(true, record);
      history := history + [record];
      RecentLength(history);
      forall j | |history| - count <= j < |history| ensures cells[CellOf(j)] == Cell(true, history[j]) {
        if j < n { OtherCell(j, n); }
      }
    }

    /** The cell the next record goes to: a new one, or the oldest, which is then lost. */
    method NextCell() returns (index: nat)
      requires Valid()
      modifies `count, `dropped
      ensures index == CellOf(|history|)
      ensures count == if |history| < MAX_RECORDS then |history| + 1 else MAX_RECORDS
      ensures dropped == Wrap32(|history| + 1 - count)
    {
      hide CellOf, Wrap32, Recent;
      ghost var n := |history|;
      RecentLength(history);
      RingIndex(n);
      WrapNext(n - count);
      if count < MAX_RECORDS {
        index := count;
        count := count + 1;
      } else {
        var next: int := nextId;
        index := CellOf(Wrap32(next - 1));
        var gone: int := dropped;
        dropped := Wrap32(gone + 1);
      }
    }

    /** The records from the oldest cell on: exactly the last min(n, 256) stored. */
    method Snapshot() returns (copy: seq<Record>)
      requires Valid()
      ensures copy == Recent(history)
    {
      hide Wrap32, CellOf, Recent;
      var next: int := nextId;
      var start := if count < MAX_RECORDS then 0 else CellOf(Wrap32(next - 1));
      ghost var n, recent := |history|, Recent(history);
      RingIndex(n);
      RecentIs(history);
      copy := [];
      var k := 0;
      while k < count
        invariant 0 <= k <= count && copy == recent[..k]
      {
        SnapshotCell(n, count, start, k);
        var cell := cells[CellOf(start + k)];
        assert cell.record == recent[k];
        copy := copy + [cell.record];
        k := k + 1;
      }
    }

    /** `trace`: breadth first over the snapshot, at most `max` results. */
    method Trace(start: Entity, forward: bool, max: nat) returns (results: seq<Record>)
      requires Valid()
      ensures var g := Graph(Recent(history), forward, start);
        var full := TraceModel.Trace(g);
        && (forall a :: 0 <= a < |full| ==> full[a] < |g.log|)
        && results == (if max < |full| then Pick(g.log, full)[..max] else Pick(g.log, full))
    {
      var copy := Snapshot();
      results := Search(copy, start, forward, max);
    }
  }

  /** The queue and visited arrays spell the queue of `w`, the results its records. */
  ghost predicate Mirrors(queue: array<Entity>, visited: array<Entity>, tail: nat, copy: seq<Record>,
                          results: seq<Record>, w: Work, g: Graph, full: seq<nat>)
    reads queue, visited
  {
    && queue.Length == visited.Length == MAX_RECORDS + 1 && queue != visited && tail <= MAX_RECORDS + 1
    && queue[..tail] == w.queue && visited[..tail] == w.queue
    && InUniverse(g, w.queue) && |w.queue| <= |w.out| + 1
    && g.log == copy && |full| <= |copy| <= MAX_RECORDS && w.out <= full
    && (forall a :: 0 <= a < |full| ==> full[a] < |copy|)
    && results == Pick(copy, w.out)
  }

  method Search(copy: seq<Record>, start: Entity, forward: bool, max: nat) returns (results: seq<Record>)
    requires |copy| <= MAX_RECORDS
    ensures var g := Graph(copy, forward, start);
      var full := TraceModel.Trace(g);
      && (forall a :: 0 <= a < |full| ==> full[a] < |g.log|)
      && results == (if max < |full| then Pick(g.log, full)[..max] else Pick(g.log, full))
  {
    hide InUniverse, Rest, Pick;
    results := [];
    ghost var g := Graph(copy, forward, start);
    ghost var full := TraceModel.Trace(g);
    TraceLength(g);
    TraceInLog(g);
    PickNone(copy);
    if max == 0 {
      PickPrefix(copy, full, []);
      return;
    }
    var queue := new Entity[MAX_RECORDS + 1](_ => start);
    var visited := new Entity[MAX_RECORDS + 1](_ => start);
    var head, tail := 0, 1;
    ghost var w := Work([start], []);
    StartUniverse(g);
    assert queue[..1] == [start] && visited[..1] == [start];
    assert Mirrors(queue, visited, tail, copy, results, w, g, full);
    while head < tail && |results| < max
      invariant 0 <= head <= tail && |results| <= max
      invariant Mirrors(queue, visited, tail, copy, results, w, g, full)
      invariant |results| < max ==> full == Bfs(g, head, w)
      decreases MAX_RECORDS + 1 - head
    {
      var current := queue[head];
      RestStart(g, head, w);
      head := head + 1;
      tail, results, w := Scan(copy, forward, current, max, queue, visited, tail, results, head, w, g, full);
    }
    PickPrefix(copy, full, w.out);
    assert |results| < max ==> w.out == full;
  }

  /** The inner loop: every record on behalf of `current`, until the results are full. */
  method Scan(copy: seq<Record>, forward: bool, current: Entity, max: nat, queue: array<Entity>, visited: array<Entity>,
              tail0: nat, results0: seq<Record>, ghost head: nat, ghost w0: Work, ghost g: Graph, ghost full: seq<nat>)
    returns (tail: nat, results: seq<Record>, ghost w: Work)
    requires Mirrors(queue, visited, tail0, copy, results0, w0, g, full) && g.forward == forward
    requires head <= tail0 && |results0| <= max && full == Rest(g, head, current, 0, w0)
    modifies queue, visited
    ensures Mirrors(queue, visited, tail, copy, results, w, g, full) && tail0 <= tail && |results| <= max
    ensures |results| < max ==> full == Bfs(g, head, w)
  {
    hide InUniverse, Rest, Pick;
    tail, results, w := tail0, results0, w0;
    var k := 0;
    while k < |copy| && |results| < max
      invariant 0 <= k <= |copy| && tail0 <= tail && |results| <= max
      invariant Mirrors(queue, visited, tail, copy, results, w, g, full)
      invariant full == Rest(g, head, current, k, w)
    {
      RestStep(g, head, current, k, w);
      ghost var was := w;
      w := Visit(g, current, k, w);
      if From(copy[k], forward) == current {
        PickSnoc(copy, was.out, k);
        results := results + [copy[k]];
        var next := To(copy[k], forward);
        var known := Contains(visited, tail, next);
        assert |was.queue| <= |w.out| <= |full|;
        if !known && tail < MAX_RECORDS + 1 {
          visited[tail] := next;
          queue[tail] := next;
          tail := tail + 1;
          assert visited[..tail] == was.queue + [next] && queue[..tail] == was.queue + [next];
        }
      }
      k := k + 1;
    }
    if k == |copy| { RestEnd(g, head, current, w); }
  }

  lemma {:induction false} PickNone(log: seq<Record>)
    ensures Pick(log, []) == []
  {
  }

  lemma {:induction false} PickSnoc(log: seq<Record>, s: seq<nat>, k: nat)
    requires (forall a :: 0 <= a < |s| ==> s[a] < |log|) && k < |log|
    ensures Pick(log, s + [k]) == Pick(log, s) + [log[k]]
  {
  }

  lemma {:induction false} PickPrefix(log: seq<Record>, full: seq<nat>, s: seq<nat>)
    requires (forall a :: 0 <= a < |full| ==> full[a] < |log|) && s <= full
    ensures Pick(log, s) == Pick(log, full)[..|s|]
  {
  }

  lemma {:induction false} WrapNext(n: int)
    ensures Wrap32(Wrap32(n) + 1) == Wrap32(n + 1)
  {
  }

  method Contains(visited: array<Entity>, n: nat, e: Entity) returns (seen: bool)
    requires n <= visited.Length
    ensures seen <==> e in visited[..n]
  {
    var j := 0;
    while j < n
      invariant 0 <= j <= n && e !in visited[..j]
    {
      if visited[j] == e {
        return true;
      }
      j := j + 1;
    }
    return false;
  }

  lemma {:induction false} TraceInLog(g: Graph)
    ensures forall a :: 0 <= a < |TraceModel.Trace(g)| ==> TraceModel.Trace(g)[a] < |g.log|
  {
    hide TraceModel.Trace;
    var d := TraceIsReachability(g);
  }

  lemma {:induction false} RingIndex(n: nat)
    ensures CellOf(Wrap32(Wrap32(n + 1) - 1)) == CellOf(n)
    ensures n < MAX_RECORDS ==> CellOf(n) == n
  {
    assert Wrap32(Wrap32(n + 1) - 1) == Wrap32(n);
    var q, r := n / 0x1_0000_0000, n % 0x1_0000_0000;
    ModUnique(n, MAX_RECORDS, 0x100_0000 * q + r / MAX_RECORDS, r % MAX_RECORDS);
  }

  lemma {:induction false} OtherCell(j: nat, n: nat)
    requires j < n < j + MAX_RECORDS
    ensures CellOf(j) != CellOf(n)
  {
  }

  lemma {:induction false} SameCell(n: nat, k: nat)
    requires n >= MAX_RECORDS
    ensures CellOf(CellOf(n) + k) == CellOf(n - MAX_RECORDS + k)
  {
    var q, r := n / MAX_RECORDS, n % MAX_RECORDS;
    ModUnique(n - MAX_RECORDS + k, MAX_RECORDS, q - 1 + (r + k) / MAX_RECORDS, (r + k) % MAX_RECORDS);
  }

  lemma {:induction false} RecentLength(history: seq<Record>)
    ensures |Recent(history)| == if |history| <= MAX_RECORDS then |history| else MAX_RECORDS
  {
  }

  lemma {:induction false} RecentIs(history: seq<Record>)
    ensures var r := Recent(history);
      && |r| == (if |history| <= MAX_RECORDS then |history| else MAX_RECORDS)
      && forall k :: 0 <= k < |r| ==> r[k] == history[|history| - |r| + k]
  {
  }

  lemma {:induction false} SnapshotCell(n: nat, count: nat, start: nat, k: nat)
    requires if count < MAX_RECORDS then count == n && start == 0 else count == MAX_RECORDS <= n && start == CellOf(n)
    requires k < count
    ensures CellOf(start + k) == CellOf(n - count + k)
  {
    hide CellOf;
    if count == MAX_RECORDS { SameCell(n, k); }
  }

  lemma {:induction false} StartUniverse(g: Graph)
    ensures InUniverse(g, [g.start])
  {
    assert Elements([g.start]) == {g.start};
  }
}
