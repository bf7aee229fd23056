/** The breadth-first trace of Provenance/provenance.c over a log of records. */
module TraceModel {
  import opened Words

  datatype Entity = Entity(kind: nat, id: u32)

  datatype Record = Record(id: u32, tick: u32, source: Entity, target: Entity, relation: nat, reason: nat)

  /** The end a record is entered by and the end it leads to. */
  function From(r: Record, forward: bool): Entity { if forward then r.source else r.target }

  function To(r: Record, forward: bool): Entity { if forward then r.target else r.source }

  /** The graph a trace walks: the log, a direction and a start. */
  datatype Graph = Graph(log: seq<Record>, forward: bool, start: Entity) {
    predicate Edge(k: nat, a: Entity, b: Entity) {
      k < |log| && From(log[k], forward) == a && To(log[k], forward) == b
    }
  }

  /** The queue (which is also the visited list) and the indices of the records emitted. */
  datatype Work = Work(queue: seq<Entity>, out: seq<nat>)

  /** Looks at record `k` on behalf of `current`. */
  function Visit(g: Graph, current: Entity, k: nat, w: Work): Work
    requires k < |g.log|
  {
    if From(g.log[k], g.forward) != current then w
    else
      var next := To(g.log[k], g.forward);
      Work(if next in w.queue then w.queue else w.queue + [next], w.out + [k])
  }

  function Expand(g: Graph, current: Entity, k: nat, w: Work): (r: Work)
    requires k <= |g.log|
    ensures w.queue <= r.queue && w.out <= r.out
    decreases |g.log| - k
  {
    if k == |g.log| then w else Expand(g, current, k + 1, Visit(g, current, k, w))
  }

  ghost function Elements(s: seq<Entity>): set<Entity> { set e | e in s }

  /** Every entity a queue can hold. */
  ghost function Universe(g: Graph): set<Entity> {
    {g.start} + set k | 0 <= k < |g.log| :: To(g.log[k], g.forward)
  }

  ghost predicate InUniverse(g: Graph, queue: seq<Entity>) { Elements(queue) <= Universe(g) && NoDuplicates(queue) }

  lemma {:induction false} VisitInUniverse(g: Graph, current: Entity, k: nat, w: Work)
    requires k < |g.log| && InUniverse(g, w.queue)
    ensures InUniverse(g, Visit(g, current, k, w).queue)
  {
  }

  lemma {:induction false} ExpandInUniverse(g: Graph, current: Entity, k: nat, w: Work)
    requires k <= |g.log| && InUniverse(g, w.queue)
    ensures InUniverse(g, Expand(g, current, k, w).queue)
    decreases |g.log| - k
  {
    if k < |g.log| {
      VisitInUniverse(g, current, k, w);
      ExpandInUniverse(g, current, k + 1, Visit(g, current, k, w));
    }
  }

  lemma {:induction false} ElementsSize(s: seq<Entity>)
    requires NoDuplicates(s)
    ensures |Elements(s)| == |s|
  {
    if s != [] {
      var front := s[..|s| - 1];
      ElementsSize(front);
      assert Elements(s) == Elements(front) + {s[|s| - 1]};
      assert s[|s| - 1] !in Elements(front);
    }
  }

  lemma {:induction false} QueueBound(g: Graph, queue: seq<Entity>)
    requires InUniverse(g, queue)
    ensures |queue| <= |Universe(g)|
  {
    ElementsSize(queue);
    var rest := Universe(g) - Elements(queue);
    assert Universe(g) == Elements(queue) + rest;
  }

  /** All records from queue position `head` on, in breadth-first order. */
  ghost function Bfs(g: Graph, head: nat, w: Work): (out: seq<nat>)
    requires head <= |w.queue| && InUniverse(g, w.queue)
    ensures w.out <= out
    decreases |Universe(g)| - head
  {
    if head == |w.queue| then w.out
    else
      QueueBound(g, w.queue);
      ExpandInUniverse(g, w.queue[head], 0, w);
      Bfs(g, head + 1, Expand(g, w.queue[head], 0, w))
  }

  /** The indices a trace without a result limit returns. */
  ghost function Trace(g: Graph): seq<nat> { Bfs(g, 0, Work([g.start], [])) }

  // ----- reference: reachability and distance

  /** `e` can be reached from the start over exactly `n` records. */
  ghost predicate ReachIn(g: Graph, e: Entity, n: nat)
    decreases n
  {
    if n == 0 then e == g.start
    else exists k, p :: g.Edge(k, p, e) && ReachIn(g, p, n - 1)
  }

  ghost predicate Reachable(g: Graph, e: Entity) { exists n :: ReachIn(g, e, n) }

  ghost predicate IsDistance(g: Graph, e: Entity, n: nat) {
    ReachIn(g, e, n) && forall m :: 0 <= m < n ==> !ReachIn(g, e, m)
  }

  // ----- the invariant of the search

  /** `level` gives the distance of each queued entity, in non-decreasing order. */
  ghost predicate Levels(g: Graph, queue: seq<Entity>, level: seq<nat>) {
    && |level| == |queue| && NoDuplicates(queue)
    && (forall i :: 0 <= i < |queue| ==> IsDistance(g, queue[i], level[i]))
    && (forall i, j :: 0 <= i <= j < |level| ==> level[i] <= level[j])
  }

  /** Everything within distance `n` is queued. */
  ghost predicate Within(g: Graph, queue: seq<Entity>, n: nat) {
    forall e, m :: 0 <= m <= n && ReachIn(g, e, m) ==> e in queue
  }

  /** All that the first `head` entities lead to is queued, and what `queue[head]` leads to
      by the first `k` records. */
  ghost predicate Closed(g: Graph, queue: seq<Entity>, head: nat, k: nat) {
    forall i, j: nat, b :: 0 <= i < |queue| && (i < head || (i == head && j < k)) && g.Edge(j, queue[i], b) ==>
      b in queue
  }

  ghost predicate Searching(g: Graph, queue: seq<Entity>, level: seq<nat>, head: nat, k: nat) {
    && Levels(g, queue, level) && Closed(g, queue, head, k) && head < |queue|
    && Within(g, queue, level[head]) && level[|level| - 1] <= level[head] + 1
  }

  lemma {:induction false} StepReaches(g: Graph, k: nat, a: Entity, b: Entity, n: nat)
    requires g.Edge(k, a, b) && ReachIn(g, a, n)
    ensures ReachIn(g, b, n + 1)
  {
  }

  /** Visiting one record keeps the search sound. */
  lemma {:induction false} VisitSearching(g: Graph, w: Work, level: seq<nat>, head: nat, k: nat)
    returns (level': seq<nat>)
    requires Searching(g, w.queue, level, head, k) && k < |g.log|
    ensures level <= level' && Searching(g, Visit(g, w.queue[head], k, w).queue, level', head, k + 1)
  {
    var cur, next := w.queue[head], To(g.log[k], g.forward);
    var w' := Visit(g, cur, k, w);
    level' := level;
    if w'.queue != w.queue {
      level' := level + [level[head] + 1];
      assert g.Edge(k, cur, next);
      StepReaches(g, k, cur, next, level[head]);
      assert IsDistance(g, next, level[head] + 1);
    }
    forall i, j: nat, b | 0 <= i < |w'.queue| && (i < head || (i == head && j < k + 1)) && g.Edge(j, w'.queue[i], b)
      ensures b in w'.queue
    {
      assert w'.queue[i] == w.queue[i];
      if i < head || j < k {
        assert b in w.queue;
      } else {
        assert b == next;
      }
    }
  }

  lemma {:induction false} VisitKeeps(g: Graph, cur: Entity, k: nat, w: Work)
    requires k < |g.log|
    ensures w.queue <= Visit(g, cur, k, w).queue
  {
  }

  lemma {:induction false} SearchingHead(g: Graph, queue: seq<Entity>, level: seq<nat>, head: nat, k: nat)
    requires Searching(g, queue, level, head, k)
    ensures head < |queue|
  {
  }

  lemma {:induction false} ExpandSearching(g: Graph, w: Work, level: seq<nat>, head: nat, k: nat)
    returns (level': seq<nat>)
    requires k <= |g.log| && Searching(g, w.queue, level, head, k)
    ensures level <= level' && Searching(g, Expand(g, w.queue[head], k, w).queue, level', head, |g.log|)
    decreases |g.log| - k
  {
    hide Searching, Visit;
    level' := level;
    SearchingHead(g, w.queue, level, head, k);
    if k < |g.log| {
      var l := VisitSearching(g, w, level, head, k);
      var w' := Visit(g, w.queue[head], k, w);
      VisitKeeps(g, w.queue[head], k, w);
      level' := ExpandSearching(g, w', l, head, k + 1);
    }
  }

  /** Moving on to the next entity in the queue. */
  lemma {:induction false} AdvanceSearching(g: Graph, queue: seq<Entity>, level: seq<nat>, head: nat)
    requires Searching(g, queue, level, head, |g.log|)
    ensures Closed(g, queue, head + 1, 0)
    ensures head + 1 < |queue| ==> Searching(g, queue, level, head + 1, 0)
  {
    forall i, j: nat, b | 0 <= i < |queue| && i < head + 1 && g.Edge(j, queue[i], b) ensures b in queue {
      assert i < head || (i == head && j < |g.log|);
    }
    if head + 1 < |queue| && level[head + 1] > level[head] {
      forall e, m | 0 <= m <= level[head + 1] && ReachIn(g, e, m) ensures e in queue {
        if m == level[head + 1] { NextLevel(g, queue, level, head, e, m); }
      }
    }
  }

  lemma {:induction false} NextLevel(g: Graph, queue: seq<Entity>, level: seq<nat>, head: nat, e: Entity, m: nat)
    requires Searching(g, queue, level, head, |g.log|) && head + 1 < |queue| && level[head] < level[head + 1] == m
    requires ReachIn(g, e, m)
    ensures e in queue
  {
    var k, p :| g.Edge(k, p, e) && ReachIn(g, p, m - 1);
    assert p in queue;
    var i :| 0 <= i < |queue| && queue[i] == p;
    assert IsDistance(g, p, level[i]);
    assert level[i] <= m - 1;
    assert i <= head;
    assert g.Edge(k, queue[i], e);
  }

  // ----- what has been emitted

  /** Position `pos[a]` of the queue emitted record `out[a]`, in lexicographic order, and
      nothing up to `head` and `k` was left out. */
  ghost predicate Emitted(g: Graph, w: Work, pos: seq<nat>, head: nat, k: nat) {
    && |pos| == |w.out|
    && (forall a :: 0 <= a < |pos| ==>
          && w.out[a] < |g.log| && pos[a] < |w.queue| && From(g.log[w.out[a]], g.forward) == w.queue[pos[a]]
          && (pos[a] < head || (pos[a] == head && w.out[a] < k)))
    && (forall a, b :: 0 <= a < b < |pos| ==> pos[a] < pos[b] || (pos[a] == pos[b] && w.out[a] < w.out[b]))
    && NoneMissed(g, w, head, k)
  }

  /** Every record of `queue[i]` up to the bounds has been emitted. */
  ghost predicate NoneMissed(g: Graph, w: Work, head: nat, k: nat) {
    forall x: nat, i ::
      (x < |g.log| && 0 <= i < |w.queue| && (i < head || (i == head && x < k))
        && From(g.log[x], g.forward) == w.queue[i])
      ==> x in w.out
  }

  lemma {:induction false} VisitMissesNone(g: Graph, w: Work, head: nat, k: nat)
    requires NoneMissed(g, w, head, k) && head < |w.queue| && k < |g.log|
    ensures NoneMissed(g, Visit(g, w.queue[head], k, w), head, k + 1)
  {
    var w' := Visit(g, w.queue[head], k, w);
    assert w.out <= w'.out && w.queue <= w'.queue;
    forall x: nat, i | x < |g.log| && 0 <= i < |w'.queue| && (i < head || (i == head && x < k + 1))
      && From(g.log[x], g.forward) == w'.queue[i] ensures x in w'.out
    {
      assert w'.queue[i] == w.queue[i];
      if i < head || x < k {
        assert x in w.out;
      } else {
        assert w'.out[|w.out|] == k;
      }
    }
  }

  lemma {:induction false} VisitEmitted(g: Graph, w: Work, pos: seq<nat>, head: nat, k: nat) returns (pos': seq<nat>)
    requires Emitted(g, w, pos, head, k) && NoDuplicates(w.queue) && head < |w.queue| && k < |g.log|
    ensures Emitted(g, Visit(g, w.queue[head], k, w), pos', head, k + 1)
  {
    VisitMissesNone(g, w, head, k);
    hide NoneMissed;
    var w' := Visit(g, w.queue[head], k, w);
    pos' := if w'.out == w.out then pos else pos + [head];
  }

  lemma {:induction false} ExpandEmitted(g: Graph, w: Work, pos: seq<nat>, head: nat, k: nat) returns (pos': seq<nat>)
    requires k <= |g.log| && Emitted(g, w, pos, head, k) && head < |w.queue| && InUniverse(g, w.queue)
    ensures Emitted(g, Expand(g, w.queue[head], k, w), pos', head, |g.log|)
    decreases |g.log| - k
  {
    hide Emitted;
    pos' := pos;
    if k < |g.log| {
      var p := VisitEmitted(g, w, pos, head, k);
      var w' := Visit(g, w.queue[head], k, w);
      VisitInUniverse(g, w.queue[head], k, w);
      assert w'.queue[head] == w.queue[head];
      pos' := ExpandEmitted(g, w', p, head, k + 1);
    }
  }

  lemma {:induction false} AdvanceEmitted(g: Graph, w: Work, pos: seq<nat>, head: nat)
    requires Emitted(g, w, pos, head, |g.log|)
    ensures Emitted(g, w, pos, head + 1, 0)
  {
  }

  /** Once everything queued is closed, the queue is exactly what can be reached. */
  lemma {:induction false} QueueIsReachable(g: Graph, queue: seq<Entity>, e: Entity, n: nat)
    requires Closed(g, queue, |queue|, 0) && g.start in queue && ReachIn(g, e, n)
    ensures e in queue
    decreases n
  {
    if n > 0 {
      var k, p :| g.Edge(k, p, e) && ReachIn(g, p, n - 1);
      QueueIsReachable(g, queue, p, n - 1);
      var i :| 0 <= i < |queue| && queue[i] == p;
      assert g.Edge(k, queue[i], e);
    }
  }

  /** A finished search: the queue with its distances, and the records it emitted. */
  ghost predicate Finished(g: Graph, w: Work, level: seq<nat>, pos: seq<nat>) {
    && Levels(g, w.queue, level) && Closed(g, w.queue, |w.queue|, 0) && g.start in w.queue
    && Emitted(g, w, pos, |w.queue|, 0)
  }

  /** The search stands at queue position `head`. */
  ghost predicate At(g: Graph, head: nat, w: Work, level: seq<nat>, pos: seq<nat>) {
    && head <= |w.queue| && InUniverse(g, w.queue) && g.start in w.queue && Emitted(g, w, pos, head, 0)
    && if head < |w.queue| then Searching(g, w.queue, level, head, 0)
       else Levels(g, w.queue, level) && Closed(g, w.queue, head, 0)
  }

  lemma {:induction false} ExpandAt(g: Graph, head: nat, w: Work, level: seq<nat>, pos: seq<nat>)
    returns (l: seq<nat>, p: seq<nat>)
    requires At(g, head, w, level, pos) && head < |w.queue|
    ensures At(g, head + 1, Expand(g, w.queue[head], 0, w), l, p)
  {
    hide Emitted, Levels, Closed, Within, InUniverse;
    ExpandInUniverse(g, w.queue[head], 0, w);
    l := ExpandSearching(g, w, level, head, 0);
    p := ExpandEmitted(g, w, pos, head, 0);
    var w' := Expand(g, w.queue[head], 0, w);
    AdvanceSearching(g, w'.queue, l, head);
    AdvanceEmitted(g, w', p, head);
  }

  lemma {:induction false} BfsFinishes(g: Graph, head: nat, w: Work, level: seq<nat>, pos: seq<nat>)
    returns (end: Work, level': seq<nat>, pos': seq<nat>)
    requires At(g, head, w, level, pos)
    ensures head <= |w.queue| && InUniverse(g, w.queue)
    ensures Bfs(g, head, w) == end.out && Finished(g, end, level', pos')
    decreases |Universe(g)| - head
  {
    hide Emitted, Levels, Closed, Searching, InUniverse;
    if head == |w.queue| {
      end, level', pos' := w, level, pos;
    } else {
      QueueBound(g, w.queue);
      ExpandInUniverse(g, w.queue[head], 0, w);
      var l, p := ExpandAt(g, head, w, level, pos);
      end, level', pos' := BfsFinishes(g, head + 1, Expand(g, w.queue[head], 0, w), l, p);
    }
  }

  /** Trace equals reachability: each record whose from-end can be reached, exactly once, in
      non-decreasing distance of that end. */
  lemma {:induction false} TraceIsReachability(g: Graph) returns (distance: seq<nat>)
    ensures var out := Trace(g);
      && NoDuplicates(out)
      && (forall k: nat :: k in out <==> k < |g.log| && Reachable(g, From(g.log[k], g.forward)))
      && |distance| == |out|
      && (forall a :: 0 <= a < |out| ==> out[a] < |g.log| && IsDistance(g, From(g.log[out[a]], g.forward), distance[a]))
      && (forall a, b :: 0 <= a <= b < |out| ==> distance[a] <= distance[b])
  {
    hide Finished, IsDistance, Reachable, At;
    var w := Work([g.start], []);
    StartAt(g);
    var end, level, pos := BfsFinishes(g, 0, w, [0], []);
    distance := FinishedOrder(g, end, level, pos);
    forall k: nat ensures k in end.out <==> k < |g.log| && Reachable(g, From(g.log[k], g.forward)) {
      EmittedIffReachable(g, end, level, pos, k);
    }
  }

  lemma {:induction false} StartAt(g: Graph)
    ensures At(g, 0, Work([g.start], []), [0], [])
  {
    var w := Work([g.start], []);
    assert Elements(w.queue) == {g.start};
    assert ReachIn(g, g.start, 0);
    assert Searching(g, w.queue, [0], 0, 0);
  }

  lemma {:induction false} FinishedOrder(g: Graph, w: Work, level: seq<nat>, pos: seq<nat>) returns (distance: seq<nat>)
    requires Finished(g, w, level, pos)
    ensures NoDuplicates(w.out) && |distance| == |w.out|
    ensures forall a :: 0 <= a < |w.out| ==>
      w.out[a] < |g.log| && IsDistance(g, From(g.log[w.out[a]], g.forward), distance[a])
    ensures forall a, b :: 0 <= a <= b < |w.out| ==> distance[a] <= distance[b]
  {
    hide IsDistance, Closed;
    distance := seq(|pos|, a requires 0 <= a < |pos| => level[pos[a]]);
    forall a | 0 <= a < |w.out| ensures IsDistance(g, From(g.log[w.out[a]], g.forward), distance[a]) {
      assert IsDistance(g, w.queue[pos[a]], level[pos[a]]);
    }
  }

  lemma {:induction false} EmittedIffReachable(g: Graph, w: Work, level: seq<nat>, pos: seq<nat>, k: nat)
    requires Finished(g, w, level, pos)
    ensures k in w.out <==> k < |g.log| && Reachable(g, From(g.log[k], g.forward))
  {
    if k in w.out {
      var a :| 0 <= a < |w.out| && w.out[a] == k;
      assert IsDistance(g, w.queue[pos[a]], level[pos[a]]);
    }
    if k < |g.log| && Reachable(g, From(g.log[k], g.forward)) {
      var n :| ReachIn(g, From(g.log[k], g.forward), n);
      QueueIsReachable(g, w.queue, From(g.log[k], g.forward), n);
      var i :| 0 <= i < |w.queue| && w.queue[i] == From(g.log[k], g.forward);
    }
  }

  /** A trace emits no more records than the log holds. */
  lemma {:induction false} TraceLength(g: Graph)
    ensures |Trace(g)| <= |g.log|
  {
    var d := TraceIsReachability(g);
    DistinctBelow(Trace(g), |g.log|);
  }

  /** What is left of the search from the middle of one entity's records. */
  ghost function Rest(g: Graph, head: nat, current: Entity, k: nat, w: Work): (out: seq<nat>)
    requires k <= |g.log| && head <= |w.queue| && InUniverse(g, w.queue)
    ensures w.out <= out
  {
    ExpandInUniverse(g, current, k, w);
    Bfs(g, head, Expand(g, current, k, w))
  }

  lemma {:induction false} RestStart(g: Graph, head: nat, w: Work)
    requires head < |w.queue| && InUniverse(g, w.queue)
    ensures Bfs(g, head, w) == Rest(g, head + 1, w.queue[head], 0, w)
  {
  }

  lemma {:induction false} RestStep(g: Graph, head: nat, current: Entity, k: nat, w: Work)
    requires k < |g.log| && head <= |w.queue| && InUniverse(g, w.queue)
    ensures var w' := Visit(g, current, k, w);
      InUniverse(g, w'.queue) && head <= |w'.queue| && Rest(g, head, current, k, w) == Rest(g, head, current, k + 1, w')
  {
    VisitInUniverse(g, current, k, w);
  }

  lemma {:induction false} RestEnd(g: Graph, head: nat, current: Entity, w: Work)
    requires head <= |w.queue| && InUniverse(g, w.queue)
    ensures Rest(g, head, current, |g.log|, w) == Bfs(g, head, w)
  {
  }
}
