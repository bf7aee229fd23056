/** The ready queue of kernel/Process/task.c: a circular list threaded through the tasks. */
module ReadyQueue {
  import opened Words
  import opened RoundRobin

  class Task {
    var next: Task?
    var state: State

    constructor ()
      ensures next == null && state == Ready
    {
      next, state := null, Ready;
    }
  }

  /** Where `t` stands in the queue, or the length of the queue when it is not queued. */
  function Place(ring: seq<Task>, t: Task): (i: nat)
    ensures i <= |ring| && t !in ring[..i] && (i < |ring| ==> ring[i] == t)
  {
    if ring == [] || ring[0] == t then 0 else
      var i := 1 + Place(ring[1..], t);
      assert ring[..i] == [ring[0]] + ring[1..][..i - 1];
      i
  }

  /** The queue after adding `t`: at the tail when it is new. A task that is queued already is
      moved to the tail of a queue that has lost everything behind it. */
  function Added(ring: seq<Task>, t: Task): seq<Task> {
    ring[..Place(ring, t)] + [t]
  }

  /** Adding keeps a simple cycle, and keeps every queued task exactly when the task was not
      queued or was the last one. */
  lemma {:induction false} AddKeepsAllIff(ring: seq<Task>, t: Task)
    requires NoDuplicates(ring)
    ensures NoDuplicates(Added(ring, t))
    ensures (forall u :: u in ring ==> u in Added(ring, t)) <==> (t !in ring || t == ring[|ring| - 1])
  {
    var i := Place(ring, t);
    if i + 1 < |ring| {
      var last := ring[|ring| - 1];
      assert last in ring;
      assert forall k :: 0 <= k < i ==> Added(ring, t)[k] == ring[k] != last;
      assert last !in Added(ring, t);
    } else {
      assert Added(ring, t) == if i < |ring| then ring else ring + [t];
    }
  }

  function Succ(n: nat, i: nat): (r: nat)
    requires i < n
    ensures r < n
  {
    if i + 1 == n then 0 else i + 1
  }

  /** The ring without its place `at`. */
  function Cut(ring: seq<Task>, at: nat): (r: seq<Task>)
    requires at < |ring|
    ensures |r| == |ring| - 1
  {
    ring[..at] + ring[at + 1..]
  }

  /** Where place `j` of the cut ring was before. */
  function Before(at: nat, j: nat): nat { if j < at then j else j + 1 }

  /** Everyone keeps their successor, except that the one in front of the cut inherits its. */
  lemma {:induction false} CutLinks(ring: seq<Task>, at: nat, j: nat)
    requires |ring| > 1 && at < |ring| && j < |ring| - 1
    ensures var k := Before(at, j); var n := |ring|;
      && Cut(ring, at)[j] == ring[k] && k != at
      && Cut(ring, at)[Succ(n - 1, j)] == ring[Succ(n, if Succ(n, k) == at then at else k)]
  {
  }

  lemma {:induction false} CutRing(ring: seq<Task>, at: nat)
    requires NoDuplicates(ring) && at < |ring|
    ensures Without(ring, ring[at]) == Cut(ring, at) && NoDuplicates(Cut(ring, at))
  {
    WithoutSplit(ring, ring[at], at);
  }

  lemma {:induction false} OnlyOnce(ring: seq<Task>, i: nat, j: nat)
    requires NoDuplicates(ring) && i < |ring| && j < |ring|
    ensures ring[i] == ring[j] <==> i == j
  {
  }

  class Queue {
    var head: Task?
    var current: Task?
    ghost var ring: seq<Task>

    /** The queue is one simple cycle through the tasks of `ring`. */
    ghost predicate Valid()
      reads this, ring
    {
      && NoDuplicates(ring)
      && head == (if ring == [] then null else ring[0])
      && forall i: nat {:trigger ring[i].next} :: i < |ring| ==> ring[i].next == ring[Succ(|ring|, i)]
    }

    ghost function States(): (s: seq<State>)
      reads this, ring
      ensures |s| == |ring| && forall i: nat :: i < |ring| ==> s[i] == ring[i].state
    {
      seq(|ring|, i requires 0 <= i < |ring| reads this, ring => ring[i].state)
    }

    constructor ()
      ensures Valid() && ring == [] && current == null
    {
      head, current, ring := null, null, [];
    }

    method AddReady(t: Task)
      requires Valid()
      modifies this`head, this`ring, t, ring
      ensures Valid() && ring == Added(old(ring), t)
      ensures t.state == Ready
      ensures forall u :: u in old(ring) && u != t ==> u.state == old(u.state)
    {
      t.state := Ready;
      ghost var at := Place(ring, t);
      if head == null {
        head := t;
        t.next := t;
      } else {
        var temp: Task := head;
        ghost var i: nat := 0;
        while temp.next != head
          modifies {}
          invariant i < |ring| && temp == ring[i]
          decreases |ring| - i
        {
          i := i + 1;
          temp := temp.next;
        }
        temp.next := t;
        t.next := head;
      }
      ring := ring[..at] + [t];
    }

    method RemoveReady(t: Task)
      requires Valid()
      modifies this`head, this`ring, t, ring
      ensures Valid() && ring == Without(old(ring), t)
      ensures t.state == if old(ring) == [] then old(t.state) else Blocked
      ensures t.next == old(t.next)
      ensures forall u :: u in old(ring) && u != t ==> u.state == old(u.state)
    {
      if head == null { return; }
      t.state := Blocked;
      if head == t && head.next == head {
        head := null;
        ring := [];
        return;
      }
      var temp, i := FindBefore(t);
      if temp.next == t {
        Unlink(t, temp, i);
      }
    }

    method Unlink(t: Task, temp: Task, ghost i: nat)
      requires Valid() && |ring| > 1 && i < |ring| && temp == ring[i] && temp.next == t
      modifies this`head, this`ring, temp`next
      ensures Valid() && ring == Without(old(ring), t)
    {
      hide Without, NoDuplicates, Cut;
      ghost var at := Succ(|ring|, i);
      CutRing(ring, at);
      CutLinks(ring, at, 0);
      OnlyOnce(ring, at, 0);
      assert t == ring[at] && t.next == ring[Succ(|ring|, at)];
      temp.next := t.next;
      if head == t { head := t.next; }
      ring := Cut(ring, at);
      forall j: nat | j < |ring| ensures ring[j].next == ring[Succ(|ring|, j)] {
        CutLinks(old(ring), at, j);
        OnlyOnce(old(ring), Before(at, j), i);
      }
    }

    /** The search of `task_remove_ready`: the task in front of `t`, if `t` is queued. */
    method FindBefore(t: Task) returns (temp: Task, ghost i: nat)
      requires Valid() && head != null
      ensures i < |ring| && temp == ring[i]
      ensures temp.next == t <==> t in ring
    {
      temp, i := head, 0;
      while temp.next != t
        invariant i < |ring| && temp == ring[i] && (i == 0 || i + 1 < |ring|)
        invariant forall k :: 0 < k <= i ==> ring[k] != t
        decreases |ring| - i
      {
        temp := temp.next;
        if i + 1 < |ring| { i := i + 1; }
        if temp.next == head { break; }
      }
    }

    // ----- choosing the next task

    /** Where the search begins. */
    ghost function Start(): Task?
      reads this, current
    {
      if current != null && current.next != null then current.next else head
    }

    /** The place the search counts from: that of the current task or, when it has left the
        queue (or there is none), the one in front of where the search begins. */
    ghost function Seat(): (c: nat)
      requires Valid() && Start() in ring
      reads this, ring, current
      ensures c < |ring|
    {
      if current in ring then Place(ring, current)
      else if Place(ring, Start()) == 0 then |ring| - 1 else Place(ring, Start()) - 1
    }

    /** How far round the search may go before it meets its beginning or the current task. */
    ghost function Far(): (d: nat)
      reads this
      ensures d <= |ring|
    {
      if current in ring then |ring| - 1 else |ring|
    }

    /** The first ready task after the current one in cyclic order, as far as the guard
        reaches; failing that the current task if it is ready itself. */
    ghost function Chosen(): Task?
      requires Valid() && Start() in ring
      reads this, ring, current
    {
      var d := FirstReady(States(), Seat(), 1, Far());
      if d != 0 then ring[At(|ring|, Seat(), d)]
      else if current != null && current.state == Ready then current
      else null
    }

    /** `trail` is what a walk along the links from `start` sees before it meets a ready task
        other than the current one, a null link, its beginning again, or the guard. */
    ghost predicate Walk(start: Task, trail: seq<Task>)
      reads this, trail
    {
      && 0 < |trail| <= GUARD && trail[0] == start
      && (forall k: nat {:trigger trail[k].next} :: k + 1 < |trail| ==>
           trail[k].next == trail[k + 1] && trail[k].next != start)
      && (forall k: nat {:trigger trail[k].state} :: k + 1 < |trail| ==> trail[k].state != Ready || trail[k] == current)
    }

    ghost predicate Wanted(t: Task)
      reads this, t
    {
      t.state == Ready && t != current
    }

    /** What the search returns at the end of its walk. */
    ghost predicate Picks(trail: seq<Task>, r: Task?)
      requires head != null && |trail| > 0
      reads this, current, trail
    {
      var last := trail[|trail| - 1];
      if Wanted(last) then r == last
      else
        && (|trail| == GUARD || last.next == null || last.next == Start())
        && r == if current != null && current.state == Ready then current else null
    }

    /** `pick_next_task` for any links at all: the ring need not be intact. */
    method PickNext() returns (r: Task?, ghost trail: seq<Task>)
      ensures head == null ==> r == null
      ensures head != null ==> Walk(Start(), trail) && Picks(trail, r)
    {
      trail := [];
      if head == null { return null, trail; }
      var start: Task := if current != null && current.next != null then current.next else head;
      var temp: Task := start;
      var fallback: Task? := null;
      var guard := 0;
      trail := [temp];
      while guard < 0xFFFF
        invariant 0 <= guard <= GUARD && |trail| == guard + 1 && trail[guard] == temp
        invariant guard < GUARD ==> Walk(start, trail)
        invariant guard == GUARD ==> Walk(start, trail[..guard]) && !Wanted(trail[guard - 1])
        invariant fallback != null ==> fallback == current && current.state == Ready
      {
        if temp.state == Ready && temp != current { return temp, trail; }
        if fallback == null && temp.state == Ready { fallback := temp; }
        if temp.next == null || temp.next == start { break; }
        temp := temp.next;
        trail := trail + [temp];
        guard := guard + 1;
      }
      if guard == GUARD { trail := trail[..guard]; }
      if current != null && current.state == Ready { return current, trail; }
      return fallback, trail;
    }

    lemma {:induction false} StartsAfterSeat()
      requires Valid() && Start() in ring
      ensures Start() == ring[At(|ring|, Seat(), 1)]
    {
      if current in ring {
        assert ring[Place(ring, current)].next == ring[Succ(|ring|, Place(ring, current))];
      }
    }

    /** On an intact ring the walk goes round in order and at most once. */
    lemma {:induction false} WalkGoesRound(trail: seq<Task>, k: nat)
      requires Valid() && Start() in ring && Walk(Start(), trail) && k < |trail|
      ensures k < |ring| && trail[k] == ring[At(|ring|, Seat(), k + 1)]
    {
      hide Seat;
      StartsAfterSeat();
      if k > 0 {
        WalkGoesRound(trail, k - 1);
        var i := At(|ring|, Seat(), k);
        assert trail[k - 1].next == ring[i].next == ring[Succ(|ring|, i)];
      }
    }

    /** Only the seat itself is the current task, if any place is. */
    lemma {:induction false} SeatOfCurrent(d: nat)
      requires Valid() && Start() in ring && 1 <= d <= |ring|
      ensures ring[At(|ring|, Seat(), d)] == current <==> (current in ring && d == |ring|)
    {
      if current in ring { OnlyOnce(ring, At(|ring|, Seat(), d), Place(ring, current)); }
    }

    /** A place the walk has seen and gone past is not ready. */
    lemma {:induction false} SeenNotReady(trail: seq<Task>, d: nat)
      requires Valid() && Start() in ring && Walk(Start(), trail) && 1 <= d <= |trail| && d <= Far()
      ensures d <= |ring| && States()[At(|ring|, Seat(), d)] == trail[d - 1].state && trail[d - 1] != current
      ensures d < |trail| ==> trail[d - 1].state != Ready
    {
      hide Seat, Start;
      WalkGoesRound(trail, d - 1);
      SeatOfCurrent(d);
    }

    /** A walk that came back to its beginning has seen the whole ring. */
    lemma {:induction false} SeenAll(trail: seq<Task>)
      requires Valid() && Start() in ring && Walk(Start(), trail)
      ensures var last := trail[|trail| - 1]; last.next != null && (last.next == Start() ==> |trail| == |ring|)
      ensures |trail| <= |ring| && (trail[|trail| - 1] != current ==> |trail| <= Far())
    {
      hide Seat, Start;
      var n, m := |ring|, |trail|;
      WalkGoesRound(trail, m - 1);
      StartsAfterSeat();
      SeatOfCurrent(m);
      var i := At(n, Seat(), m);
      assert trail[m - 1].next == ring[i].next == ring[Succ(n, i)];
      OnlyOnce(ring, Succ(n, i), At(n, Seat(), 1));
    }

    /** On an intact ring the search returns the first ready task in cyclic order. */
    lemma {:induction false} PickIsChosen(trail: seq<Task>, r: Task?)
      requires Valid() && Start() in ring && Walk(Start(), trail) && Picks(trail, r)
      ensures r == Chosen()
    {
      hide Seat, Start, At;
      var n, c, m := |ring|, Seat(), |trail|;
      SeenAll(trail);
      forall d: nat | 1 <= d <= m && d <= Far()
        ensures States()[At(n, c, d)] == trail[d - 1].state && (d < m ==> trail[d - 1].state != Ready)
      {
        SeenNotReady(trail, d);
      }
      if Wanted(trail[m - 1]) {
        WalkGoesRound(trail, m - 1);
        assert FirstReady(States(), c, 1, Far()) == m;
      } else {
        if m <= Far() { SeenNotReady(trail, m); }
        assert FirstReady(States(), c, 1, Far()) == 0;
      }
    }

    lemma {:induction false} ChosenInRing()
      requires Valid() && current in ring
      ensures Start() in ring && Seat() == Place(ring, current)
      ensures var i := Next(States(), Seat());
        if i == Seat() then (Chosen() == null || Chosen() == current) && AfterSwitch(States(), Seat()) == States()
        else Chosen() == ring[i] != current
    {
      assert ring[Place(ring, current)].next == ring[Succ(|ring|, Place(ring, current))];
      OnlyOnce(ring, Next(States(), Seat()), Seat());
    }

    lemma {:induction false} SwitchedStates(was: seq<State>, c: nat)
      requires |was| == |ring| && c < |ring|
      requires Next(was, c) != c && ring[Next(was, c)].state == Running
      requires ring[c].state == if was[c] == Running then Ready else was[c]
      requires forall k: nat :: k < |ring| && k != Next(was, c) && k != c ==> ring[k].state == was[k]
      ensures States() == AfterSwitch(was, c)
    {
      hide Next;
    }

    /** `schedule`, when the search starts on the ring. */
    method Schedule()
      requires Valid() && (ring != [] ==> Start() in ring)
      modifies this`current, current, ring
      ensures Valid()
      ensures old(current) == null || ring == [] || old(Chosen()) == null ==> current == old(current)
      ensures old(current) != null && ring != [] && old(Chosen()) != null ==> current == old(Chosen())
      ensures current == old(current) != null ==> current.state == old(current.state)
      ensures current != old(current) ==> current.state == Running
      ensures current != old(current) ==>
        old(current).state == if old(current.state) == Running then Ready else old(current.state)
      ensures forall u :: u in ring && u != current && u != old(current) ==> u.state == old(u.state)
      ensures old(current) in ring ==>
        var c := Place(ring, old(current));
        current == ring[Next(old(States()), c)] && States() == AfterSwitch(old(States()), c)
    {
      hide FirstReady, Place, Next, AfterSwitch, NoDuplicates;
      var prev := current;
      var next, trail := PickNext();
      if ring != [] { PickIsChosen(trail, next); }
      if current in ring { ChosenInRing(); }
      if next == null || next == prev || prev == null { return; }
      SwitchTo(next);
    }

    method SwitchTo(next: Task)
      requires Valid() && current != null && next in ring && next != current
      modifies this`current, current, next
      ensures Valid() && current == next && next.state == Running
      ensures old(current).state == if old(current.state) == Running then Ready else old(current.state)
      ensures old(current) in ring && next == ring[Next(old(States()), Place(ring, old(current)))] ==>
        States() == AfterSwitch(old(States()), Place(ring, old(current)))
    {
      hide FirstReady, Place, Next, AfterSwitch, NoDuplicates;
      var prev := current;
      if prev.state == Running { prev.state := Ready; }
      next.state := Running;
      current := next;
      if prev in ring && next == ring[Next(old(States()), Place(ring, prev))] {
        ghost var c := Place(ring, prev);
        forall k: nat | k < |ring| && k != Next(old(States()), c) && k != c ensures ring[k].state == old(States())[k] {
          OnlyOnce(ring, k, c);
          OnlyOnce(ring, k, Next(old(States()), c));
        }
        SwitchedStates(old(States()), c);
      }
    }
  }
}
