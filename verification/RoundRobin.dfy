/** Round-robin choice of the next task (kernel/Process/task.c): who runs next, and whether a
    waiting task ever runs. */
module RoundRobin {

  datatype State = Ready | Running | Blocked | Zombie

  /** `pick_next_task` looks at no more than this many tasks. */
  const GUARD := 0xFFFF

  /** The place `d` steps after `cur` in a ring of `n`. */
  function At(n: nat, cur: nat, d: nat): (i: nat)
    requires cur < n && d <= n
    ensures i < n
  {
    if cur + d < n then cur + d else cur + d - n
  }

  /** How many steps after `cur` the place `t` is. */
  function Distance(n: nat, cur: nat, t: nat): (d: nat)
    requires cur < n && t < n
    ensures d < n && At(n, cur, d) == t
    ensures forall e: nat :: e < n && At(n, cur, e) == t ==> e == d
  {
    if t >= cur then t - cur else t + n - cur
  }

  /** The least distance in [d, far] at which a task is ready, as far as the guard reaches;
      0 when there is none. */
  function FirstReady(states: seq<State>, cur: nat, d: nat, far: nat): (r: nat)
    requires cur < |states| && 1 <= d && far <= |states|
    ensures r == 0 || (d <= r <= far && r <= GUARD && states[At(|states|, cur, r)] == Ready)
    ensures forall k :: d <= k <= far && k <= GUARD && (r == 0 || k < r) ==> states[At(|states|, cur, k)] != Ready
    decreases far - d
  {
    if d > far || d > GUARD then 0
    else if states[At(|states|, cur, d)] == Ready then d
    else FirstReady(states, cur, d + 1, far)
  }

  /** Who is current after one call of `schedule`. */
  function Next(states: seq<State>, cur: nat): (i: nat)
    requires cur < |states|
    ensures i < |states|
  {
    At(|states|, cur, FirstReady(states, cur, 1, |states| - 1))
  }

  /** A switch hands the running state over. */
  function AfterSwitch(states: seq<State>, cur: nat): (r: seq<State>)
    requires cur < |states|
    ensures |r| == |states|
  {
    var i := Next(states, cur);
    if i == cur then states
    else (if states[cur] == Running then states[cur := Ready] else states)[i := Running]
  }

  // ----- fairness

  /** The states found by successive calls: tasks may block and wake in any way in between. */
  ghost predicate Rounds(envs: seq<seq<State>>, n: nat) {
    forall j :: 0 <= j < |envs| ==> |envs[j]| == n
  }

  /** The current task after the first `k` calls. */
  function CurrentAfter(n: nat, envs: seq<seq<State>>, cur: nat, k: nat): (i: nat)
    requires cur < n && k <= |envs| && Rounds(envs, n)
    ensures i < n
  {
    if k == 0 then cur else Next(envs[k - 1], CurrentAfter(n, envs, cur, k - 1))
  }

  ghost predicate RanBy(n: nat, envs: seq<seq<State>>, cur: nat, t: nat, k: nat)
    requires cur < n && k <= |envs| && Rounds(envs, n)
  {
    exists m: nat :: m <= k && CurrentAfter(n, envs, cur, m) == t
  }

  /** `t` stays ready until it runs. */
  ghost predicate WaitsReady(n: nat, envs: seq<seq<State>>, cur: nat, t: nat)
    requires cur < n && t < n && Rounds(envs, n)
  {
    forall j :: 0 <= j < |envs| && !RanBy(n, envs, cur, t, j) ==> envs[j][t] == Ready
  }

  /** One call runs `t` or brings it strictly closer. */
  lemma {:induction false} CallBringsCloser(states: seq<State>, cur: nat, t: nat)
    requires cur < |states| && t < |states| && cur != t && states[t] == Ready
    requires Distance(|states|, cur, t) <= GUARD
    ensures Distance(|states|, Next(states, cur), t) < Distance(|states|, cur, t)
  {
    var n := |states|;
    var d := FirstReady(states, cur, 1, n - 1);
    assert states[At(n, cur, Distance(n, cur, t))] == Ready;
    assert 1 <= d <= Distance(n, cur, t);
  }

  lemma {:induction false} CloserEachCall(n: nat, envs: seq<seq<State>>, cur: nat, t: nat, k: nat)
    requires cur < n && t < n && k <= |envs| && Rounds(envs, n) && Distance(n, cur, t) <= GUARD
    requires WaitsReady(n, envs, cur, t)
    ensures RanBy(n, envs, cur, t, k)
         || Distance(n, CurrentAfter(n, envs, cur, k), t) + k <= Distance(n, cur, t)
    decreases k
  {
    hide Distance, Next;
    if k > 0 && !RanBy(n, envs, cur, t, k) {
      CloserEachCall(n, envs, cur, t, k - 1);
      assert !RanBy(n, envs, cur, t, k - 1);
      var c := CurrentAfter(n, envs, cur, k - 1);
      CallBringsCloser(envs[k - 1], c, t);
    }
  }

  /** Round-robin fairness: in a ring of fixed membership, a task at distance `d` that stays
      ready until it runs is current within `d` calls, whatever the others do. */
  ghost predicate RunsInTime(n: nat, cur: nat, t: nat)
    requires cur < n && t < n
  {
    forall envs: seq<seq<State>> :: Rounds(envs, n) && WaitsReady(n, envs, cur, t) && |envs| == Distance(n, cur, t)
      ==> RanBy(n, envs, cur, t, |envs|)
  }

  /** All blocked but `t`. */
  function OnlyReady(n: nat, t: nat): seq<State> { seq(n, i => if i == t then Ready else Blocked) }

  function Repeated(n: nat, t: nat, calls: nat): seq<seq<State>> { seq(calls, _ => OnlyReady(n, t)) }

  /** Beyond the guard: when only `t` is ready, the current task keeps the processor for ever. */
  lemma {:induction false} StarvesBeyondGuard(n: nat, cur: nat, t: nat, calls: nat, k: nat)
    requires cur < n && t < n && Distance(n, cur, t) > GUARD && k <= calls
    ensures CurrentAfter(n, Repeated(n, t, calls), cur, k) == cur != t
  {
    if k > 0 {
      StarvesBeyondGuard(n, cur, t, calls, k - 1);
      var states := OnlyReady(n, t);
      assert Repeated(n, t, calls)[k - 1] == states;
      assert FirstReady(states, cur, 1, n - 1) == 0;
    }
  }

  /** The promise holds exactly for tasks within reach of the guard. */
  lemma {:induction false} FairExactly(n: nat, cur: nat, t: nat)
    requires cur < n && t < n
    ensures RunsInTime(n, cur, t) <==> Distance(n, cur, t) <= GUARD
  {
    hide CurrentAfter, OnlyReady;
    var d := Distance(n, cur, t);
    if d <= GUARD {
      forall envs: seq<seq<State>> | Rounds(envs, n) && WaitsReady(n, envs, cur, t) && |envs| == d
        ensures RanBy(n, envs, cur, t, |envs|)
      {
        CloserEachCall(n, envs, cur, t, d);
        if Distance(n, CurrentAfter(n, envs, cur, d), t) == 0 {
          assert CurrentAfter(n, envs, cur, d) == t;
        }
      }
    } else {
      var envs := Repeated(n, t, d);
      forall j | 0 <= j < |envs| ensures |envs[j]| == n && envs[j][t] == Ready { OnlyTReady(n, t); }
      assert Rounds(envs, n) && WaitsReady(n, envs, cur, t);
      forall m: nat | m <= d ensures CurrentAfter(n, envs, cur, m) != t { StarvesBeyondGuard(n, cur, t, d, m); }
      assert !RanBy(n, envs, cur, t, d);
    }
  }

  lemma {:induction false} OnlyTReady(n: nat, t: nat)
    requires t < n
    ensures |OnlyReady(n, t)| == n && OnlyReady(n, t)[t] == Ready
  {
  }
}
