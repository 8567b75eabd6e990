/** A pool of lanes over one shared counter: `mapConcurrent` (web/lib/batch.ts). */
module WorkerPool {
  import opened Prelude

  /** Where a lane stands between two of its synchronous stretches. */
  datatype Lane = Ready | Running(index: nat) | Done

  /** `handed` records the indices given to the worker, in order. */
  datatype Pool<R> = Pool(next: nat, lanes: seq<Lane>, out: seq<Option<R>>, handed: seq<nat>)

  type Worker<!T, R> = (T, nat) -> R

  function LaneCount(concurrency: int, n: nat): nat {
    Max(1, Min(concurrency, n))
  }

  function Start<R>(n: nat, lanes: nat): Pool<R> {
    Pool(0, seq(lanes, _ => Ready), seq(n, _ => None), [])
  }

  /** One lane runs from an await to the next: it stores its result and takes the next index. */
  function Step<T, R>(items: seq<T>, worker: Worker<T, R>, p: Pool<R>, l: nat): Pool<R>
    requires Steppable(items, p, l)
  {
    var out := if p.lanes[l].Running? then
                 p.out[p.lanes[l].index := Some(worker(items[p.lanes[l].index], p.lanes[l].index))]
               else p.out;
    if p.next >= |items| then Pool(p.next + 1, p.lanes[l := Done], out, p.handed)
    else Pool(p.next + 1, p.lanes[l := Running(p.next)], out, p.handed + [p.next])
  }

  predicate Enabled<R>(p: Pool<R>, l: nat) {
    l < |p.lanes| && p.lanes[l] != Done
  }

  /** The lane can move, and the index it holds is one of the items. */
  predicate Steppable<T, R>(items: seq<T>, p: Pool<R>, l: nat) {
    && Enabled(p, l)
    && |p.out| == |items|
    && (p.lanes[l].Running? ==> p.lanes[l].index < |items|)
  }

  /** Lanes that have not returned yet. */
  function Active(lanes: seq<Lane>): (c: nat)
    ensures c <= |lanes|
  {
    if lanes == [] then 0
    else (if lanes[|lanes| - 1] == Done then 0 else 1) + Active(lanes[..|lanes| - 1])
  }

  /** Calls of the worker that have not resolved. */
  function InFlight(lanes: seq<Lane>): (c: nat)
    ensures c <= Active(lanes)
  {
    if lanes == [] then 0
    else (if lanes[|lanes| - 1].Running? then 1 else 0) + InFlight(lanes[..|lanes| - 1])
  }

  function Handed(p: Pool, n: nat): nat {
    Min(p.next, n)
  }

  ghost predicate Runs(lanes: seq<Lane>, i: nat) {
    exists l :: 0 <= l < |lanes| && lanes[l] == Running(i)
  }

  /** Index `i` is not yet handed out, or with exactly one lane, or stored. */
  ghost predicate IndexState<T, R>(items: seq<T>, worker: Worker<T, R>, p: Pool<R>, i: nat)
    requires i < |items| == |p.out|
  {
    && (p.out[i].Some? ==> i < p.next && p.out[i] == Some(worker(items[i], i)) && !Runs(p.lanes, i))
    && (p.out[i].None? ==> (Runs(p.lanes, i) <==> i < p.next))
  }

  ghost predicate Inv<T, R>(items: seq<T>, worker: Worker<T, R>, p: Pool<R>) {
    && |p.out| == |items|
    && (forall l :: 0 <= l < |p.lanes| && p.lanes[l].Running? ==> p.lanes[l].index < Handed(p, |items|))
    && (forall l, m :: 0 <= l < m < |p.lanes| && p.lanes[l].Running? ==> p.lanes[l] != p.lanes[m])
    && (forall i :: 0 <= i < |items| ==> IndexState(items, worker, p, i))
    && (forall l :: 0 <= l < |p.lanes| && p.lanes[l] == Done ==> p.next >= |items|)
    && |p.handed| == Handed(p, |items|)
    && (forall k :: 0 <= k < |p.handed| ==> p.handed[k] == k)
  }

  lemma RunsAfter(lanes: seq<Lane>, l: nat, x: Lane, i: nat)
    requires l < |lanes|
    requires forall j, m :: 0 <= j < m < |lanes| && lanes[j].Running? ==> lanes[j] != lanes[m]
    ensures Runs(lanes[l := x], i) <==> x == Running(i) || (Runs(lanes, i) && lanes[l] != Running(i))
  {
    var after := lanes[l := x];
    if x == Running(i) {
      assert after[l] == Running(i);
    } else if Runs(lanes, i) && lanes[l] != Running(i) {
      var m :| 0 <= m < |lanes| && lanes[m] == Running(i);
      assert after[m] == Running(i);
    }
    if Runs(after, i) && x != Running(i) {
      var m :| 0 <= m < |after| && after[m] == Running(i);
      assert lanes[m] == Running(i);
    }
  }

  lemma StepIndex<T, R>(items: seq<T>, worker: Worker<T, R>, p: Pool<R>, l: nat, i: nat)
    requires Inv(items, worker, p) && Enabled(p, l) && i < |items|
    ensures IndexState(items, worker, Step(items, worker, p, l), i)
  {
    assert IndexState(items, worker, p, i);
    var x := if p.next >= |items| then Done else Running(p.next);
    RunsAfter(p.lanes, l, x, i);
    if p.lanes[l] == Running(i) {
      assert Runs(p.lanes, i);
    }
  }

  lemma StepInv<T, R>(items: seq<T>, worker: Worker<T, R>, p: Pool<R>, l: nat)
    requires Inv(items, worker, p) && Enabled(p, l)
    ensures Inv(items, worker, Step(items, worker, p, l))
  {
    forall i | 0 <= i < |items| ensures IndexState(items, worker, Step(items, worker, p, l), i) {
      StepIndex(items, worker, p, l, i);
    }
  }

  // ----- progress -----------------------------------------------------------------------

  /** Steps still to come: one per index not handed out and one per active lane. */
  function Remaining<R>(p: Pool<R>, n: nat): nat {
    n - Handed(p, n) + Active(p.lanes)
  }

  lemma {:induction false} ActiveUpdate(lanes: seq<Lane>, l: nat, x: Lane)
    requires l < |lanes| && lanes[l] != Done
    ensures Active(lanes[l := x]) == Active(lanes) - (if x == Done then 1 else 0)
  {
    var n := |lanes| - 1;
    var after := lanes[l := x];
    if l < n {
      assert after[..n] == lanes[..n][l := x];
      ActiveUpdate(lanes[..n], l, x);
    } else {
      assert after[..n] == lanes[..n];
    }
  }

  /** Whichever lane moves, exactly one step less remains. */
  lemma StepCounts<T, R>(items: seq<T>, worker: Worker<T, R>, p: Pool<R>, l: nat)
    requires Inv(items, worker, p) && Enabled(p, l)
    ensures Remaining(Step(items, worker, p, l), |items|) == Remaining(p, |items|) - 1
  {
    ActiveUpdate(p.lanes, l, if p.next >= |items| then Done else Running(p.next));
  }

  lemma {:induction false} NoneActive(lanes: seq<Lane>)
    ensures Active(lanes) == 0 <==> forall l :: 0 <= l < |lanes| ==> lanes[l] == Done
  {
    if lanes != [] {
      NoneActive(lanes[..|lanes| - 1]);
      assert forall l :: 0 <= l < |lanes| - 1 ==> lanes[..|lanes| - 1][l] == lanes[l];
    }
  }

  /** When every lane has returned, the output is the sequential map in input order. */
  lemma FinishedOutput<T, R>(items: seq<T>, worker: Worker<T, R>, p: Pool<R>)
    requires Inv(items, worker, p) && |p.lanes| > 0 && Active(p.lanes) == 0
    ensures forall i :: 0 <= i < |items| ==> p.out[i] == Some(worker(items[i], i))
    ensures |p.handed| == |items|
  {
    NoneActive(p.lanes);
    assert p.lanes[0] == Done;
    forall i | 0 <= i < |items| ensures p.out[i] == Some(worker(items[i], i)) {
      assert IndexState(items, worker, p, i);
    }
  }

  // ----- every schedule ---------------------------------------------------------------------

  /** The lanes can be run in this order: each one is still active when its turn comes. */
  ghost predicate Follows<T, R>(items: seq<T>, worker: Worker<T, R>, p: Pool<R>, schedule: seq<nat>, q: Pool<R>)
    decreases |schedule|
  {
    if schedule == [] then p == q
    else
      && Steppable(items, p, schedule[0])
      && Follows(items, worker, Step(items, worker, p, schedule[0]), schedule[1..], q)
  }

  lemma {:induction false} ScheduleKeeps<T, R>(
    items: seq<T>, worker: Worker<T, R>, p: Pool<R>, schedule: seq<nat>, q: Pool<R>)
    requires Inv(items, worker, p) && Follows(items, worker, p, schedule, q)
    ensures Inv(items, worker, q) && |q.lanes| == |p.lanes|
    ensures Remaining(q, |items|) == Remaining(p, |items|) - |schedule|
    decreases |schedule|
  {
    if schedule != [] {
      StepInv(items, worker, p, schedule[0]);
      StepCounts(items, worker, p, schedule[0]);
      ScheduleKeeps(items, worker, Step(items, worker, p, schedule[0]), schedule[1..], q);
    }
  }

  lemma {:induction false} AllReady(lanes: nat)
    ensures Active(seq(lanes, _ => Ready)) == lanes
    decreases lanes
  {
    var s: seq<Lane> := seq(lanes, _ => Ready);
    if lanes > 0 {
      var t: seq<Lane> := seq(lanes - 1, _ => Ready);
      assert s[..lanes - 1] == t;
      AllReady(lanes - 1);
    }
  }

  /** Under every interleaving: there are `concurrency` lanes, but no more than items and at least one;
      no more calls are in flight; each index is handed out once and in order; a lane stays while
      indices are left; no schedule is longer than the items and lanes together, and only one of
      exactly that length ends the pool. */
  lemma EveryInterleaving<T, R>(
    items: seq<T>, worker: Worker<T, R>, concurrency: int, schedule: seq<nat>, q: Pool<R>)
    requires Follows(items, worker, Start<R>(|items|, LaneCount(concurrency, |items|)), schedule, q)
    ensures |q.lanes| == if concurrency < 1 || |items| == 0 then 1
                         else if concurrency < |items| then concurrency else |items|
    ensures InFlight(q.lanes) <= if concurrency < 1 then 1 else concurrency
    ensures forall k :: 0 <= k < |q.handed| ==> q.handed[k] == k
    ensures |q.handed| == Min(q.next, |items|)
    ensures (exists l :: 0 <= l < |q.lanes| && q.lanes[l] == Done) ==> |q.handed| == |items|
    ensures |schedule| <= |items| + |q.lanes|
    ensures Active(q.lanes) == 0 <==> |schedule| == |items| + |q.lanes|
    ensures Active(q.lanes) == 0 ==>
              |q.out| == |items| && forall i :: 0 <= i < |items| ==> q.out[i] == Some(worker(items[i], i))
  {
    var lanes := LaneCount(concurrency, |items|);
    var p := Start<R>(|items|, lanes);
    ScheduleKeeps(items, worker, p, schedule, q);
    AllReady(lanes);
    if Active(q.lanes) == 0 {
      FinishedOutput(items, worker, q);
    }
    if |schedule| == |items| + lanes {
      assert Active(q.lanes) == 0;
    }
  }

  /** The pool after its first `k` lanes have started, before any call resolves. */
  function Opened<R>(n: nat, lanes: nat, k: nat): Pool<R>
    requires k <= lanes && k <= n
  {
    Pool(k, seq(k, (i: nat) => Running(i)) + seq(lanes - k, _ => Ready), seq(n, _ => None), seq(k, (i: nat) => i))
  }

  lemma OpenStep<T, R>(items: seq<T>, worker: Worker<T, R>, lanes: nat, k: nat)
    requires k < lanes && k < |items|
    ensures Steppable(items, Opened<R>(|items|, lanes, k), k)
    ensures Step(items, worker, Opened<R>(|items|, lanes, k), k) == Opened(|items|, lanes, k + 1)
  {
  }

  lemma {:induction false} OpenedInFlight(lanes: nat, k: nat)
    requires k <= lanes
    ensures InFlight(seq(k, (i: nat) => Running(i)) + seq(lanes - k, _ => Ready)) == k
    decreases lanes
  {
    var s: seq<Lane> := seq(k, (i: nat) => Running(i)) + seq(lanes - k, _ => Ready);
    if k < lanes {
      assert s[..lanes - 1] == seq(k, (i: nat) => Running(i)) + seq(lanes - 1 - k, _ => Ready);
      OpenedInFlight(lanes - 1, k);
    } else if k > 0 {
      assert s[..lanes - 1] == seq(k - 1, (i: nat) => Running(i)) + seq(0, _ => Ready);
      OpenedInFlight(lanes - 1, k - 1);
    }
  }

  lemma {:induction false} OpensFrom<T, R>(items: seq<T>, worker: Worker<T, R>, lanes: nat, k: nat, top: nat)
    requires k <= top <= lanes && top <= |items|
    ensures var schedule := seq(top - k, (i: nat) => k + i);
            Follows(items, worker, Opened<R>(|items|, lanes, k), schedule, Opened<R>(|items|, lanes, top))
    decreases top - k
  {
    if k < top {
      var schedule := seq(top - k, (i: nat) => k + i);
      OpenStep(items, worker, lanes, k);
      OpensFrom<T, R>(items, worker, lanes, k + 1, top);
      assert schedule[1..] == seq(top - k - 1, (i: nat) => k + 1 + i);
    }
  }

  /** The bound is reached: some schedule has `concurrency` calls in flight, or all when there are
      fewer items. */
  lemma BoundIsReached<T, R>(items: seq<T>, worker: Worker<T, R>, concurrency: int)
    requires concurrency >= 1
    ensures exists schedule, q ::
              Follows(items, worker, Start<R>(|items|, LaneCount(concurrency, |items|)), schedule, q) &&
              InFlight(q.lanes) == if concurrency < |items| then concurrency else |items|
  {
    var lanes := LaneCount(concurrency, |items|);
    var top := Min(lanes, |items|);
    assert Start<R>(|items|, lanes) == Opened<R>(|items|, lanes, 0);
    OpensFrom<T, R>(items, worker, lanes, 0, top);
    OpenedInFlight(lanes, top);
  }

  /** The pool itself. Which lane runs next is left open, so this covers every interleaving. */
  method MapConcurrent<T, R>(items: seq<T>, concurrency: int, worker: Worker<T, R>) returns (result: seq<R>)
    ensures |result| == |items|
    ensures forall i :: 0 <= i < |items| ==> result[i] == worker(items[i], i)
  {
    var n := |items|;
    var out := new Option<R>[n](_ => None);
    var next := 0;
    var lanes: seq<Lane> := seq(LaneCount(concurrency, n), _ => Ready);
    ghost var p := Start<R>(n, LaneCount(concurrency, n));
    ghost var steps := 0;
    AllReady(|lanes|);
    assert out[..] == p.out;
    while exists l :: 0 <= l < |lanes| && lanes[l] != Done
      invariant p == Pool(next, lanes, out[..], p.handed)
      invariant Inv(items, worker, p) && |lanes| == LaneCount(concurrency, n)
      invariant steps + Remaining(p, n) == n + LaneCount(concurrency, n)
      decreases Remaining(p, n)
    {
      var l :| 0 <= l < |lanes| && lanes[l] != Done;
      StepInv(items, worker, p, l);
      StepCounts(items, worker, p, l);
      p := Step(items, worker, p, l);
      if lanes[l].Running? {
        var done := lanes[l].index;
        out[done] := Some(worker(items[done], done));
      }
      var i := next;
      next := next + 1;
      lanes := lanes[l := if i >= n then Done else Running(i)];
      steps := steps + 1;
    }
    NoneActive(lanes);
    FinishedOutput(items, worker, p);
    result := seq(n, i requires 0 <= i < n && out[i].Some? reads out => out[i].value);
  }
}
