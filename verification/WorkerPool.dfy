/** `mapConcurrent`: workers that share one index into the items. Between two awaits JavaScript
    runs one worker alone, so a step is one such segment. */
module WorkerPool {
  import opened Prelude

  datatype Worker = Free | Busy(item: nat) | Finished | Crashed

  datatype Progress = Unstarted | Running | Returned | Threw

  /** `started` records the items in the order their runs began. */
  datatype Pool = Pool(index: nat, workers: seq<Worker>, items: seq<Progress>, started: seq<nat>)

  /** How far the run of an item gets before it first waits. */
  datatype Segment = Awaits | Returns | Throws

  /** `Take`: a worker tests the loop condition and, if items are left, begins the next one;
      `End`: the run a worker waits for returns or throws. */
  datatype Step = Take(w: nat, segment: Segment) | End(w: nat, ok: bool)

  function Start(n: nat, concurrency: nat): Pool {
    Pool(0, seq(Min(concurrency, n), _ => Free), seq(n, _ => Unstarted), [])
  }

  predicate Enabled(p: Pool, step: Step) {
    && step.w < |p.workers|
    && match step
       case Take(w, _) => p.workers[w].Free?
       case End(w, _) => p.workers[w].Busy?
  }

  function AfterSegment(i: nat, segment: Segment): (Worker, Progress) {
    match segment
    case Awaits => (Busy(i), Running)
    case Returns => (Free, Returned)
    case Throws => (Crashed, Threw)
  }

  function Apply(p: Pool, step: Step): Pool {
    if !Enabled(p, step) then p else
    match step
    case Take(w, segment) =>
      if p.index < |p.items| then
        var (worker, progress) := AfterSegment(p.index, segment);
        Pool(p.index + 1, p.workers[w := worker], p.items[p.index := progress], p.started + [p.index])
      else
        p.(workers := p.workers[w := Finished])
    case End(w, ok) =>
      var i := p.workers[w].item;
      if i < |p.items| then
        p.(workers := p.workers[w := if ok then Free else Crashed],
           items := p.items[i := if ok then Returned else Threw])
      else
        p
  }

  function Run(n: nat, concurrency: nat, steps: seq<Step>): Pool {
    if steps == [] then Start(n, concurrency) else
      Apply(Run(n, concurrency, steps[..|steps| - 1]), steps[|steps| - 1])
  }

  // ---- invariants ----

  predicate WorkerOk(p: Pool, w: nat)
    requires w < |p.workers|
  {
    match p.workers[w]
    case Free => true
    case Busy(i) => i < p.index && i < |p.items| && p.items[i].Running?
    case Finished => p.index == |p.items|
    case Crashed => exists i :: 0 <= i < |p.items| && p.items[i].Threw?
  }

  ghost predicate Held(p: Pool, i: nat) {
    exists w :: 0 <= w < |p.workers| && p.workers[w] == Busy(i)
  }

  ghost predicate Inv(p: Pool) {
    && p.index <= |p.items|
    && |p.started| == p.index && (forall k :: 0 <= k < |p.started| ==> p.started[k] == k)
    && (forall i :: 0 <= i < |p.items| ==> (p.items[i].Unstarted? <==> p.index <= i))
    && (forall i :: 0 <= i < |p.items| && p.items[i].Running? ==> Held(p, i))
    && (forall w :: 0 <= w < |p.workers| ==> WorkerOk(p, w))
    && (forall v, w :: 0 <= v < w < |p.workers| && p.workers[v].Busy? ==> p.workers[v] != p.workers[w])
  }

  lemma StillHeld(p: Pool, step: Step, i: nat)
    requires Inv(p) && i < |p.items| && Apply(p, step).items[i].Running?
    ensures Held(Apply(p, step), i)
  {
    var p' := Apply(p, step);
    if p.items[i].Running? {
      var w :| 0 <= w < |p.workers| && p.workers[w] == Busy(i);
      assert WorkerOk(p, w);
      assert p'.workers[w] == Busy(i);
    } else {
      assert p'.workers[step.w] == Busy(i);
    }
  }

  lemma StillOk(p: Pool, step: Step, w: nat)
    requires Inv(p) && w < |p.workers|
    ensures WorkerOk(Apply(p, step), w)
  {
    var p' := Apply(p, step);
    assert WorkerOk(p, w);
    if Enabled(p, step) {
      assert WorkerOk(p, step.w);
      if p'.workers[w].Crashed? {
        if w == step.w {
          var i := if step.Take? then p.index else p.workers[w].item;
          assert p'.items[i].Threw?;
        } else {
          var i :| 0 <= i < |p.items| && p.items[i].Threw?;
          assert p'.items[i].Threw?;
        }
      }
    }
  }

  lemma StepKeepsInv(p: Pool, step: Step)
    requires Inv(p)
    ensures Inv(Apply(p, step))
  {
    var p' := Apply(p, step);
    forall i | 0 <= i < |p'.items| && p'.items[i].Running? ensures Held(p', i) {
      StillHeld(p, step, i);
    }
    forall w | 0 <= w < |p'.workers| ensures WorkerOk(p', w) && WorkerOk(p, w) {
      StillOk(p, step, w);
    }
    if Enabled(p, step) {
      assert WorkerOk(p, step.w);
      forall w | 0 <= w < |p.workers| && p.workers[w].Busy? ensures p.workers[w].item < p.index {
        assert WorkerOk(p, w);
      }
    }
  }

  lemma {:induction false} Invariant(n: nat, concurrency: nat, steps: seq<Step>)
    ensures var p := Run(n, concurrency, steps);
      Inv(p) && |p.items| == n && |p.workers| == Min(concurrency, n)
  {
    if steps != [] {
      Invariant(n, concurrency, steps[..|steps| - 1]);
      StepKeepsInv(Run(n, concurrency, steps[..|steps| - 1]), steps[|steps| - 1]);
    }
  }

  // ---- what the pool promises ----

  /** Items are begun one by one in their order, each at most once. */
  lemma StartedOnceInOrder(n: nat, concurrency: nat, steps: seq<Step>)
    ensures var p := Run(n, concurrency, steps);
      && |p.items| == n && p.started == seq(p.index, k => k)
      && forall i :: 0 <= i < n ==> (p.items[i].Unstarted? <==> i !in p.started)
  {
    Invariant(n, concurrency, steps);
    var p := Run(n, concurrency, steps);
    forall i | 0 <= i < n ensures p.items[i].Unstarted? <==> i !in p.started {
      if i < p.index {
        assert p.started[i] == i;
      }
    }
  }

  function InFlight(p: Pool): set<nat> {
    set i: nat | i < |p.items| && p.items[i].Running?
  }

  function HeldBy(workers: seq<Worker>): set<nat> {
    if workers == [] then {} else
      HeldBy(workers[1..]) + (if workers[0].Busy? then {workers[0].item} else {})
  }

  lemma {:induction false} HeldByBound(workers: seq<Worker>)
    ensures |HeldBy(workers)| <= |workers|
    ensures forall w :: 0 <= w < |workers| && workers[w].Busy? ==> workers[w].item in HeldBy(workers)
  {
    if workers != [] {
      HeldByBound(workers[1..]);
      forall w | 0 <= w < |workers| && workers[w].Busy? ensures workers[w].item in HeldBy(workers) {
        assert w > 0 ==> workers[1..][w - 1] == workers[w];
      }
    }
  }

  lemma SmallerSet(a: set<nat>, b: set<nat>)
    requires a <= b
    ensures |a| <= |b|
  {
    assert b == a + (b - a);
  }

  /** Never more than `min(concurrency, n)` items are in flight. */
  lemma BoundedInFlight(n: nat, concurrency: nat, steps: seq<Step>)
    ensures |InFlight(Run(n, concurrency, steps))| <= Min(concurrency, n)
  {
    Invariant(n, concurrency, steps);
    var p := Run(n, concurrency, steps);
    HeldByBound(p.workers);
    forall i | i in InFlight(p) ensures i in HeldBy(p.workers) {
      assert Held(p, i);
    }
    SmallerSet(InFlight(p), HeldBy(p.workers));
  }

  /** The promise of `mapConcurrent` resolves when every worker has finished. */
  predicate Resolved(p: Pool) {
    forall w :: 0 <= w < |p.workers| ==> p.workers[w].Finished?
  }

  /** No worker will take another step. */
  predicate Quiet(p: Pool) {
    forall w :: 0 <= w < |p.workers| ==> p.workers[w].Finished? || p.workers[w].Crashed?
  }

  /** Once quiet, with at least one worker that finished every item was run to its end; without
      one, only begun items were. */
  lemma QuietMeansRun(n: nat, concurrency: nat, steps: seq<Step>, i: nat)
    requires concurrency > 0 && Quiet(Run(n, concurrency, steps)) && i < n
    ensures var p := Run(n, concurrency, steps);
      && |p.items| == n && !p.items[i].Running?
      && (p.items[i].Unstarted? ==> forall w :: 0 <= w < |p.workers| ==> p.workers[w].Crashed?)
  {
    Invariant(n, concurrency, steps);
    var p := Run(n, concurrency, steps);
    assert p.items[i].Running? ==> Held(p, i);
    forall w | 0 <= w < |p.workers| && p.items[i].Unstarted? ensures p.workers[w].Crashed? {
      assert WorkerOk(p, w);
    }
  }

  /** A resolved call has begun every item exactly once, in order, and has none in flight. */
  lemma ResolvedMeansAllStarted(n: nat, concurrency: nat, steps: seq<Step>)
    requires concurrency > 0 && Resolved(Run(n, concurrency, steps))
    ensures var p := Run(n, concurrency, steps);
      && |p.items| == n && p.started == seq(n, k => k)
      && forall i :: 0 <= i < n ==> p.items[i].Returned? || p.items[i].Threw?
  {
    Invariant(n, concurrency, steps);
    var p := Run(n, concurrency, steps);
    forall i | 0 <= i < n ensures p.items[i].Returned? || p.items[i].Threw? {
      QuietMeansRun(n, concurrency, steps, i);
      assert p.workers[0].Finished?;
    }
    if n > 0 {
      assert WorkerOk(p, 0);
    }
  }
}
