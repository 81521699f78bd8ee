/** `dispatchPending`: claimed messages worked off by a pool, each ending in exactly one counter. */
module OutboxDispatch {
  import opened WorkerPool

  datatype Status = Absent | Active | Completed | Unknown | Invalid

  /** What the parts before the first await do. `Goes(false)`: there is no probe function, or
      marking the dispatch as started throws. */
  datatype Begin = BadCommand | StatusThrows | NotExecuting | Goes(ok: bool)

  datatype ProbeReply = ProbeRejects | Answers(status: Status, referenceOk: bool, recorded: bool)

  /** `marked`: the store took the reference as delivered; otherwise it threw and the reference
      was recorded late, or not at all. */
  datatype DispatchReply = DispatchRejects | Dispatched(referenceOk: bool, marked: bool)

  /** Where a message stands; all but the first two are ends. */
  datatype Fate = Waiting | Asked | ProbedAs(status: Status) | ProbeFailed | Delivered | Failed | Lost

  datatype Call = Probe(i: nat) | Dispatch(i: nat)

  datatype Counters = Counters(claimed: nat, probed: nat, absent: nat, active: nat, completed: nat,
                               unknown: nat, dispatched: nat, delivered: nat, failed: nat)

  datatype State = State(pool: Pool, needsProbe: seq<bool>, fates: seq<Fate>, counters: Counters, calls: seq<Call>)

  datatype Step =
    | Begins(w: nat, begin: Begin)
    | ProbeEnds(w: nat, probe: ProbeReply)
    | DispatchEnds(w: nat, dispatch: DispatchReply)

  function ProbeFate(reply: ProbeReply): Fate {
    match reply
    case ProbeRejects => ProbeFailed
    case Answers(status, referenceOk, recorded) =>
      if status.Invalid? then ProbeFailed
      else if (status.Active? || status.Completed?) && !referenceOk then ProbeFailed
      else if !recorded then ProbeFailed
      else ProbedAs(status)
  }

  function DispatchFate(reply: DispatchReply): Fate {
    if reply.Dispatched? && reply.referenceOk && reply.marked then Delivered else Failed
  }

  /** The counters a message adds to when its run ends. */
  function CountEnd(c: Counters, fate: Fate): Counters {
    match fate
    case ProbeFailed => c.(unknown := c.unknown + 1, failed := c.failed + 1)
    case ProbedAs(Absent) => c.(absent := c.absent + 1)
    case ProbedAs(Active) => c.(active := c.active + 1, delivered := c.delivered + 1)
    case ProbedAs(Completed) => c.(completed := c.completed + 1, delivered := c.delivered + 1)
    case ProbedAs(Unknown) => c.(unknown := c.unknown + 1, delivered := c.delivered + 1)
    case Delivered => c.(delivered := c.delivered + 1)
    case Failed => c.(failed := c.failed + 1)
    case _ => c
  }

  /** The first segment of the run of message `i`: its fate, the counters and the call made. */
  function Opening(needsProbe: bool, begin: Begin, c: Counters, i: nat): (Fate, Counters, seq<Call>) {
    match begin
    case BadCommand => (Failed, CountEnd(c, Failed), [])
    case StatusThrows => (Lost, c, [])
    case NotExecuting => (Failed, CountEnd(c, Failed), [])
    case Goes(ok) =>
      if needsProbe then
        var probed := c.(probed := c.probed + 1);
        if ok then (Asked, probed, [Probe(i)]) else (ProbeFailed, CountEnd(probed, ProbeFailed), [])
      else if ok then (Asked, c.(dispatched := c.dispatched + 1), [Dispatch(i)])
      else (Failed, CountEnd(c, Failed), [])
  }

  function SegmentOf(fate: Fate): Segment {
    match fate
    case Asked => Awaits
    case Lost => Throws
    case _ => Returns
  }

  function Start(needsProbe: seq<bool>, concurrency: nat): State {
    var n := |needsProbe|;
    State(WorkerPool.Start(n, concurrency), needsProbe, seq(n, _ => Waiting), Counters(n, 0, 0, 0, 0, 0, 0, 0, 0), [])
  }

  predicate Holds(s: State, w: nat) {
    && w < |s.pool.workers| && s.pool.workers[w].Busy?
    && s.pool.workers[w].item < |s.fates| && s.pool.workers[w].item < |s.needsProbe|
  }

  function Ends(s: State, w: nat, fate: Fate): State
    requires Holds(s, w)
  {
    var i := s.pool.workers[w].item;
    s.(pool := WorkerPool.Apply(s.pool, End(w, true)), fates := s.fates[i := fate],
         counters := CountEnd(s.counters, fate))
  }

  function Apply(s: State, step: Step): State {
    match step
    case Begins(w, begin) =>
      var i := s.pool.index;
      if !WorkerPool.Enabled(s.pool, Take(w, Awaits)) then s
      else if i < |s.fates| && i < |s.needsProbe| then
        var (fate, counters, calls) := Opening(s.needsProbe[i], begin, s.counters, i);
        State(WorkerPool.Apply(s.pool, Take(w, SegmentOf(fate))), s.needsProbe, s.fates[i := fate], counters,
              s.calls + calls)
      else
        s.(pool := WorkerPool.Apply(s.pool, Take(w, Awaits)))
    case ProbeEnds(w, reply) =>
      if Holds(s, w) && s.needsProbe[s.pool.workers[w].item] then Ends(s, w, ProbeFate(reply)) else s
    case DispatchEnds(w, reply) =>
      if Holds(s, w) && !s.needsProbe[s.pool.workers[w].item] then Ends(s, w, DispatchFate(reply)) else s
  }

  function Run(needsProbe: seq<bool>, concurrency: nat, steps: seq<Step>): State {
    if steps == [] then Start(needsProbe, concurrency) else
      Apply(Run(needsProbe, concurrency, steps[..|steps| - 1]), steps[|steps| - 1])
  }

  // ---- the pool inside ----

  predicate Matches(fate: Fate, progress: Progress) {
    match progress
    case Unstarted => fate.Waiting?
    case Running => fate.Asked?
    case Threw => fate.Lost?
    case Returned => !fate.Waiting? && !fate.Asked? && !fate.Lost?
  }

  ghost predicate PoolInv(s: State) {
    && WorkerPool.Inv(s.pool)
    && |s.fates| == |s.pool.items| == |s.needsProbe|
    && forall i :: 0 <= i < |s.fates| ==> Matches(s.fates[i], s.pool.items[i])
  }

  /** A step of the batch is a step of `mapConcurrent`, or none. */
  lemma StepsThePool(s: State, step: Step)
    requires PoolInv(s)
    ensures PoolInv(Apply(s, step))
    ensures Apply(s, step).pool == s.pool || exists p :: Apply(s, step).pool == WorkerPool.Apply(s.pool, p)
    ensures Apply(s, step).needsProbe == s.needsProbe
  {
    if step.Begins? && WorkerPool.Enabled(s.pool, Take(step.w, Awaits)) {
      var p := if s.pool.index < |s.fates|
        then Take(step.w, SegmentOf(Opening(s.needsProbe[s.pool.index], step.begin, s.counters, s.pool.index).0))
        else Take(step.w, Awaits);
      StepKeepsInv(s.pool, p);
      assert Apply(s, step).pool == WorkerPool.Apply(s.pool, p);
    } else if !step.Begins? && Holds(s, step.w) {
      assert WorkerOk(s.pool, step.w);
      StepKeepsInv(s.pool, End(step.w, true));
    }
  }

  lemma {:induction false} RunsThePool(needsProbe: seq<bool>, concurrency: nat, steps: seq<Step>)
    returns (poolSteps: seq<WorkerPool.Step>)
    ensures PoolInv(Run(needsProbe, concurrency, steps)) && Run(needsProbe, concurrency, steps).needsProbe == needsProbe
    ensures Run(needsProbe, concurrency, steps).pool == WorkerPool.Run(|needsProbe|, concurrency, poolSteps)
  {
    if steps == [] {
      poolSteps := [];
      WorkerPool.Invariant(|needsProbe|, concurrency, []);
    } else {
      var s := Run(needsProbe, concurrency, steps[..|steps| - 1]);
      var step := steps[|steps| - 1];
      poolSteps := RunsThePool(needsProbe, concurrency, steps[..|steps| - 1]);
      StepsThePool(s, step);
      if Apply(s, step).pool != s.pool {
        var p :| Apply(s, step).pool == WorkerPool.Apply(s.pool, p);
        assert (poolSteps + [p])[..|poolSteps|] == poolSteps;
        poolSteps := poolSteps + [p];
      }
    }
  }

  // ---- conservation ----

  /** The number of messages with the given fate. */
  function Count(fates: seq<Fate>, fate: Fate): nat {
    multiset(fates)[fate]
  }

  predicate Tallied(c: Counters, fates: seq<Fate>) {
    && c.claimed == |fates|
    && c.absent == Count(fates, ProbedAs(Absent))
    && c.active == Count(fates, ProbedAs(Active))
    && c.completed == Count(fates, ProbedAs(Completed))
    && c.unknown == Count(fates, ProbedAs(Unknown)) + Count(fates, ProbeFailed)
    && c.delivered == c.active + c.completed + Count(fates, ProbedAs(Unknown)) + Count(fates, Delivered)
    && c.failed == Count(fates, Failed) + Count(fates, ProbeFailed)
    && Count(fates, ProbedAs(Invalid)) == 0
  }

  lemma EndTallied(c: Counters, fates: seq<Fate>, i: nat, fate: Fate)
    requires Tallied(c, fates) && i < |fates| && (fates[i].Waiting? || fates[i].Asked?)
    requires fate != ProbedAs(Invalid)
    ensures Tallied(CountEnd(c, fate), fates[i := fate])
  {
    CountUpdate(fates, i, fate, ProbedAs(Absent));
    CountUpdate(fates, i, fate, ProbedAs(Active));
    CountUpdate(fates, i, fate, ProbedAs(Completed));
    CountUpdate(fates, i, fate, ProbedAs(Unknown));
    CountUpdate(fates, i, fate, ProbedAs(Invalid));
    CountUpdate(fates, i, fate, ProbeFailed);
    CountUpdate(fates, i, fate, Delivered);
    CountUpdate(fates, i, fate, Failed);
  }

  lemma CountUpdate(fates: seq<Fate>, i: nat, fate: Fate, counted: Fate)
    requires i < |fates|
    ensures Count(fates[i := fate], counted)
      == Count(fates, counted) - (if fates[i] == counted then 1 else 0) + (if fate == counted then 1 else 0)
  {}

  lemma OpeningTallied(c: Counters, fates: seq<Fate>, i: nat, needsProbe: bool, begin: Begin)
    requires Tallied(c, fates) && i < |fates| && fates[i].Waiting?
    ensures Tallied(Opening(needsProbe, begin, c, i).1, fates[i := Opening(needsProbe, begin, c, i).0])
  {
    var fate := Opening(needsProbe, begin, c, i).0;
    EndTallied(c, fates, i, fate);
  }

  lemma StepTallied(s: State, step: Step)
    requires PoolInv(s) && Tallied(s.counters, s.fates)
    ensures Tallied(Apply(s, step).counters, Apply(s, step).fates)
  {
    if step.Begins? {
      if WorkerPool.Enabled(s.pool, Take(step.w, Awaits)) && s.pool.index < |s.fates| {
        OpeningTallied(s.counters, s.fates, s.pool.index, s.needsProbe[s.pool.index], step.begin);
      }
    } else if Holds(s, step.w) {
      assert WorkerOk(s.pool, step.w);
      var i := s.pool.workers[step.w].item;
      var fate := if step.ProbeEnds? then ProbeFate(step.probe) else DispatchFate(step.dispatch);
      EndTallied(s.counters, s.fates, i, fate);
    }
  }

  lemma {:induction false} RunTallied(needsProbe: seq<bool>, concurrency: nat, steps: seq<Step>)
    ensures Tallied(Run(needsProbe, concurrency, steps).counters, Run(needsProbe, concurrency, steps).fates)
  {
    if steps != [] {
      RunTallied(needsProbe, concurrency, steps[..|steps| - 1]);
      var _ := RunsThePool(needsProbe, concurrency, steps[..|steps| - 1]);
      StepTallied(Run(needsProbe, concurrency, steps[..|steps| - 1]), steps[|steps| - 1]);
    }
  }

  function Unended(fates: seq<Fate>): nat {
    Count(fates, Waiting) + Count(fates, Asked) + Count(fates, Lost)
  }

  function Ended(fates: seq<Fate>): nat {
    Count(fates, ProbedAs(Absent)) + Count(fates, ProbedAs(Active)) + Count(fates, ProbedAs(Completed))
    + Count(fates, ProbedAs(Unknown)) + Count(fates, ProbedAs(Invalid)) + Count(fates, ProbeFailed)
    + Count(fates, Delivered) + Count(fates, Failed)
  }

  lemma CountSnoc(fates: seq<Fate>, last: Fate, fate: Fate)
    ensures Count(fates + [last], fate) == Count(fates, fate) + (if fate == last then 1 else 0)
  {}

  lemma OneMoreFate(fates: seq<Fate>, last: Fate)
    ensures Ended(fates + [last]) + Unended(fates + [last]) == Ended(fates) + Unended(fates) + 1
  {
    if last.ProbedAs? {
      assert last in {
        ProbedAs(Absent), ProbedAs(Active), ProbedAs(Completed), ProbedAs(Unknown), ProbedAs(Invalid)
      } by {
        match last.status case Absent => case Active => case Completed => case Unknown => case Invalid =>
      }
    }
    CountSnoc(fates, last, ProbedAs(Absent));
    CountSnoc(fates, last, ProbedAs(Active));
    CountSnoc(fates, last, ProbedAs(Completed));
    CountSnoc(fates, last, ProbedAs(Unknown));
    CountSnoc(fates, last, ProbedAs(Invalid));
    CountSnoc(fates, last, ProbeFailed);
    CountSnoc(fates, last, Delivered);
    CountSnoc(fates, last, Failed);
    CountSnoc(fates, last, Waiting);
    CountSnoc(fates, last, Asked);
    CountSnoc(fates, last, Lost);
  }

  lemma {:induction false} EveryFateCounts(fates: seq<Fate>)
    ensures Ended(fates) + Unended(fates) == |fates|
  {
    if fates != [] {
      var n := |fates| - 1;
      EveryFateCounts(fates[..n]);
      OneMoreFate(fates[..n], fates[n]);
      assert fates == fates[..n] + [fates[n]];
    }
  }

  /** At every moment of every run each claimed message is in exactly one of the counters
      `absent`, `delivered` and `failed`, or has not ended, or lost its run to a throwing
      `store.status`. */
  lemma Conservation(needsProbe: seq<bool>, concurrency: nat, steps: seq<Step>)
    ensures var s := Run(needsProbe, concurrency, steps);
      && s.counters.claimed == |needsProbe|
      && s.counters.claimed == s.counters.absent + s.counters.delivered + s.counters.failed + Unended(s.fates)
  {
    var _ := RunsThePool(needsProbe, concurrency, steps);
    RunTallied(needsProbe, concurrency, steps);
    EveryFateCounts(Run(needsProbe, concurrency, steps).fates);
  }

  /** When the batch returns and `store.status` never threw, nothing is left over. */
  lemma ClaimedIsAccountedFor(needsProbe: seq<bool>, concurrency: nat, steps: seq<Step>)
    requires concurrency > 0 && Resolved(Run(needsProbe, concurrency, steps).pool)
    requires forall i :: 0 <= i < |Run(needsProbe, concurrency, steps).fates|
               ==> !Run(needsProbe, concurrency, steps).fates[i].Lost?
    ensures var c := Run(needsProbe, concurrency, steps).counters;
      c.claimed == |needsProbe| && c.claimed == c.absent + c.delivered + c.failed
  {
    var poolSteps := RunsThePool(needsProbe, concurrency, steps);
    var s := Run(needsProbe, concurrency, steps);
    ResolvedMeansAllStarted(|needsProbe|, concurrency, poolSteps);
    forall i | 0 <= i < |s.fates| ensures !s.fates[i].Waiting? && !s.fates[i].Asked? && !s.fates[i].Lost? {
      assert Matches(s.fates[i], s.pool.items[i]);
    }
    assert Waiting !in s.fates && Asked !in s.fates && Lost !in s.fates;
    Conservation(needsProbe, concurrency, steps);
  }

  // ---- who is asked what ----

  predicate CallOk(s: State, k: nat)
    requires k < |s.calls|
  {
    var i := s.calls[k].i;
    && i < s.pool.index && i < |s.needsProbe|
    && (s.calls[k].Probe? <==> s.needsProbe[i])
    && forall m :: 0 <= m < k ==> s.calls[m].i != i
  }

  predicate FateOk(s: State, i: nat)
    requires i < |s.fates| && |s.fates| == |s.needsProbe|
  {
    match s.fates[i]
    case Asked => (if s.needsProbe[i] then Probe(i) else Dispatch(i)) in s.calls
    case ProbedAs(_) => Probe(i) in s.calls
    case Delivered => Dispatch(i) in s.calls
    case _ => true
  }

  ghost predicate CallsInv(s: State) {
    && |s.fates| == |s.needsProbe|
    && (forall k :: 0 <= k < |s.calls| ==> CallOk(s, k))
    && (forall i {:trigger FateOk(s, i)} :: 0 <= i < |s.fates| ==> FateOk(s, i))
  }

  lemma StepKeepsCalls(s: State, step: Step)
    requires PoolInv(s) && CallsInv(s)
    ensures CallsInv(Apply(s, step))
  {
    var s' := Apply(s, step);
    StepsThePool(s, step);
    forall k | 0 <= k < |s'.calls| ensures CallOk(s', k) {
      if k < |s.calls| {
        assert CallOk(s, k);
      }
      forall m | 0 <= m < k ensures s'.calls[m].i != s'.calls[k].i {
        assert CallOk(s, m);
      }
    }
    if !step.Begins? && Holds(s, step.w) {
      assert WorkerOk(s.pool, step.w);
    }
    forall i | 0 <= i < |s'.fates| ensures FateOk(s', i) {
      assert FateOk(s, i);
    }
  }

  lemma {:induction false} CallsInvariant(needsProbe: seq<bool>, concurrency: nat, steps: seq<Step>)
    ensures CallsInv(Run(needsProbe, concurrency, steps))
  {
    if steps != [] {
      CallsInvariant(needsProbe, concurrency, steps[..|steps| - 1]);
      var _ := RunsThePool(needsProbe, concurrency, steps[..|steps| - 1]);
      StepKeepsCalls(Run(needsProbe, concurrency, steps[..|steps| - 1]), steps[|steps| - 1]);
    }
  }

  /** A message that needs a probe is never dispatched, one that does not is never probed, and
      the adapter is asked at most once about each. */
  lemma ProbesBeforeDispatching(needsProbe: seq<bool>, concurrency: nat, steps: seq<Step>, k: nat)
    requires k < |Run(needsProbe, concurrency, steps).calls|
    ensures var calls := Run(needsProbe, concurrency, steps).calls;
      && calls[k].i < |needsProbe|
      && (calls[k].Dispatch? <==> !needsProbe[calls[k].i])
      && forall m :: 0 <= m < |calls| && m != k ==> calls[m].i != calls[k].i
  {
    CallsInvariant(needsProbe, concurrency, steps);
    var _ := RunsThePool(needsProbe, concurrency, steps);
    var s := Run(needsProbe, concurrency, steps);
    assert CallOk(s, k);
    forall m | k < m < |s.calls| ensures s.calls[m].i != s.calls[k].i {
      assert CallOk(s, m);
    }
  }

  /** A message counted as delivered by its dispatch was dispatched; one counted by its probe's
      status was probed. */
  lemma CountedMeansAsked(needsProbe: seq<bool>, concurrency: nat, steps: seq<Step>, i: nat)
    requires i < |Run(needsProbe, concurrency, steps).fates|
    ensures var s := Run(needsProbe, concurrency, steps);
      && (s.fates[i].Delivered? ==> Dispatch(i) in s.calls)
      && (s.fates[i].ProbedAs? ==> Probe(i) in s.calls)
  {
    CallsInvariant(needsProbe, concurrency, steps);
    assert FateOk(Run(needsProbe, concurrency, steps), i);
  }
}
