/** What a batch of `dispatchPending` comes to: its counters are those of what the store and the
    adapter answered about each message, however the runs of the messages interleave. */
module OutboxOutcome {
  import opened Prelude
  import WorkerPool
  import opened OutboxDispatch

  /** What would be answered about one message. */
  datatype Answers = Answers(needsProbe: bool, begin: Begin, probe: ProbeReply, dispatch: DispatchReply)

  function Needs(batch: seq<Answers>): seq<bool> {
    seq(|batch|, i requires 0 <= i < |batch| => batch[i].needsProbe)
  }

  /** The probe has been made, gave one of the four known answers, with a compact reference where a
      session is said to exist, and the store has recorded it. */
  predicate IsProbedAs(a: Answers, status: Status) {
    && a.needsProbe && a.begin == Goes(true) && !status.Invalid?
    && a.probe.Answers? && a.probe.status == status && a.probe.recorded
    && (status.Active? || status.Completed? ==> a.probe.referenceOk)
  }

  /** The dispatch has been made, gave a compact reference, and the store took it as delivered. */
  predicate IsDelivered(a: Answers) {
    !a.needsProbe && a.begin == Goes(true) && a.dispatch == Dispatched(true, true)
  }

  /** What a message with these answers ends as. */
  predicate EndsAs(a: Answers, fate: Fate) {
    match fate
    case Lost => a.begin.StatusThrows?
    case ProbedAs(status) => IsProbedAs(a, status)
    case Delivered => IsDelivered(a)
    case ProbeFailed => a.needsProbe && a.begin.Goes? && forall status :: !IsProbedAs(a, status)
    case Failed => a.begin.BadCommand? || a.begin.NotExecuting? || (a.begin.Goes? && !a.needsProbe && !IsDelivered(a))
    case _ => false
  }

  /** The step gives the answers meant for the message it is about. */
  predicate Conforms(batch: seq<Answers>, s: State, step: Step) {
    match step
    case Begins(_, begin) => s.pool.index < |batch| ==> begin == batch[s.pool.index].begin
    case ProbeEnds(w, reply) =>
      Holds(s, w) && s.pool.workers[w].item < |batch| ==> reply == batch[s.pool.workers[w].item].probe
    case DispatchEnds(w, reply) =>
      Holds(s, w) && s.pool.workers[w].item < |batch| ==> reply == batch[s.pool.workers[w].item].dispatch
  }

  ghost predicate IsRun(batch: seq<Answers>, concurrency: nat, steps: seq<Step>) {
    forall k :: 0 <= k < |steps| ==> Conforms(batch, Run(Needs(batch), concurrency, steps[..k]), steps[k])
  }

  predicate FateOk(a: Answers, fate: Fate) {
    match fate
    case Waiting => true
    case Asked => a.begin == Goes(true)
    case _ => EndsAs(a, fate)
  }

  /** The first `n` messages for which a probe, or a dispatch, is counted as made. */
  function Probes(batch: seq<Answers>, n: nat): nat
    requires n <= |batch|
  {
    if n == 0 then 0
    else Probes(batch, n - 1) + (if batch[n - 1].needsProbe && batch[n - 1].begin.Goes? then 1 else 0)
  }

  function Dispatches(batch: seq<Answers>, n: nat): nat
    requires n <= |batch|
  {
    if n == 0 then 0
    else Dispatches(batch, n - 1) + (if !batch[n - 1].needsProbe && batch[n - 1].begin == Goes(true) then 1 else 0)
  }

  ghost predicate AnswersInv(batch: seq<Answers>, s: State) {
    && PoolInv(s) && s.needsProbe == Needs(batch)
    && (forall i :: 0 <= i < |batch| ==> FateOk(batch[i], s.fates[i]))
    && s.pool.index <= |batch|
    && s.counters.probed == Probes(batch, s.pool.index) && s.counters.dispatched == Dispatches(batch, s.pool.index)
  }

  lemma OpeningFate(a: Answers, c: Counters, i: nat)
    ensures var fate := Opening(a.needsProbe, a.begin, c, i).0; FateOk(a, fate) && !fate.Waiting?
    ensures var c' := Opening(a.needsProbe, a.begin, c, i).1;
      && c'.probed == c.probed + (if a.needsProbe && a.begin.Goes? then 1 else 0)
      && c'.dispatched == c.dispatched + (if !a.needsProbe && a.begin == Goes(true) then 1 else 0)
  {}

  lemma ProbeEnd(a: Answers)
    requires a.needsProbe && a.begin == Goes(true)
    ensures EndsAs(a, ProbeFate(a.probe)) && FateOk(a, ProbeFate(a.probe))
  {}

  lemma DispatchEnd(a: Answers)
    requires !a.needsProbe && a.begin == Goes(true)
    ensures EndsAs(a, DispatchFate(a.dispatch)) && FateOk(a, DispatchFate(a.dispatch))
  {}

  lemma EndCounts(c: Counters, fate: Fate)
    ensures CountEnd(c, fate).probed == c.probed && CountEnd(c, fate).dispatched == c.dispatched
  {}

  lemma BeginKeepsAnswers(batch: seq<Answers>, s: State, step: Step)
    requires AnswersInv(batch, s) && step.Begins? && Conforms(batch, s, step)
    ensures AnswersInv(batch, Apply(s, step))
  {
    StepsThePool(s, step);
    if WorkerPool.Enabled(s.pool, WorkerPool.Take(step.w, WorkerPool.Awaits)) && s.pool.index < |batch| {
      OpeningFate(batch[s.pool.index], s.counters, s.pool.index);
    }
  }

  lemma EndKeepsAnswers(batch: seq<Answers>, s: State, step: Step)
    requires AnswersInv(batch, s) && !step.Begins? && Conforms(batch, s, step)
    ensures AnswersInv(batch, Apply(s, step))
  {
    StepsThePool(s, step);
    if Holds(s, step.w) {
      assert WorkerPool.WorkerOk(s.pool, step.w);
      var i := s.pool.workers[step.w].item;
      assert Matches(s.fates[i], s.pool.items[i]) && FateOk(batch[i], s.fates[i]);
      if step.ProbeEnds? && batch[i].needsProbe {
        ProbeEnd(batch[i]);
        EndCounts(s.counters, ProbeFate(step.probe));
      } else if step.DispatchEnds? && !batch[i].needsProbe {
        DispatchEnd(batch[i]);
        EndCounts(s.counters, DispatchFate(step.dispatch));
      }
    }
  }

  lemma {:induction false} RunKeepsAnswers(batch: seq<Answers>, concurrency: nat, steps: seq<Step>)
    requires IsRun(batch, concurrency, steps)
    ensures AnswersInv(batch, Run(Needs(batch), concurrency, steps))
  {
    var _ := RunsThePool(Needs(batch), concurrency, steps);
    if steps != [] {
      var n := |steps| - 1;
      forall k | 0 <= k < n
        ensures Conforms(batch, Run(Needs(batch), concurrency, steps[..n][..k]), steps[..n][k])
      {
        assert steps[..n][..k] == steps[..k];
      }
      RunKeepsAnswers(batch, concurrency, steps[..n]);
      var s := Run(Needs(batch), concurrency, steps[..n]);
      assert Conforms(batch, s, steps[n]);
      if steps[n].Begins? {
        BeginKeepsAnswers(batch, s, steps[n]);
      } else {
        EndKeepsAnswers(batch, s, steps[n]);
      }
    }
  }

  /** Whatever a message has come to at any moment is what its answers make it. */
  lemma EndedAsAnswered(batch: seq<Answers>, concurrency: nat, steps: seq<Step>, i: nat)
    requires IsRun(batch, concurrency, steps) && i < |batch|
    ensures var s := Run(Needs(batch), concurrency, steps);
      i < |s.fates| && (s.fates[i].Waiting? || s.fates[i].Asked? || EndsAs(batch[i], s.fates[i]))
  {
    RunKeepsAnswers(batch, concurrency, steps);
    assert FateOk(batch[i], Run(Needs(batch), concurrency, steps).fates[i]);
  }

  lemma OneEnd(a: Answers, x: Fate, y: Fate)
    requires EndsAs(a, x) && EndsAs(a, y)
    ensures x == y
  {}

  // ---- the counters of a batch that has returned ----

  /** How many messages of the batch end as one of the given fates. */
  ghost function Number(batch: seq<Answers>, fate: Fate): nat {
    if batch == [] then 0
    else Number(batch[..|batch| - 1], fate) + (if EndsAs(batch[|batch| - 1], fate) then 1 else 0)
  }

  lemma CountOfLast(fates: seq<Fate>, fate: Fate)
    requires fates != []
    ensures var n := |fates| - 1;
      Count(fates, fate) == Count(fates[..n], fate) + (if fates[n] == fate then 1 else 0)
  {
    assert fates == fates[..|fates| - 1] + [fates[|fates| - 1]];
  }

  lemma {:induction false} CountIsNumber(batch: seq<Answers>, fates: seq<Fate>, fate: Fate)
    requires |fates| == |batch| && forall i :: 0 <= i < |batch| ==> EndsAs(batch[i], fates[i])
    ensures Count(fates, fate) == Number(batch, fate)
  {
    if batch != [] {
      var n := |batch| - 1;
      CountIsNumber(batch[..n], fates[..n], fate);
      CountOfLast(fates, fate);
      if EndsAs(batch[n], fate) {
        OneEnd(batch[n], fate, fates[n]);
      }
    }
  }

  lemma AllHaveEnded(batch: seq<Answers>, concurrency: nat, steps: seq<Step>)
    requires concurrency > 0 && IsRun(batch, concurrency, steps)
    requires WorkerPool.Resolved(Run(Needs(batch), concurrency, steps).pool)
    ensures var s := Run(Needs(batch), concurrency, steps);
      |s.fates| == |batch| && (forall i :: 0 <= i < |batch| ==> EndsAs(batch[i], s.fates[i]))
      && s.pool.index == |batch|
  {
    var poolSteps := RunsThePool(Needs(batch), concurrency, steps);
    RunKeepsAnswers(batch, concurrency, steps);
    WorkerPool.ResolvedMeansAllStarted(|batch|, concurrency, poolSteps);
    var s := Run(Needs(batch), concurrency, steps);
    forall i | 0 <= i < |batch| ensures EndsAs(batch[i], s.fates[i]) {
      assert FateOk(batch[i], s.fates[i]) && Matches(s.fates[i], s.pool.items[i]);
    }
  }

  /** When the batch returns, every counter says how many messages had such answers: it depends on
      neither the concurrency nor the order in which things happened. */
  lemma CountersExactly(batch: seq<Answers>, concurrency: nat, steps: seq<Step>)
    requires concurrency > 0 && IsRun(batch, concurrency, steps)
    requires WorkerPool.Resolved(Run(Needs(batch), concurrency, steps).pool)
    ensures var c := Run(Needs(batch), concurrency, steps).counters;
      && c.claimed == |batch|
      && c.probed == Probes(batch, |batch|) && c.dispatched == Dispatches(batch, |batch|)
      && c.absent == Number(batch, ProbedAs(Absent))
      && c.active == Number(batch, ProbedAs(Active))
      && c.completed == Number(batch, ProbedAs(Completed))
      && c.unknown == Number(batch, ProbedAs(Unknown)) + Number(batch, ProbeFailed)
      && c.delivered == c.active + c.completed + Number(batch, ProbedAs(Unknown)) + Number(batch, Delivered)
      && c.failed == Number(batch, Failed) + Number(batch, ProbeFailed)
  {
    RunTallied(Needs(batch), concurrency, steps);
    RunKeepsAnswers(batch, concurrency, steps);
    AllHaveEnded(batch, concurrency, steps);
    var fates := Run(Needs(batch), concurrency, steps).fates;
    CountIsNumber(batch, fates, ProbedAs(Absent));
    CountIsNumber(batch, fates, ProbedAs(Active));
    CountIsNumber(batch, fates, ProbedAs(Completed));
    CountIsNumber(batch, fates, ProbedAs(Unknown));
    CountIsNumber(batch, fates, ProbeFailed);
    CountIsNumber(batch, fates, Delivered);
    CountIsNumber(batch, fates, Failed);
  }
}
