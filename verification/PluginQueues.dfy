/** The repository queue of the plugin manager and the plugin queue that `install` enters from
    inside its repository operation. */
module PluginQueues {
  import opened Prelude
  import opened SerialQueue

  /** `wants[i]` names the plugin when repository operation `i` is an install; `owner[j]` is the
      install whose body called plugin operation `j`. */
  datatype State = State(repository: Queue, wants: seq<Option<Key>>, plugin: Queue, owner: seq<nat>)

  const Idle := State(Empty, [], Empty, [])

  datatype Step =
    | Request(repositoryId: Key, pluginId: Option<Key>)
    | StartRepository(i: nat)
    | SettleRepository(i: nat)
    | CleanRepository(i: nat)
    | StartPlugin(i: nat)
    | SettlePlugin(i: nat)
    | CleanPlugin(i: nat)

  /** The awaited plugin operation of repository operation `i`, if there is one, has returned. */
  predicate InnerReturned(s: State, i: nat) {
    forall j :: 0 <= j < |s.owner| && j < |s.plugin.ops| && s.owner[j] == i ==> s.plugin.ops[j].cleaned
  }

  predicate Enabled(s: State, step: Step) {
    match step
    case Request(_, _) => true
    case StartRepository(i) => Ready(s.repository, i)
    case SettleRepository(i) => Active(s.repository, i) && InnerReturned(s, i)
    case CleanRepository(i) => Cleanable(s.repository, i)
    case StartPlugin(i) => Ready(s.plugin, i)
    case SettlePlugin(i) => Active(s.plugin, i)
    case CleanPlugin(i) => Cleanable(s.plugin, i)
  }

  /** Starting an install runs its body up to the first await: it enters the plugin queue. */
  function StartBody(s: State, i: nat): State
    requires Ready(s.repository, i)
  {
    var started := s.(repository := Start(s.repository, i));
    if i < |s.wants| && s.wants[i].Some? then
      started.(plugin := Enqueue(s.plugin, s.wants[i].value), owner := s.owner + [i])
    else
      started
  }

  function Apply(s: State, step: Step): State {
    if !Enabled(s, step) then s else
    match step
    case Request(r, p) => s.(repository := Enqueue(s.repository, r), wants := s.wants + [p])
    case StartRepository(i) => StartBody(s, i)
    case SettleRepository(i) => s.(repository := Settle(s.repository, i))
    case CleanRepository(i) => s.(repository := Clean(s.repository, i))
    case StartPlugin(i) => s.(plugin := Start(s.plugin, i))
    case SettlePlugin(i) => s.(plugin := Settle(s.plugin, i))
    case CleanPlugin(i) => s.(plugin := Clean(s.plugin, i))
  }

  function Run(s: State, steps: seq<Step>): State {
    if steps == [] then s else Apply(Run(s, steps[..|steps| - 1]), steps[|steps| - 1])
  }

  // ---- invariants of every run ----

  /** A plugin operation belongs to a started install of that plugin, which cannot settle first. */
  predicate OwnerOk(s: State, j: nat)
    requires |s.owner| == |s.plugin.ops| && |s.wants| == |s.repository.ops| && j < |s.owner|
  {
    var i := s.owner[j];
    && i < |s.repository.ops| && s.wants[i] == Some(s.plugin.ops[j].key)
    && !s.repository.ops[i].phase.Queued?
    && (s.repository.ops[i].phase.Settled? ==> s.plugin.ops[j].cleaned)
  }

  ghost predicate Inv(s: State) {
    && SerialQueue.Inv(s.repository) && SerialQueue.Inv(s.plugin)
    && |s.wants| == |s.repository.ops| && |s.owner| == |s.plugin.ops|
    && (forall j {:trigger OwnerOk(s, j)} :: 0 <= j < |s.owner| ==> OwnerOk(s, j))
    && (forall j, k :: 0 <= j < k < |s.owner| ==> s.owner[j] != s.owner[k])
  }

  lemma StartBodyKeepsInv(s: State, i: nat)
    requires Inv(s) && Ready(s.repository, i)
    ensures Inv(StartBody(s, i))
  {
    var s' := StartBody(s, i);
    StartKeepsInv(s.repository, i);
    if s.wants[i].Some? {
      EnqueueKeepsInv(s.plugin, s.wants[i].value);
    }
    forall j | 0 <= j < |s'.owner| ensures OwnerOk(s', j) && (j < |s.owner| ==> s.owner[j] != i) {
      if j < |s.owner| {
        assert OwnerOk(s, j);
      }
    }
  }

  lemma StepKeepsInv(s: State, step: Step)
    requires Inv(s)
    ensures Inv(Apply(s, step))
  {
    var s' := Apply(s, step);
    if !Enabled(s, step) {
      return;
    }
    match step {
    case Request(r, _) => EnqueueKeepsInv(s.repository, r);
    case StartRepository(i) => StartBodyKeepsInv(s, i);
    case SettleRepository(i) => SettleKeepsInv(s.repository, i);
    case CleanRepository(i) => CleanKeepsInv(s.repository, i);
    case StartPlugin(i) => StartKeepsInv(s.plugin, i);
    case SettlePlugin(i) => SettleKeepsInv(s.plugin, i);
    case CleanPlugin(i) => CleanKeepsInv(s.plugin, i);
    }
    if !step.StartRepository? {
      forall j | 0 <= j < |s'.owner| ensures OwnerOk(s', j) {
        assert OwnerOk(s, j) && OpOk(s.plugin, j);
      }
    }
  }

  lemma {:induction false} Invariant(steps: seq<Step>)
    ensures Inv(Run(Idle, steps))
  {
    if steps != [] {
      Invariant(steps[..|steps| - 1]);
      StepKeepsInv(Run(Idle, steps[..|steps| - 1]), steps[|steps| - 1]);
    }
  }

  // ---- what the queues promise ----

  /** Operation `j` has begun only if the earlier operation `i` of the same key has settled. */
  predicate InOrder(q: Queue, i: nat, j: nat) {
    i < j < |q.ops| && q.ops[i].key == q.ops[j].key ==> q.ops[j].phase.Queued? || q.ops[i].phase.Settled?
  }

  /** For each repository and for each plugin the operations run one at a time, in call order,
      whatever the outcome of the earlier ones. */
  lemma InCallOrder(steps: seq<Step>, i: nat, j: nat)
    ensures InOrder(Run(Idle, steps).repository, i, j) && InOrder(Run(Idle, steps).plugin, i, j)
  {
    Invariant(steps);
    var s := Run(Idle, steps);
    if !InOrder(s.repository, i, j) {
      OneAtATimeInOrder(s.repository, i, j);
    }
    if !InOrder(s.plugin, i, j) {
      OneAtATimeInOrder(s.plugin, i, j);
    }
  }

  /** While a plugin operation is under way its install still holds its repository. */
  lemma InstallHoldsItsRepository(steps: seq<Step>, j: nat)
    requires j < |Run(Idle, steps).plugin.ops| && !Run(Idle, steps).plugin.ops[j].cleaned
    ensures var s := Run(Idle, steps);
      j < |s.owner| && s.owner[j] < |s.repository.ops| && s.repository.ops[s.owner[j]].phase.Running?
  {
    Invariant(steps);
    assert OwnerOk(Run(Idle, steps), j);
  }

  predicate Finished(s: State) {
    && (forall i :: 0 <= i < |s.repository.ops| ==> s.repository.ops[i].cleaned)
    && (forall j :: 0 <= j < |s.plugin.ops| ==> s.plugin.ops[j].cleaned)
  }

  /** The nesting cannot deadlock: while anything is unfinished, some step other than a new
      request can be taken. */
  lemma NoDeadlock(steps: seq<Step>) returns (next: Step)
    requires !Finished(Run(Idle, steps))
    ensures !next.Request? && Enabled(Run(Idle, steps), next)
  {
    Invariant(steps);
    var s := Run(Idle, steps);
    if j :| 0 <= j < |s.plugin.ops| && !s.plugin.ops[j].cleaned {
      if s.plugin.ops[j].phase.Settled? {
        next := CleanPlugin(j);
      } else {
        var first := SomeoneCanGoOn(s.plugin, j);
        next := if Ready(s.plugin, first) then StartPlugin(first) else SettlePlugin(first);
      }
    } else {
      var i :| 0 <= i < |s.repository.ops| && !s.repository.ops[i].cleaned;
      if s.repository.ops[i].phase.Settled? {
        next := CleanRepository(i);
      } else {
        var first := SomeoneCanGoOn(s.repository, i);
        next := if Ready(s.repository, first) then StartRepository(first) else SettleRepository(first);
      }
    }
  }

  /** Both maps are empty again once every call has returned. */
  lemma FinishedMeansNoTails(steps: seq<Step>)
    requires Finished(Run(Idle, steps))
    ensures Run(Idle, steps).repository.tails == map[] && Run(Idle, steps).plugin.tails == map[]
  {
    Invariant(steps);
    CleanedMeansNoTails(Run(Idle, steps).repository);
    CleanedMeansNoTails(Run(Idle, steps).plugin);
  }

  // ---- a started install is in the plugin queue ----

  /** A request is always taken, behind all earlier ones. */
  lemma RequestsAreTaken(s: State, repositoryId: Key, pluginId: Option<Key>)
    ensures var s' := Apply(s, Request(repositoryId, pluginId));
      s' == s.(repository := Enqueue(s.repository, repositoryId), wants := s.wants + [pluginId])
      && s'.repository.ops == s.repository.ops + [s'.repository.ops[|s.repository.ops|]]
  {}

  /** The install has called its plugin operation. */
  ghost predicate Entered(s: State, i: nat) {
    exists j :: 0 <= j < |s.owner| && j < |s.plugin.ops| && s.owner[j] == i
                && i < |s.wants| && s.wants[i] == Some(s.plugin.ops[j].key)
  }

  ghost predicate StartedEntered(s: State) {
    forall i :: 0 <= i < |s.wants| && i < |s.repository.ops| && s.wants[i].Some? && !s.repository.ops[i].phase.Queued?
      ==> Entered(s, i)
  }

  lemma EnteredStays(s: State, step: Step, i: nat)
    requires Inv(s) && Entered(s, i)
    ensures Entered(Apply(s, step), i)
  {
    var s' := Apply(s, step);
    var j :| 0 <= j < |s.owner| && j < |s.plugin.ops| && s.owner[j] == i
             && i < |s.wants| && s.wants[i] == Some(s.plugin.ops[j].key);
    assert s'.owner[j] == i && s'.plugin.ops[j].key == s.plugin.ops[j].key && s'.wants[i] == s.wants[i];
  }

  lemma StepEnters(s: State, step: Step, i: nat)
    requires Inv(s) && StartedEntered(s)
    requires var s' := Apply(s, step);
      i < |s'.wants| && i < |s'.repository.ops| && s'.wants[i].Some? && !s'.repository.ops[i].phase.Queued?
    ensures Entered(Apply(s, step), i)
  {
    var s' := Apply(s, step);
    if i < |s.repository.ops| && !s.repository.ops[i].phase.Queued? {
      EnteredStays(s, step, i);
    } else {
      var j := |s.owner|;
      assert step == StartRepository(i) && s'.owner[j] == i && s'.plugin.ops[j].key == s.wants[i].value;
    }
  }

  lemma {:induction false} StartedInstallsEntered(steps: seq<Step>)
    ensures StartedEntered(Run(Idle, steps))
  {
    if steps != [] {
      var n := |steps| - 1;
      Invariant(steps[..n]);
      StartedInstallsEntered(steps[..n]);
      forall i | 0 <= i < |Run(Idle, steps).wants| && i < |Run(Idle, steps).repository.ops|
                 && Run(Idle, steps).wants[i].Some? && !Run(Idle, steps).repository.ops[i].phase.Queued?
        ensures Entered(Run(Idle, steps), i)
      {
        StepEnters(Run(Idle, steps[..n]), steps[n], i);
      }
    }
  }

  /** An install that has started has called exactly one plugin operation, for the plugin it wants,
      and it has not settled before that operation has returned. */
  lemma InstallRunsItsPluginOperation(steps: seq<Step>, i: nat) returns (j: nat)
    requires var s := Run(Idle, steps);
      i < |s.repository.ops| && |s.wants| == |s.repository.ops|
      && s.wants[i].Some? && !s.repository.ops[i].phase.Queued?
    ensures var s := Run(Idle, steps);
      && j < |s.owner| == |s.plugin.ops| && s.owner[j] == i && s.wants[i] == Some(s.plugin.ops[j].key)
      && (forall m :: 0 <= m < |s.owner| && s.owner[m] == i ==> m == j)
      && (s.repository.ops[i].phase.Settled? ==> s.plugin.ops[j].cleaned)
  {
    Invariant(steps);
    StartedInstallsEntered(steps);
    var s := Run(Idle, steps);
    assert Entered(s, i);
    j :| 0 <= j < |s.owner| && j < |s.plugin.ops| && s.owner[j] == i && s.wants[i] == Some(s.plugin.ops[j].key);
    assert OwnerOk(s, j);
  }

  // ---- every run finishes ----

  function TotalWeight(weights: seq<nat>): nat {
    if weights == [] then 0 else TotalWeight(weights[..|weights| - 1]) + weights[|weights| - 1]
  }

  lemma {:induction false} SumUpdate(weights: seq<nat>, i: nat, w: nat)
    requires i < |weights|
    ensures TotalWeight(weights[i := w]) == TotalWeight(weights) - weights[i] + w
  {
    var n := |weights| - 1;
    var changed := weights[i := w];
    if i == n {
      assert changed[..n] == weights[..n];
    } else {
      assert changed[..n] == weights[..n][i := w];
      SumUpdate(weights[..n], i, w);
    }
  }

  /** An upper bound on the steps an operation still takes, with those of the plugin operation
      that an install has yet to call. */
  function Weight(op: Op, calls: bool): nat {
    match op.phase
    case Queued => if calls then 6 else 3
    case Running => 2
    case Settled => if op.cleaned then 0 else 1
  }

  function RepositoryWeights(s: State): seq<nat>
    requires |s.wants| == |s.repository.ops|
  {
    seq(|s.repository.ops|, i requires 0 <= i < |s.repository.ops| => Weight(s.repository.ops[i], s.wants[i].Some?))
  }

  function PluginWeights(s: State): seq<nat> {
    seq(|s.plugin.ops|, j requires 0 <= j < |s.plugin.ops| => Weight(s.plugin.ops[j], false))
  }

  function Work(s: State): nat
    requires |s.wants| == |s.repository.ops|
  {
    TotalWeight(RepositoryWeights(s)) + TotalWeight(PluginWeights(s))
  }

  predicate OnRepository(step: Step) {
    step.StartRepository? || step.SettleRepository? || step.CleanRepository?
  }

  lemma {:induction false} RepositoryWorkDecreases(s: State, step: Step)
    requires Inv(s) && Enabled(s, step) && OnRepository(step)
    ensures |Apply(s, step).wants| == |Apply(s, step).repository.ops|
    ensures Work(Apply(s, step)) < Work(s)
  {
    var s' := Apply(s, step);
    var i := step.i;
    var w := Weight(s'.repository.ops[i], s.wants[i].Some?);
    assert RepositoryWeights(s') == RepositoryWeights(s)[i := w];
    SumUpdate(RepositoryWeights(s), i, w);
    if step.StartRepository? && s.wants[i].Some? {
      assert PluginWeights(s') == PluginWeights(s) + [3];
    } else {
      assert PluginWeights(s') == PluginWeights(s);
    }
  }

  lemma {:induction false} PluginWorkDecreases(s: State, step: Step)
    requires Inv(s) && Enabled(s, step) && !OnRepository(step) && !step.Request?
    ensures |Apply(s, step).wants| == |Apply(s, step).repository.ops|
    ensures Work(Apply(s, step)) < Work(s)
  {
    var s' := Apply(s, step);
    var w := Weight(s'.plugin.ops[step.i], false);
    assert PluginWeights(s') == PluginWeights(s)[step.i := w];
    SumUpdate(PluginWeights(s), step.i, w);
    assert RepositoryWeights(s') == RepositoryWeights(s);
  }

  /** Every step that is not a new request uses up some of the work left. */
  lemma WorkDecreases(s: State, step: Step)
    requires Inv(s) && Enabled(s, step) && !step.Request?
    ensures |Apply(s, step).wants| == |Apply(s, step).repository.ops|
    ensures Work(Apply(s, step)) < Work(s)
  {
    if OnRepository(step) {
      RepositoryWorkDecreases(s, step);
    } else {
      PluginWorkDecreases(s, step);
    }
  }

  /** From any reachable state a run of enabled steps without new requests is at most as long as
      the work left, so by `NoDeadlock` all calls return. */
  lemma {:induction false} RunsAreFinite(s: State, steps: seq<Step>)
    requires Inv(s)
    requires forall k :: 0 <= k < |steps| ==> !steps[k].Request? && Enabled(Run(s, steps[..k]), steps[k])
    ensures Inv(Run(s, steps)) && |steps| + Work(Run(s, steps)) <= Work(s)
  {
    if steps != [] {
      var n := |steps| - 1;
      forall k | 0 <= k < n ensures Enabled(Run(s, steps[..n][..k]), steps[..n][k]) {
        assert steps[..n][..k] == steps[..k];
      }
      RunsAreFinite(s, steps[..n]);
      StepKeepsInv(Run(s, steps[..n]), steps[n]);
      WorkDecreases(Run(s, steps[..n]), steps[n]);
    }
  }
}
