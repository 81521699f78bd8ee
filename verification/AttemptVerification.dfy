/** Verification of an attempt (`#verifyAttempt`): what is recorded survives an interruption, and
    a later run continues where the last one stopped. */
module AttemptVerification {
  import opened Prelude

  type Id = string
  type Ref = string

  datatype Status = Passed | NotPassed | Inconclusive | Erroneous

  datatype Requirement = Requirement(id: Id, required: bool)

  datatype Verdict = Verdict(ref: Ref, status: Status)

  /** A durable "verification recorded" event. */
  datatype Event = Event(requirement: Id, verdict: Verdict)

  /** What running a requirement gives: the same for every run of the same attempt. */
  type Runner = Id -> Verdict

  const MAX_REFERENCES := 64

  /** The recorded verdicts; a later event replaces an earlier one. */
  function Existing(log: seq<Event>): map<Id, Verdict> {
    if log == [] then map[]
    else Existing(log[..|log| - 1])[log[|log| - 1].requirement := log[|log| - 1].verdict]
  }

  /** An insertion-ordered set. */
  function AddRef(refs: seq<Ref>, ref: Ref): seq<Ref> {
    if ref in refs then refs else refs + [ref]
  }

  datatype Progress = Progress(refs: seq<Ref>, failed: seq<Id>, log: seq<Event>, ran: seq<Id>)

  /** One turn of the loop: a recorded verdict is reused, any other requirement is run and recorded. */
  function Turn(p: Progress, r: Requirement, existing: map<Id, Verdict>, run: Runner): Progress {
    var recorded := r.id in existing;
    var verdict := if recorded then existing[r.id] else run(r.id);
    Progress(AddRef(p.refs, verdict.ref),
             if r.required && verdict.status != Passed then p.failed + [r.id] else p.failed,
             if recorded then p.log else p.log + [Event(r.id, verdict)],
             if recorded then p.ran else p.ran + [r.id])
  }

  function Turns(p: Progress, reqs: seq<Requirement>, existing: map<Id, Verdict>, run: Runner): Progress {
    if reqs == [] then p
    else Turn(Turns(p, reqs[..|reqs| - 1], existing, run), reqs[|reqs| - 1], existing, run)
  }

  /** The state of a run over the first `k` requirements. */
  function RunTo(reqs: seq<Requirement>, k: nat, refs: seq<Ref>, log: seq<Event>, run: Runner): Progress
    requires k <= |reqs|
  {
    Turns(Progress(refs, [], log, []), reqs[..k], Existing(log), run)
  }

  /** The log after a run that was interrupted once `k` requirements were dealt with. */
  function LogAfter(reqs: seq<Requirement>, k: nat, log: seq<Event>, run: Runner): seq<Event>
    requires k <= |reqs|
  {
    RunTo(reqs, k, [], log, run).log
  }

  datatype Outcome = Completed(refs: seq<Ref>) | Failed(refs: seq<Ref>, failed: seq<Id>) | Rejected

  /** The outcome schema admits at most 64 verification references. */
  function Conclude(p: Progress): Outcome {
    if |p.refs| > MAX_REFERENCES then Rejected
    else if p.failed == [] then Completed(p.refs)
    else Failed(p.refs, p.failed)
  }

  function Verify(reqs: seq<Requirement>, refs: seq<Ref>, log: seq<Event>, run: Runner): Outcome {
    Conclude(RunTo(reqs, |reqs|, refs, log, run))
  }

  /** The verdict that counts for a requirement: the recorded one, or the one its run gives. */
  function Effective(log: seq<Event>, run: Runner, id: Id): Verdict {
    if id in Existing(log) then Existing(log)[id] else run(id)
  }

  /** What is recorded does not depend on the references an attempt starts with. */
  lemma {:induction false} LogIgnoresRefs(reqs: seq<Requirement>, k: nat, refs: seq<Ref>, log: seq<Event>, run: Runner)
    requires k <= |reqs|
    ensures RunTo(reqs, k, refs, log, run).log == LogAfter(reqs, k, log, run)
    decreases k
  {
    if k > 0 {
      assert reqs[..k][..k - 1] == reqs[..k - 1];
      LogIgnoresRefs(reqs, k - 1, refs, log, run);
    }
  }

  lemma ExistingAppend(log: seq<Event>, e: Event)
    ensures Existing(log + [e]) == Existing(log)[e.requirement := e.verdict]
  {
    assert (log + [e])[..|log|] == log;
  }

  lemma RecordKeepsVerdict(before: seq<Event>, ran: Id, run: Runner, id: Id)
    requires ran == id ==> Effective(before, run, id) == run(id)
    ensures Effective(before + [Event(ran, run(ran))], run, id) == Effective(before, run, id)
  {
    ExistingAppend(before, Event(ran, run(ran)));
  }

  /** Recording what a run gives does not change the verdict that counts. */
  lemma {:induction false} EffectiveKept(reqs: seq<Requirement>, k: nat, log: seq<Event>, run: Runner, id: Id)
    requires k <= |reqs|
    ensures Effective(LogAfter(reqs, k, log, run), run, id) == Effective(log, run, id)
    decreases k
  {
    if k > 0 {
      EffectiveKept(reqs, k - 1, log, run, id);
      assert reqs[..k][..k - 1] == reqs[..k - 1];
      var before, r := LogAfter(reqs, k - 1, log, run), reqs[k - 1];
      if r.id !in Existing(log) {
        RecordKeepsVerdict(before, r.id, run, id);
      }
    }
  }

  /** References and failures depend only on the verdicts that count. */
  lemma {:induction false} SameVerdictsSameProgress(
      reqs: seq<Requirement>, k: nat, refs: seq<Ref>, log: seq<Event>, log': seq<Event>, run: Runner)
    requires k <= |reqs| && forall id :: Effective(log, run, id) == Effective(log', run, id)
    ensures RunTo(reqs, k, refs, log, run).refs == RunTo(reqs, k, refs, log', run).refs
    ensures RunTo(reqs, k, refs, log, run).failed == RunTo(reqs, k, refs, log', run).failed
    decreases k
  {
    if k > 0 {
      SameVerdictsSameProgress(reqs, k - 1, refs, log, log', run);
      assert reqs[..k][..k - 1] == reqs[..k - 1];
      assert Effective(log, run, reqs[k - 1].id) == Effective(log', run, reqs[k - 1].id);
    }
  }

  /** The logs that interrupted runs can leave behind: each entry of `stops` is one run that got
      as far as that many requirements. */
  function LogAfterRuns(reqs: seq<Requirement>, stops: seq<nat>, log: seq<Event>, run: Runner): seq<Event>
    requires forall i :: 0 <= i < |stops| ==> stops[i] <= |reqs|
  {
    if stops == [] then log
    else LogAfter(reqs, stops[|stops| - 1], LogAfterRuns(reqs, stops[..|stops| - 1], log, run), run)
  }

  lemma {:induction false} EffectiveKeptByRuns(
    reqs: seq<Requirement>, stops: seq<nat>, log: seq<Event>, run: Runner, id: Id)
    requires forall i :: 0 <= i < |stops| ==> stops[i] <= |reqs|
    ensures Effective(LogAfterRuns(reqs, stops, log, run), run, id) == Effective(log, run, id)
  {
    if stops != [] {
      var n := |stops| - 1;
      EffectiveKeptByRuns(reqs, stops[..n], log, run, id);
      EffectiveKept(reqs, stops[n], LogAfterRuns(reqs, stops[..n], log, run), run, id);
    }
  }

  /** Any number of interrupted runs, each stopped anywhere, followed by a run to the end give the
      outcome of one uninterrupted run: same status, references and failed requirements. */
  lemma ResumingIsInvisible(reqs: seq<Requirement>, stops: seq<nat>, refs: seq<Ref>, log: seq<Event>, run: Runner)
    requires forall i :: 0 <= i < |stops| ==> stops[i] <= |reqs|
    ensures Verify(reqs, refs, LogAfterRuns(reqs, stops, log, run), run) == Verify(reqs, refs, log, run)
  {
    var resumed := LogAfterRuns(reqs, stops, log, run);
    forall id ensures Effective(resumed, run, id) == Effective(log, run, id) {
      EffectiveKeptByRuns(reqs, stops, log, run, id);
    }
    SameVerdictsSameProgress(reqs, |reqs|, refs, resumed, log, run);
  }

  /** A run only runs requirements of the plan that had no recorded verdict when it started. */
  lemma {:induction false} RunsOnlyUnrecorded(
    reqs: seq<Requirement>, k: nat, refs: seq<Ref>, log: seq<Event>, run: Runner)
    requires k <= |reqs|
    ensures var ran := RunTo(reqs, k, refs, log, run).ran;
            forall i :: 0 <= i < |ran| ==>
              ran[i] !in Existing(log) && exists j :: 0 <= j < k && reqs[j].id == ran[i]
    decreases k
  {
    if k > 0 {
      RunsOnlyUnrecorded(reqs, k - 1, refs, log, run);
      assert reqs[..k][..k - 1] == reqs[..k - 1];
      var before, ran := RunTo(reqs, k - 1, refs, log, run).ran, RunTo(reqs, k, refs, log, run).ran;
      forall i | 0 <= i < |ran| ensures ran[i] !in Existing(log) && exists j :: 0 <= j < k && reqs[j].id == ran[i] {
        if i < |before| {
          assert ran[i] == before[i];
        } else {
          assert reqs[k - 1].id == ran[i];
        }
      }
    }
  }

  /** Every requirement a run has dealt with is recorded afterwards. */
  lemma {:induction false} DealtWithIsRecorded(reqs: seq<Requirement>, k: nat, log: seq<Event>, run: Runner, j: nat)
    requires j < k <= |reqs|
    ensures reqs[j].id in Existing(LogAfter(reqs, k, log, run))
    decreases k
  {
    assert reqs[..k][..k - 1] == reqs[..k - 1];
    var before, r := LogAfter(reqs, k - 1, log, run), reqs[k - 1];
    if r.id !in Existing(log) {
      ExistingAppend(before, Event(r.id, run(r.id)));
    } else {
      RecordedStays(reqs, k - 1, log, run, r.id);
    }
    if j < k - 1 {
      DealtWithIsRecorded(reqs, k - 1, log, run, j);
    }
  }

  lemma {:induction false} RecordedStays(reqs: seq<Requirement>, k: nat, log: seq<Event>, run: Runner, id: Id)
    requires k <= |reqs| && id in Existing(log)
    ensures id in Existing(LogAfter(reqs, k, log, run))
    decreases k
  {
    if k > 0 {
      RecordedStays(reqs, k - 1, log, run, id);
      assert reqs[..k][..k - 1] == reqs[..k - 1];
      if reqs[k - 1].id !in Existing(log) {
        ExistingAppend(LogAfter(reqs, k - 1, log, run), Event(reqs[k - 1].id, run(reqs[k - 1].id)));
      }
    }
  }

  /** A resumed run runs nothing that an interrupted one has already dealt with. */
  lemma NeverRunsAgain(reqs: seq<Requirement>, k: nat, refs: seq<Ref>, log: seq<Event>, run: Runner)
    requires k <= |reqs|
    ensures forall j :: 0 <= j < k ==> reqs[j].id !in RunTo(reqs, |reqs|, refs, LogAfter(reqs, k, log, run), run).ran
  {
    var resumed := LogAfter(reqs, k, log, run);
    RunsOnlyUnrecorded(reqs, |reqs|, refs, resumed, run);
    forall j | 0 <= j < k ensures reqs[j].id !in RunTo(reqs, |reqs|, refs, resumed, run).ran {
      DealtWithIsRecorded(reqs, k, log, run, j);
    }
  }

  lemma RanGrows(reqs: seq<Requirement>, k: nat, refs: seq<Ref>, log: seq<Event>, run: Runner)
    requires 0 < k <= |reqs|
    ensures RunTo(reqs, k, refs, log, run).ran ==
      RunTo(reqs, k - 1, refs, log, run).ran + (if reqs[k - 1].id in Existing(log) then [] else [reqs[k - 1].id])
  {
    assert reqs[..k][..k - 1] == reqs[..k - 1];
  }

  lemma {:induction false} RunsEveryUnrecorded(
    reqs: seq<Requirement>, k: nat, refs: seq<Ref>, log: seq<Event>, run: Runner)
    requires k <= |reqs|
    ensures forall i :: 0 <= i < k && reqs[i].id !in Existing(log) ==> reqs[i].id in RunTo(reqs, k, refs, log, run).ran
    decreases k
  {
    if k > 0 {
      RunsEveryUnrecorded(reqs, k - 1, refs, log, run);
      RanGrows(reqs, k, refs, log, run);
    }
  }

  predicate IsDeclared(reqs: seq<Requirement>, k: nat, id: Id)
    requires k <= |reqs|
  {
    exists i :: 0 <= i < k && reqs[i].id == id
  }

  /** No id outside `known` occurs twice among the first `k` requirements. */
  predicate DeclaredOnce(reqs: seq<Requirement>, k: nat, known: set<Id>)
    requires k <= |reqs|
  {
    forall i, j :: 0 <= i < j < k && reqs[i].id == reqs[j].id ==> reqs[i].id in known
  }

  lemma OneMoreDeclared(reqs: seq<Requirement>, k: nat, known: set<Id>)
    requires 0 < k <= |reqs|
    ensures DeclaredOnce(reqs, k, known) <==>
            DeclaredOnce(reqs, k - 1, known) && (reqs[k - 1].id in known || !IsDeclared(reqs, k - 1, reqs[k - 1].id))
  {}

  lemma IsRunExactlyWhen(reqs: seq<Requirement>, k: nat, refs: seq<Ref>, log: seq<Event>, run: Runner, id: Id)
    requires k <= |reqs| && id !in Existing(log)
    ensures id in RunTo(reqs, k, refs, log, run).ran <==> IsDeclared(reqs, k, id)
  {
    RunsOnlyUnrecorded(reqs, k, refs, log, run);
    RunsEveryUnrecorded(reqs, k, refs, log, run);
  }

  /** Within one run no requirement is run twice exactly when no unrecorded id is declared twice:
      the recorded verdicts are read once, before the loop. */
  lemma {:induction false} RunsOnceExactlyWhen(
    reqs: seq<Requirement>, k: nat, refs: seq<Ref>, log: seq<Event>, run: Runner)
    requires k <= |reqs|
    ensures Distinct(RunTo(reqs, k, refs, log, run).ran) <==> DeclaredOnce(reqs, k, Existing(log).Keys)
    decreases k
  {
    if k > 0 {
      var before := RunTo(reqs, k - 1, refs, log, run).ran;
      RunsOnceExactlyWhen(reqs, k - 1, refs, log, run);
      RanGrows(reqs, k, refs, log, run);
      if reqs[k - 1].id !in Existing(log) {
        IsRunExactlyWhen(reqs, k - 1, refs, log, run, reqs[k - 1].id);
      }
      OneMoreRun(reqs, k, Existing(log).Keys, before, RunTo(reqs, k, refs, log, run).ran);
    }
  }

  lemma OneMoreRun(reqs: seq<Requirement>, k: nat, known: set<Id>, before: seq<Id>, after: seq<Id>)
    requires 0 < k <= |reqs| && (Distinct(before) <==> DeclaredOnce(reqs, k - 1, known))
    requires after == before + (if reqs[k - 1].id in known then [] else [reqs[k - 1].id])
    requires reqs[k - 1].id !in known ==> (reqs[k - 1].id in before <==> IsDeclared(reqs, k - 1, reqs[k - 1].id))
    ensures Distinct(after) <==> DeclaredOnce(reqs, k, known)
  {
    OneMoreDeclared(reqs, k, known);
    OnceMore(before, after, reqs[k - 1].id, reqs[k - 1].id in known, IsDeclared(reqs, k - 1, reqs[k - 1].id));
  }

  lemma OnceMore(before: seq<Id>, after: seq<Id>, id: Id, known: bool, declared: bool)
    requires after == before + (if known then [] else [id]) && (!known ==> (id in before <==> declared))
    ensures Distinct(after) <==> Distinct(before) && (known || !declared)
  {
    if known {
      assert after == before;
    } else {
      DistinctAppend(before, id);
    }
  }

  lemma DistinctAppend(s: seq<Id>, id: Id)
    ensures Distinct(s + [id]) <==> Distinct(s) && id !in s
  {
    var t := s + [id];
    if Distinct(t) {
      forall i, j | 0 <= i < j < |s| ensures s[i] != s[j] {
        assert t[i] != t[j];
      }
      forall i | 0 <= i < |s| ensures s[i] != id {
        assert t[i] != t[|s|];
      }
    }
  }

  function RefOf(reqs: seq<Requirement>, n: nat, log: seq<Event>, run: Runner): Ref
    requires n < |reqs|
  {
    Effective(log, run, reqs[n].id).ref
  }

  predicate IsVerdictRef(reqs: seq<Requirement>, k: nat, log: seq<Event>, run: Runner, ref: Ref)
    requires k <= |reqs|
  {
    exists n :: 0 <= n < k && RefOf(reqs, n, log, run) == ref
  }

  lemma RefsGrow(reqs: seq<Requirement>, k: nat, refs: seq<Ref>, log: seq<Event>, run: Runner)
    requires 0 < k <= |reqs|
    ensures RunTo(reqs, k, refs, log, run).refs
      == AddRef(RunTo(reqs, k - 1, refs, log, run).refs, RefOf(reqs, k - 1, log, run))
  {
    assert reqs[..k][..k - 1] == reqs[..k - 1];
  }

  lemma OneMoreRef(reqs: seq<Requirement>, k: nat, log: seq<Event>, run: Runner, ref: Ref)
    requires 0 < k <= |reqs|
    ensures IsVerdictRef(reqs, k, log, run, ref)
      <==> IsVerdictRef(reqs, k - 1, log, run, ref) || ref == RefOf(reqs, k - 1, log, run)
  {}

  /** The references of an outcome are those the attempt started with and behind them those of the
      verdicts that count, each once. */
  lemma {:induction false} RefsExactly(
    reqs: seq<Requirement>, k: nat, refs: seq<Ref>, log: seq<Event>, run: Runner)
    requires k <= |reqs|
    ensures RefsOk(reqs, k, refs, log, run, RunTo(reqs, k, refs, log, run).refs)
    decreases k
  {
    if k > 0 {
      RefsExactly(reqs, k - 1, refs, log, run);
      RefsGrow(reqs, k, refs, log, run);
      RefAdded(reqs, k, refs, log, run, RunTo(reqs, k - 1, refs, log, run).refs);
    }
  }

  predicate RefsOk(reqs: seq<Requirement>, k: nat, refs: seq<Ref>, log: seq<Event>, run: Runner, after: seq<Ref>)
    requires k <= |reqs|
  {
    && refs <= after && (Distinct(refs) ==> Distinct(after))
    && (forall ref :: ref in after ==> ref in refs || IsVerdictRef(reqs, k, log, run, ref))
    && (forall ref :: ref in refs ==> ref in after)
    && (forall n :: 0 <= n < k ==> RefOf(reqs, n, log, run) in after)
  }

  lemma RefAdded(
    reqs: seq<Requirement>, k: nat, refs: seq<Ref>, log: seq<Event>, run: Runner, before: seq<Ref>)
    requires 0 < k <= |reqs| && RefsOk(reqs, k - 1, refs, log, run, before)
    ensures RefsOk(reqs, k, refs, log, run, AddRef(before, RefOf(reqs, k - 1, log, run)))
  {
    var ref := RefOf(reqs, k - 1, log, run);
    DistinctAppend(before, ref);
    AddedRefs(before, ref);
    forall r ensures IsVerdictRef(reqs, k, log, run, r) <==> IsVerdictRef(reqs, k - 1, log, run, r) || r == ref {
      OneMoreRef(reqs, k, log, run, r);
    }
  }

  lemma AddedRefs(before: seq<Ref>, ref: Ref)
    ensures before <= AddRef(before, ref) && forall r :: r in AddRef(before, ref) <==> r in before || r == ref
  {}

  /** They stand in the order of the requirements: what the first ones give comes first. */
  lemma {:induction false} RefsFollowTheOrder(
    reqs: seq<Requirement>, m: nat, k: nat, refs: seq<Ref>, log: seq<Event>, run: Runner)
    requires m <= k <= |reqs|
    ensures RunTo(reqs, m, refs, log, run).refs <= RunTo(reqs, k, refs, log, run).refs
    decreases k
  {
    if m < k {
      RefsFollowTheOrder(reqs, m, k - 1, refs, log, run);
      RefsGrow(reqs, k, refs, log, run);
      AddedRefs(RunTo(reqs, k - 1, refs, log, run).refs, RefOf(reqs, k - 1, log, run));
    }
  }

  /** The failed list names the required requirements whose verdict that counts is not a pass. */
  lemma {:induction false} FailedExactly(
    reqs: seq<Requirement>, k: nat, refs: seq<Ref>, log: seq<Event>, run: Runner, id: Id)
    requires k <= |reqs|
    ensures id in RunTo(reqs, k, refs, log, run).failed <==>
            Effective(log, run, id).status != Passed && exists j :: 0 <= j < k && reqs[j].id == id && reqs[j].required
    decreases k
  {
    if k > 0 {
      FailedExactly(reqs, k - 1, refs, log, run, id);
      assert reqs[..k][..k - 1] == reqs[..k - 1];
      if reqs[k - 1].id == id && reqs[k - 1].required {
        assert exists j :: 0 <= j < k && reqs[j].id == id && reqs[j].required;
      }
    }
  }

  /** The attempt counts as completed exactly when every required requirement has passed and the
      references fit the outcome schema. */
  lemma CompletedExactlyWhen(reqs: seq<Requirement>, refs: seq<Ref>, log: seq<Event>, run: Runner)
    ensures Verify(reqs, refs, log, run).Completed? <==>
              && |RunTo(reqs, |reqs|, refs, log, run).refs| <= MAX_REFERENCES
              && forall j :: 0 <= j < |reqs| && reqs[j].required ==> Effective(log, run, reqs[j].id).status == Passed
  {
    var failed := RunTo(reqs, |reqs|, refs, log, run).failed;
    if failed != [] {
      FailedExactly(reqs, |reqs|, refs, log, run, failed[0]);
    }
    forall j | 0 <= j < |reqs| && reqs[j].required && Effective(log, run, reqs[j].id).status != Passed
      ensures reqs[j].id in failed
    {
      FailedExactly(reqs, |reqs|, refs, log, run, reqs[j].id);
    }
  }

  /** What an outcome tells: the references, the failed requirements, and that there are too many
      references for an outcome at all. */
  lemma OutcomeExactly(reqs: seq<Requirement>, refs: seq<Ref>, log: seq<Event>, run: Runner)
    ensures var o, all := Verify(reqs, refs, log, run), RunTo(reqs, |reqs|, refs, log, run).refs;
      && (o.Rejected? <==> |all| > MAX_REFERENCES)
      && (!o.Rejected? ==> o.refs == all)
      && (o.Failed? ==> o.failed != [] && forall id :: id in o.failed <==>
            Effective(log, run, id).status != Passed
            && exists j :: 0 <= j < |reqs| && reqs[j].id == id && reqs[j].required)
  {
    forall id ensures id in RunTo(reqs, |reqs|, refs, log, run).failed <==>
      Effective(log, run, id).status != Passed
      && exists j :: 0 <= j < |reqs| && reqs[j].id == id && reqs[j].required
    {
      FailedExactly(reqs, |reqs|, refs, log, run, id);
    }
  }

  // ---- the loop over the store ----

  class Store {
    var log: seq<Event>

    constructor (log: seq<Event>)
      ensures this.log == log
    {
      this.log := log;
    }

    method Record(e: Event)
      modifies this
      ensures log == old(log) + [e]
    {
      log := log + [e];
    }
  }

  /** `#verifyAttempt`, stopped by a crash once `stop` requirements have been dealt with. */
  method VerifyAttempt(store: Store, reqs: seq<Requirement>, refs: seq<Ref>, run: Runner, stop: nat)
    returns (outcome: Option<Outcome>, ran: seq<Id>)
    modifies store
    ensures var k := if stop < |reqs| then stop else |reqs|;
            var p := RunTo(reqs, k, refs, old(store.log), run);
            && store.log == LogAfter(reqs, k, old(store.log), run) && ran == p.ran
            && outcome == if stop < |reqs| then None else Some(Conclude(p))
  {
    LogIgnoresRefs(reqs, if stop < |reqs| then stop else |reqs|, refs, store.log, run);
    var existing := Existing(store.log);
    var verificationRefs, failedRequired := refs, [];
    ran := [];
    for i := 0 to |reqs|
      invariant i <= stop
      invariant Progress(verificationRefs, failedRequired, store.log, ran) == RunTo(reqs, i, refs, old(store.log), run)
    {
      if i == stop {
        return None, ran;
      }
      assert reqs[..i + 1][..i] == reqs[..i];
      var r := reqs[i];
      var verdict: Verdict;
      if r.id in existing {
        verdict := existing[r.id];
      } else {
        verdict := run(r.id);
        ran := ran + [r.id];
        store.Record(Event(r.id, verdict));
      }
      verificationRefs := AddRef(verificationRefs, verdict.ref);
      if r.required && verdict.status != Passed {
        failedRequired := failedRequired + [r.id];
      }
    }
    outcome := Some(Conclude(Progress(verificationRefs, failedRequired, store.log, ran)));
  }
}
