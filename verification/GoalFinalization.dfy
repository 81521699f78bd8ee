/** The final verification of a goal (`#verifyAndFinalizeGoal`), while others write to the store. */
module GoalFinalization {
  import opened Prelude
  import opened AttemptVerification

  datatype Unit = Unit(required: bool, accepted: bool)

  /** What other writers append to the log before the result of each turn. */
  type Noise = nat -> seq<Event>

  predicate Acceptable(units: seq<Unit>) {
    forall u :: u in units && u.required ==> u.accepted
  }

  predicate Names(reqs: seq<Requirement>, id: Id) {
    exists j :: 0 <= j < |reqs| && reqs[j].id == id
  }

  predicate Foreign(reqs: seq<Requirement>, events: seq<Event>) {
    forall e :: e in events ==> !Names(reqs, e.requirement)
  }

  /** Other writers record nothing about these requirements. */
  ghost predicate Quiet(reqs: seq<Requirement>, noise: Noise) {
    forall i :: Foreign(reqs, noise(i))
  }

  /** The log once `k` requirements have been dealt with. */
  function LogTo(reqs: seq<Requirement>, k: nat, log: seq<Event>, run: Runner, noise: Noise): seq<Event>
    requires k <= |reqs|
  {
    if k == 0 then log
    else
      var before, id := LogTo(reqs, k - 1, log, run, noise), reqs[k - 1].id;
      if id in Existing(log) then before else before + noise(k - 1) + [Event(id, run(id))]
  }

  /** The requirements run by then. */
  function RanTo(reqs: seq<Requirement>, k: nat, log: seq<Event>): seq<Id>
    requires k <= |reqs|
  {
    if k == 0 then []
    else RanTo(reqs, k - 1, log) + (if reqs[k - 1].id in Existing(log) then [] else [reqs[k - 1].id])
  }

  predicate AllPassed(reqs: seq<Requirement>, log: seq<Event>) {
    forall r :: r in reqs && r.required ==> r.id in Existing(log) && Existing(log)[r.id].status == Passed
  }

  /** Every required check passes by the verdict that counts. */
  predicate RequiredPass(reqs: seq<Requirement>, log: seq<Event>, run: Runner) {
    forall r :: r in reqs && r.required ==> Effective(log, run, r.id).status == Passed
  }

  /** Whether a run to the end finalises the goal. */
  predicate Finalizes(units: seq<Unit>, reqs: seq<Requirement>, log: seq<Event>, run: Runner, noise: Noise) {
    Acceptable(units) && AllPassed(reqs, LogTo(reqs, |reqs|, log, run, noise))
  }

  lemma {:induction false} OthersDoNotMatter(log: seq<Event>, more: seq<Event>, id: Id)
    requires forall e :: e in more ==> e.requirement != id
    ensures id in Existing(log + more) <==> id in Existing(log)
    ensures id in Existing(log) ==> Existing(log + more)[id] == Existing(log)[id]
  {
    if more == [] {
      assert log + more == log;
    } else {
      var n := |more| - 1;
      assert log + more == (log + more[..n]) + [more[n]];
      OthersDoNotMatter(log, more[..n], id);
      ExistingAppend(log + more[..n], more[n]);
    }
  }

  /** A turn keeps the verdict that counts for every requirement, and records its own. */
  lemma TurnKeepsVerdict(reqs: seq<Requirement>, before: seq<Event>, noise: seq<Event>, ran: Id, run: Runner, id: Id)
    requires Names(reqs, id) && Foreign(reqs, noise)
    requires ran == id ==> Effective(before, run, id) == run(id)
    ensures var after := before + noise + [Event(ran, run(ran))];
      && Effective(after, run, id) == Effective(before, run, id)
      && (id in Existing(after) <==> id == ran || id in Existing(before))
  {
    OthersDoNotMatter(before, noise, id);
    ExistingAppend(before + noise, Event(ran, run(ran)));
  }

  /** Running and recording does not change the verdict that counts for any requirement; those
      dealt with are recorded, and none of the others is. */
  lemma {:induction false} VerdictKept(
      reqs: seq<Requirement>, k: nat, log: seq<Event>, run: Runner, noise: Noise, id: Id)
    requires k <= |reqs| && Names(reqs, id) && Quiet(reqs, noise)
    ensures Effective(LogTo(reqs, k, log, run, noise), run, id) == Effective(log, run, id)
    ensures id in Existing(LogTo(reqs, k, log, run, noise)) <==> id in Existing(log) || Names(reqs[..k], id)
    decreases k
  {
    if k > 0 {
      VerdictKept(reqs, k - 1, log, run, noise, id);
      NamesLast(reqs, k, id);
      if reqs[k - 1].id !in Existing(log) {
        var before := LogTo(reqs, k - 1, log, run, noise);
        TurnKeepsVerdict(reqs, before, noise(k - 1), reqs[k - 1].id, run, id);
      }
    }
  }

  lemma NamesLast(reqs: seq<Requirement>, k: nat, id: Id)
    requires 0 < k <= |reqs|
    ensures Names(reqs[..k], id) <==> Names(reqs[..k - 1], id) || reqs[k - 1].id == id
  {
    var longer, shorter := reqs[..k], reqs[..k - 1];
    assert longer == shorter + [reqs[k - 1]];
    forall j | 0 <= j < k - 1 ensures longer[j] == shorter[j] {}
    assert longer[k - 1] == reqs[k - 1];
  }

  /** The goal is finalised exactly when every required unit is accepted and every required check
      passes by the verdict that counts: the one recorded before, or the one its run gives. */
  lemma FinalizesExactlyWhen(units: seq<Unit>, reqs: seq<Requirement>, log: seq<Event>, run: Runner, noise: Noise)
    requires Quiet(reqs, noise)
    ensures Finalizes(units, reqs, log, run, noise) <==> Acceptable(units) && RequiredPass(reqs, log, run)
  {
    var after := LogTo(reqs, |reqs|, log, run, noise);
    forall r | r in reqs
      ensures r.id in Existing(after) && Existing(after)[r.id] == Effective(log, run, r.id)
    {
      var j :| 0 <= j < |reqs| && reqs[j] == r;
      assert reqs[..|reqs|] == reqs && Names(reqs, r.id);
      VerdictKept(reqs, |reqs|, log, run, noise, r.id);
    }
  }

  // ---- interruptions ----

  /** A run that crashed once `stop` requirements had been dealt with. */
  datatype Interruption = Interruption(stop: nat, noise: Noise)

  ghost predicate Fits(reqs: seq<Requirement>, runs: seq<Interruption>) {
    forall i :: 0 <= i < |runs| ==> runs[i].stop <= |reqs| && Quiet(reqs, runs[i].noise)
  }

  /** What interrupted runs leave behind. */
  ghost function LogAfterRuns(
      reqs: seq<Requirement>, runs: seq<Interruption>, log: seq<Event>, run: Runner): seq<Event>
    requires Fits(reqs, runs)
  {
    if runs == [] then log
    else
      var n := |runs| - 1;
      LogTo(reqs, runs[n].stop, LogAfterRuns(reqs, runs[..n], log, run), run, runs[n].noise)
  }

  lemma {:induction false} VerdictKeptByRuns(
      reqs: seq<Requirement>, runs: seq<Interruption>, log: seq<Event>, run: Runner, id: Id)
    requires Fits(reqs, runs) && Names(reqs, id)
    ensures Effective(LogAfterRuns(reqs, runs, log, run), run, id) == Effective(log, run, id)
  {
    if runs != [] {
      var n := |runs| - 1;
      VerdictKeptByRuns(reqs, runs[..n], log, run, id);
      VerdictKept(reqs, runs[n].stop, LogAfterRuns(reqs, runs[..n], log, run), run, runs[n].noise, id);
    }
  }

  /** Any number of interrupted runs before it, whatever others wrote meanwhile, leave the answer
      of a run to the end as it is. */
  lemma ResumingTheGoalIsInvisible(units: seq<Unit>, reqs: seq<Requirement>, runs: seq<Interruption>, log: seq<Event>,
                                   run: Runner, noise: Noise, noise': Noise)
    requires Fits(reqs, runs) && Quiet(reqs, noise) && Quiet(reqs, noise')
    ensures Finalizes(units, reqs, LogAfterRuns(reqs, runs, log, run), run, noise)
      <==> Finalizes(units, reqs, log, run, noise')
  {
    var resumed := LogAfterRuns(reqs, runs, log, run);
    FinalizesExactlyWhen(units, reqs, resumed, run, noise);
    FinalizesExactlyWhen(units, reqs, log, run, noise');
    forall r | r in reqs ensures Effective(resumed, run, r.id) == Effective(log, run, r.id) {
      var j :| 0 <= j < |reqs| && reqs[j] == r;
      assert Names(reqs, r.id);
      VerdictKeptByRuns(reqs, runs, log, run, r.id);
    }
  }

  /** A run runs exactly the requirements without a recorded verdict. */
  lemma {:induction false} RunsExactlyTheUnrecorded(reqs: seq<Requirement>, k: nat, log: seq<Event>, id: Id)
    requires k <= |reqs|
    ensures id in RanTo(reqs, k, log) <==> id !in Existing(log) && Names(reqs[..k], id)
    decreases k
  {
    if k > 0 {
      RunsExactlyTheUnrecorded(reqs, k - 1, log, id);
      NamesLast(reqs, k, id);
    }
  }

  /** So after an interruption a run runs exactly the requirements that were neither recorded
      before nor dealt with by the interrupted run. */
  lemma ResumedRunsTheRest(reqs: seq<Requirement>, stop: nat, log: seq<Event>, run: Runner, noise: Noise, id: Id)
    requires stop <= |reqs| && Quiet(reqs, noise)
    ensures id in RanTo(reqs, |reqs|, LogTo(reqs, stop, log, run, noise))
      <==> id !in Existing(log) && Names(reqs, id) && !Names(reqs[..stop], id)
  {
    var resumed := LogTo(reqs, stop, log, run, noise);
    RunsExactlyTheUnrecorded(reqs, |reqs|, resumed, id);
    assert reqs[..|reqs|] == reqs;
    if Names(reqs, id) {
      VerdictKept(reqs, stop, log, run, noise, id);
    }
  }

  // ---- the method ----

  /** `#verifyAndFinalizeGoal` once the goal is known to execute an active plan, stopped by a
      crash once `stop` requirements have been dealt with: `finalized` is then absent. */
  method VerifyAndFinalizeGoal(
      store: Store, units: seq<Unit>, reqs: seq<Requirement>, run: Runner, noise: Noise, stop: nat)
    returns (finalized: Option<bool>, ran: seq<Id>)
    modifies store
    ensures !Acceptable(units) ==> finalized == Some(false) && ran == [] && store.log == old(store.log)
    ensures Acceptable(units) ==>
      var k := if stop < |reqs| then stop else |reqs|;
      && store.log == LogTo(reqs, k, old(store.log), run, noise) && ran == RanTo(reqs, k, old(store.log))
      && (finalized.None? <==> stop < |reqs|)
    ensures finalized.Some? ==> (finalized.value <==> Finalizes(units, reqs, old(store.log), run, noise))
    ensures finalized.Some? && Quiet(reqs, noise) ==>
      (finalized.value <==> Acceptable(units) && RequiredPass(reqs, old(store.log), run))
  {
    ran := [];
    if exists u :: u in units && u.required && !u.accepted {
      return Some(false), ran;
    }
    ghost var log := store.log;
    var existing := Existing(store.log);
    for i := 0 to |reqs|
      invariant i <= stop && store.log == LogTo(reqs, i, log, run, noise) && ran == RanTo(reqs, i, log)
    {
      if i == stop {
        return None, ran;
      }
      if reqs[i].id !in existing {
        ran := ran + [reqs[i].id];
        store.log := store.log + noise(i);
        store.Record(Event(reqs[i].id, run(reqs[i].id)));
      }
    }
    var current := Existing(store.log);
    finalized := Some(forall r :: r in reqs && r.required ==> r.id in current && current[r.id].status == Passed);
    if Quiet(reqs, noise) {
      FinalizesExactlyWhen(units, reqs, log, run, noise);
    }
  }
}
