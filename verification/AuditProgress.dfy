/** What calls of the audit store come to when nothing fails. */
module AuditProgress {
  import opened Prelude
  import opened AuditLog

  /** The four file operations of record `i`. */
  function Saves(i: nat, ok: bool): seq<Step> {
    [Load(i, true), Write(i, true), Rename(i, true), Protect(i, ok)]
  }

  lemma {:induction false} RunJoins(s: State, a: seq<Step>, b: seq<Step>)
    ensures Run(s, a + b) == Run(Run(s, a), b)
  {
    if b == [] {
      assert a + b == a;
    } else {
      var n := |b| - 1;
      RunJoins(s, a, b[..n]);
      assert (a + b)[..|a + b| - 1] == a + b[..n];
    }
  }

  lemma RunOne(s: State, step: Step, more: seq<Step>)
    ensures Run(s, [step] + more) == Run(Apply(s, step), more)
  {
    RunJoins(s, [step], more);
    assert [step][..0] == [];
  }

  lemma FourSteps(s: State, a: Step, b: Step, c: Step, d: Step)
    ensures Run(s, [a, b, c, d]) == Apply(Apply(Apply(Apply(s, a), b), c), d)
  {
    assert [a] + [b, c, d] == [a, b, c, d] && [b] + [c, d] == [b, c, d] && [c] + [d] == [c, d] && [d] + [] == [d];
    RunOne(s, a, [b, c, d]);
    RunOne(Apply(s, a), b, [c, d]);
    RunOne(Apply(Apply(s, a), b), c, [d]);
    RunOne(Apply(Apply(Apply(s, a), b), c), d, []);
  }

  function With(s: State, i: nat, phase: Phase, file: Option<seq<Event>>): State
    requires i < |s.records|
  {
    Moved(s, i, phase).(file := file)
  }

  lemma SaveStep(s: State, i: nat, phase: Phase, file: Option<seq<Event>>, next: Phase, after: Option<seq<Event>>)
    requires i < |s.records|
    ensures Moved(With(s, i, phase, file), i, next).(file := after) == With(s, i, next, after)
  {
    var r := s.records[i];
    assert s.records[i := r.(phase := phase)][i := r.(phase := phase).(phase := next)]
        == s.records[i := r.(phase := next)];
  }

  predicate HasEnded(r: Record) {
    r.phase.Resolved? || r.phase.Rejected?
  }

  /** A record whose turn it is, because the one before has ended, and whose file operations
      succeed, resolves with its event at the end of the log; if only setting the mode fails it
      rejects, with its event in the log. */
  lemma SavingAppends(s: State, i: nat, ok: bool)
    requires i < |s.records| && s.records[i].phase.Waiting? && (i == 0 || HasEnded(s.records[i - 1]))
    ensures Run(s, Saves(i, ok)) ==
      With(s, i, if ok then Resolved else Rejected(true), Some(Log(s.file) + [s.records[i].event]))
  {
    var log, r := Log(s.file), s.records[i];
    var longer := log + [r.event];
    FourSteps(s, Load(i, true), Write(i, true), Rename(i, true), Protect(i, ok));
    assert Apply(s, Load(i, true)) == With(s, i, Loaded(log), s.file);
    Writes(s, i);
    Renames(s, i);
    Protects(s, i, ok);
  }

  lemma Writes(s: State, i: nat)
    requires i < |s.records|
    ensures var log := Log(s.file);
      Apply(With(s, i, Loaded(log), s.file), Write(i, true))
        == With(s, i, Written(log + [s.records[i].event]), s.file)
  {
    SaveStep(s, i, Loaded(Log(s.file)), s.file, Written(Log(s.file) + [s.records[i].event]), s.file);
  }

  lemma Renames(s: State, i: nat)
    requires i < |s.records|
    ensures var longer := Log(s.file) + [s.records[i].event];
      Apply(With(s, i, Written(longer), s.file), Rename(i, true)) == With(s, i, Renamed, Some(longer))
  {
    var longer := Log(s.file) + [s.records[i].event];
    SaveStep(s, i, Written(longer), s.file, Renamed, Some(longer));
  }

  lemma Protects(s: State, i: nat, ok: bool)
    requires i < |s.records|
    ensures var longer := Log(s.file) + [s.records[i].event];
      Apply(With(s, i, Renamed, Some(longer)), Protect(i, ok))
        == With(s, i, if ok then Resolved else Rejected(true), Some(longer))
  {
    var longer := Log(s.file) + [s.records[i].event];
    SaveStep(s, i, Renamed, Some(longer), if ok then Resolved else Rejected(true), Some(longer));
  }

  /** A file operation that fails rejects the record at once; the log keeps what it has. */
  lemma FailureRejects(s: State, i: nat, step: Step)
    requires Enabled(s, step) && step in {Load(i, false), Write(i, false), Rename(i, false)}
    ensures Apply(s, step) == Moved(s, i, Rejected(false))
  {}

  /** So some operation is possible as long as a record has not settled: the earliest of them. */
  lemma RecordsGoOn(initial: seq<Event>, s: State, i: nat) returns (j: nat, step: Step)
    requires Inv(initial, s) && i < |s.records| && !IsSettled(s.records[i])
    ensures j <= i && !IsSettled(s.records[j])
    ensures step in {Load(j, true), Write(j, true), Rename(j, true), Protect(j, true)}
    ensures Enabled(s, step)
  {
    j := i;
    while j > 0 && !IsSettled(s.records[j - 1])
      invariant j <= i && !IsSettled(s.records[j])
    {
      j := j - 1;
    }
    step := match s.records[j].phase
      case Waiting => Load(j, true)
      case Loaded(_) => Write(j, true)
      case Written(_) => Rename(j, true)
      case _ => Protect(j, true);
  }

  /** A listing whose turn it is returns the log as it then is. */
  lemma ListingReturns(s: State, l: nat)
    requires l < |s.lists| && s.lists[l].outcome.Pending? && s.lists[l].after <= |s.records|
    requires s.lists[l].after == 0 || HasEnded(s.records[s.lists[l].after - 1])
    ensures Apply(s, Read(l, true)) == s.(lists := s.lists[l := List(s.lists[l].after, Returned(Log(s.file)))])
  {}

  /** A call is always taken, behind all earlier ones. */
  lemma CallsAreTaken(s: State, e: Event)
    ensures Apply(s, CallRecord(e)) == s.(records := s.records + [Record(e, Waiting)])
    ensures Apply(s, CallList) == s.(lists := s.lists + [List(|s.records|, Pending)])
  {}
}
