/** The plugin audit store: `record` calls chained behind `writeTail`, each reading the file,
    writing an extended copy, renaming it over the file and setting its mode; `list` calls that
    wait for the chain they saw. Any file operation may fail. */
module AuditLog {
  import opened Prelude

  type Event(==)

  /** A rejected record has its event in the log when only the last step, the mode, failed. */
  datatype Phase =
    | Waiting
    | Loaded(events: seq<Event>)
    | Written(events: seq<Event>)
    | Renamed
    | Resolved
    | Rejected(logged: bool)

  datatype Record = Record(event: Event, phase: Phase)

  datatype Listing = Pending | Returned(events: seq<Event>) | Failed

  /** `after` is the number of `record` calls made before the `list` call. */
  datatype List = List(after: nat, outcome: Listing)

  datatype State = State(file: Option<seq<Event>>, records: seq<Record>, lists: seq<List>)

  datatype Step =
    | CallRecord(event: Event)
    | Load(i: nat, ok: bool)
    | Write(i: nat, ok: bool)
    | Rename(i: nat, ok: bool)
    | Protect(i: nat, ok: bool)
    | CallList
    | Read(l: nat, ok: bool)

  function Log(file: Option<seq<Event>>): seq<Event> {
    if file.Some? then file.value else []
  }

  predicate IsSettled(r: Record) {
    r.phase.Resolved? || r.phase.Rejected?
  }

  /** The promise named by `writeTail` after `n` calls has settled. */
  predicate TailSettled(s: State, n: nat) {
    n <= |s.records| && (n == 0 || IsSettled(s.records[n - 1]))
  }

  predicate Enabled(s: State, step: Step) {
    match step
    case CallRecord(_) => true
    case Load(i, _) => i < |s.records| && s.records[i].phase.Waiting? && TailSettled(s, i)
    case Write(i, _) => i < |s.records| && s.records[i].phase.Loaded?
    case Rename(i, _) => i < |s.records| && s.records[i].phase.Written?
    case Protect(i, _) => i < |s.records| && s.records[i].phase.Renamed?
    case CallList => true
    case Read(l, _) => l < |s.lists| && s.lists[l].outcome.Pending? && TailSettled(s, s.lists[l].after)
  }

  function Moved(s: State, i: nat, phase: Phase): State
    requires i < |s.records|
  {
    s.(records := s.records[i := s.records[i].(phase := phase)])
  }

  function Apply(s: State, step: Step): State {
    if !Enabled(s, step) then s else
    match step
    case CallRecord(e) => s.(records := s.records + [Record(e, Waiting)])
    case Load(i, ok) => Moved(s, i, if ok then Loaded(Log(s.file)) else Rejected(false))
    case Write(i, ok) =>
      Moved(s, i, if ok then Written(s.records[i].phase.events + [s.records[i].event]) else Rejected(false))
    case Rename(i, ok) =>
      if ok then Moved(s.(file := Some(s.records[i].phase.events)), i, Renamed) else Moved(s, i, Rejected(false))
    case Protect(i, ok) => Moved(s, i, if ok then Resolved else Rejected(true))
    case CallList => s.(lists := s.lists + [List(|s.records|, Pending)])
    case Read(l, ok) =>
      s.(lists := s.lists[l := s.lists[l].(outcome := if ok then Returned(Log(s.file)) else Failed)])
  }

  function Start(file: Option<seq<Event>>): State {
    State(file, [], [])
  }

  function Run(s: State, steps: seq<Step>): State {
    if steps == [] then s else Apply(Run(s, steps[..|steps| - 1]), steps[|steps| - 1])
  }

  // ---- the log as the calls describe it ----

  predicate InLog(r: Record) {
    r.phase.Renamed? || r.phase.Resolved? || (r.phase.Rejected? && r.phase.logged)
  }

  /** The events of the records that took effect, in call order. */
  function Entries(records: seq<Record>): seq<Event> {
    if records == [] then [] else
      var last := records[|records| - 1];
      Entries(records[..|records| - 1]) + (if InLog(last) then [last.event] else [])
  }

  lemma {:induction false} EntriesSplit(records: seq<Record>, n: nat)
    requires n <= |records|
    ensures exists rest :: Entries(records) == Entries(records[..n]) + rest
    ensures (forall j :: n <= j < |records| ==> !InLog(records[j])) ==> Entries(records) == Entries(records[..n])
  {
    if n == |records| {
      assert records[..n] == records;
      assert Entries(records) == Entries(records[..n]) + [];
    } else {
      var k := |records| - 1;
      EntriesSplit(records[..k], n);
      assert records[..k][..n] == records[..n];
      var rest :| Entries(records[..k]) == Entries(records[..n]) + rest;
      var last := if InLog(records[k]) then [records[k].event] else [];
      assert Entries(records) == Entries(records[..n]) + (rest + last);
    }
  }

  /** A record that takes effect behind all others appends its event. */
  lemma EntriesAppend(records: seq<Record>, i: nat, phase: Phase)
    requires i < |records| && !InLog(records[i])
    requires forall j :: i < j < |records| ==> !InLog(records[j])
    ensures var after := records[i := records[i].(phase := phase)];
      Entries(after) == Entries(records) + (if InLog(after[i]) then [records[i].event] else [])
  {
    var after := records[i := records[i].(phase := phase)];
    EntriesSplit(records, i);
    EntriesSplit(after, i + 1);
    assert after[..i + 1][..i] == records[..i];
  }

  /** Changing a record without changing whether it took effect leaves the entries alone. */
  lemma {:induction false} EntriesSame(records: seq<Record>, i: nat, phase: Phase)
    requires i < |records| && InLog(records[i]) == InLog(records[i].(phase := phase))
    ensures Entries(records[i := records[i].(phase := phase)]) == Entries(records)
  {
    var after := records[i := records[i].(phase := phase)];
    var n := |records| - 1;
    if i == n {
      assert after[..n] == records[..n];
    } else {
      assert after[..n] == records[..n][i := records[i].(phase := phase)];
      EntriesSame(records[..n], i, phase);
    }
  }

  // ---- invariants of every run ----

  /** The copy a record holds extends the log as it is now. */
  predicate CopyOk(s: State, i: nat)
    requires i < |s.records|
  {
    var r := s.records[i];
    && (r.phase.Loaded? ==> r.phase.events == Log(s.file))
    && (r.phase.Written? ==> r.phase.events == Log(s.file) + [r.event])
  }

  predicate ListOk(initial: seq<Event>, s: State, l: nat)
    requires l < |s.lists|
  {
    var list := s.lists[l];
    && list.after <= |s.records|
    && (list.outcome.Returned? ==>
          && TailSettled(s, list.after)
          && initial + Entries(s.records[..list.after]) <= list.outcome.events <= Log(s.file))
  }

  ghost predicate Inv(initial: seq<Event>, s: State) {
    && Log(s.file) == initial + Entries(s.records)
    && (forall i, j :: 0 <= i < j < |s.records| && !IsSettled(s.records[i]) ==> s.records[j].phase.Waiting?)
    && (forall i :: 0 <= i < |s.records| ==> CopyOk(s, i))
    && (forall l :: 0 <= l < |s.lists| ==> ListOk(initial, s, l))
  }

  /** What one step does to the log: nothing, or it appends the event of the record that renames. */
  ghost predicate Appends(initial: seq<Event>, s: State, step: Step, s': State) {
    && Log(s'.file) ==
         Log(s.file) + (if Enabled(s, step) && step.Rename? && step.ok then [s.records[step.i].event] else [])
    && Log(s'.file) == initial + Entries(s'.records)
  }

  lemma {:induction false} MoveAppends(initial: seq<Event>, s: State, step: Step)
    requires Inv(initial, s) && Enabled(s, step) && !step.CallRecord? && !step.CallList? && !step.Read?
    ensures Appends(initial, s, step, Apply(s, step))
  {
    var phase := Apply(s, step).records[step.i].phase;
    assert CopyOk(s, step.i);
    if step.Protect? {
      EntriesSame(s.records, step.i, phase);
    } else {
      EntriesAppend(s.records, step.i, phase);
    }
  }

  /** A new record that has not run yet adds nothing. */
  lemma {:induction false} CallAppends(records: seq<Record>, e: Event)
    ensures Entries(records + [Record(e, Waiting)]) == Entries(records)
  {
    assert (records + [Record(e, Waiting)])[..|records|] == records;
  }

  lemma {:induction false} StepAppends(initial: seq<Event>, s: State, step: Step)
    requires Inv(initial, s)
    ensures Appends(initial, s, step, Apply(s, step))
  {
    if !Enabled(s, step) || step.CallList? || step.Read? {
      assert Apply(s, step).file == s.file && Apply(s, step).records == s.records;
    } else if step.CallRecord? {
      CallAppends(s.records, step.event);
    } else {
      MoveAppends(initial, s, step);
    }
  }

  lemma {:induction false} EarlierSettled(s: State, n: nat, j: nat)
    requires TailSettled(s, n) && j < n
    requires forall a, b :: 0 <= a < b < |s.records| && !IsSettled(s.records[a]) ==> s.records[b].phase.Waiting?
    ensures IsSettled(s.records[j])
  {}

  lemma StepKeepsOrder(initial: seq<Event>, s: State, step: Step)
    requires Inv(initial, s)
    ensures var s' := Apply(s, step);
      forall i, j :: 0 <= i < j < |s'.records| && !IsSettled(s'.records[i]) ==> s'.records[j].phase.Waiting?
  {
    if Enabled(s, step) && step.Load? {
      forall j | 0 <= j < step.i ensures IsSettled(s.records[j]) {
        EarlierSettled(s, step.i, j);
      }
    }
  }

  lemma {:induction false} StepKeepsCopies(initial: seq<Event>, s: State, step: Step, i: nat)
    requires Inv(initial, s) && i < |Apply(s, step).records|
    ensures CopyOk(Apply(s, step), i)
  {
    if i < |s.records| {
      assert CopyOk(s, i);
      if Enabled(s, step) && step.Rename? && step.i != i {
        OthersAreQuiet(initial, s, step.i, i);
      }
    }
  }

  /** While a record is between its first and its last step, every other is waiting or settled. */
  lemma OthersAreQuiet(initial: seq<Event>, s: State, i: nat, j: nat)
    requires Inv(initial, s) && i < |s.records| && j < |s.records| && i != j
    requires !IsSettled(s.records[i]) && !s.records[i].phase.Waiting?
    ensures IsSettled(s.records[j]) || s.records[j].phase.Waiting?
  {}

  lemma ReturnedListStays(initial: seq<Event>, s: State, step: Step, l: nat)
    requires Inv(initial, s) && l < |s.lists| && s.lists[l].outcome.Returned?
    ensures ListOk(initial, Apply(s, step), l)
  {
    StepAppends(initial, s, step);
    var s' := Apply(s, step);
    assert ListOk(initial, s, l);
    SettledStay(initial, s, step, s.lists[l].after);
    assert s'.lists[l] == s.lists[l];
  }

  /** No step touches the records before a settled tail. */
  lemma SettledStay(initial: seq<Event>, s: State, step: Step, n: nat)
    requires Inv(initial, s) && TailSettled(s, n)
    ensures |s.records| <= |Apply(s, step).records|
    ensures Apply(s, step).records[..n] == s.records[..n]
  {
    var s' := Apply(s, step);
    forall j | 0 <= j < n ensures s'.records[j] == s.records[j] {
      EarlierSettled(s, n, j);
    }
  }

  lemma ReadListOk(initial: seq<Event>, s: State, l: nat, ok: bool)
    requires Inv(initial, s) && Enabled(s, Read(l, ok))
    ensures ListOk(initial, Apply(s, Read(l, ok)), l)
  {
    var n := s.lists[l].after;
    EntriesSplit(s.records, n);
    var rest :| Entries(s.records) == Entries(s.records[..n]) + rest;
    assert Log(s.file) == (initial + Entries(s.records[..n])) + rest;
  }

  lemma StepKeepsList(initial: seq<Event>, s: State, step: Step, l: nat)
    requires Inv(initial, s) && l < |Apply(s, step).lists|
    ensures ListOk(initial, Apply(s, step), l)
  {
    if l < |s.lists| {
      assert ListOk(initial, s, l);
      if s.lists[l].outcome.Returned? {
        ReturnedListStays(initial, s, step, l);
      } else if step.Read? && step.l == l && Enabled(s, step) {
        ReadListOk(initial, s, l, step.ok);
      }
    }
  }

  lemma StepKeepsInv(initial: seq<Event>, s: State, step: Step)
    requires Inv(initial, s)
    ensures Inv(initial, Apply(s, step))
  {
    StepAppends(initial, s, step);
    StepKeepsOrder(initial, s, step);
    forall i | 0 <= i < |Apply(s, step).records| ensures CopyOk(Apply(s, step), i) {
      StepKeepsCopies(initial, s, step, i);
    }
    forall l | 0 <= l < |Apply(s, step).lists| ensures ListOk(initial, Apply(s, step), l) {
      StepKeepsList(initial, s, step, l);
    }
  }

  /** In every run the file holds what it held at the start and then, in call order, exactly the
      events of the records that took effect. */
  lemma {:induction false} Contents(file: Option<seq<Event>>, steps: seq<Step>)
    ensures var s := Run(Start(file), steps);
      Inv(Log(file), s) && Log(s.file) == Log(file) + Entries(s.records)
  {
    if steps != [] {
      Contents(file, steps[..|steps| - 1]);
      StepKeepsInv(Log(file), Run(Start(file), steps[..|steps| - 1]), steps[|steps| - 1]);
    }
  }

  /** Every step of every run is an atomic append of one event, or invisible in the log. */
  lemma RefinesAppend(file: Option<seq<Event>>, steps: seq<Step>, step: Step)
    ensures var s := Run(Start(file), steps);
      var s' := Apply(s, step);
      || Log(s'.file) == Log(s.file)
      || exists i :: 0 <= i < |s.records| && !InLog(s.records[i]) && InLog(s'.records[i])
                     && Log(s'.file) == Log(s.file) + [s.records[i].event]
  {
    Contents(file, steps);
    var s := Run(Start(file), steps);
    StepAppends(Log(file), s, step);
    if Enabled(s, step) && step.Rename? && step.ok {
      assert InLog(Apply(s, step).records[step.i]);
    }
  }

  /** The place of record `i` in the log: behind what was there and the earlier calls' events. */
  function Place(file: Option<seq<Event>>, s: State, i: nat): nat
    requires i < |s.records|
  {
    |Log(file)| + |Entries(s.records[..i])|
  }

  /** A record that resolved is in the log, at its own place. */
  lemma ResolvedIsLogged(file: Option<seq<Event>>, steps: seq<Step>, i: nat)
    requires var s := Run(Start(file), steps);
      i < |s.records| && s.records[i].phase.Resolved?
    ensures var s := Run(Start(file), steps);
      Place(file, s, i) < |Log(s.file)| && Log(s.file)[Place(file, s, i)] == s.records[i].event
  {
    Contents(file, steps);
    var s := Run(Start(file), steps);
    EntriesSplit(s.records, i + 1);
    var rest :| Entries(s.records) == Entries(s.records[..i + 1]) + rest;
    assert s.records[..i + 1][..i] == s.records[..i];
    assert Log(s.file) == Log(file) + (Entries(s.records[..i]) + [s.records[i].event] + rest);
  }

  /** No two calls share a place, and places follow call order: each event is there once. */
  lemma PlacesFollowCalls(file: Option<seq<Event>>, s: State, i: nat, j: nat)
    requires i < j < |s.records| && InLog(s.records[i])
    ensures Place(file, s, i) < Place(file, s, j)
  {
    EntriesSplit(s.records[..j], i + 1);
    assert s.records[..j][..i + 1][..i] == s.records[..i];
  }

  lemma OneMoreGrows(file: Option<seq<Event>>, steps: seq<Step>, step: Step)
    ensures Log(Run(Start(file), steps).file) <= Log(Run(Start(file), steps + [step]).file)
  {
    assert (steps + [step])[..|steps + [step]| - 1] == steps;
    Contents(file, steps);
    StepAppends(Log(file), Run(Start(file), steps), step);
  }

  /** Nothing is lost later: a longer run only extends the log. */
  lemma {:induction false} LogOnlyGrows(file: Option<seq<Event>>, steps: seq<Step>, more: seq<Step>)
    ensures Log(Run(Start(file), steps).file) <= Log(Run(Start(file), steps + more).file)
  {
    if more == [] {
      assert steps + more == steps;
    } else {
      var n := |more| - 1;
      var shorter := steps + more[..n];
      LogOnlyGrows(file, steps, more[..n]);
      assert steps + more == shorter + [more[n]];
      OneMoreGrows(file, shorter, more[n]);
    }
  }

  /** A listing shows every event logged by the calls made before it, and nothing that is not in
      the log. */
  lemma ListingsAreCurrent(file: Option<seq<Event>>, steps: seq<Step>, l: nat)
    requires var s := Run(Start(file), steps);
      l < |s.lists| && s.lists[l].outcome.Returned?
    ensures var s := Run(Start(file), steps);
      && s.lists[l].after <= |s.records|
      && Log(file) + Entries(s.records[..s.lists[l].after]) <= s.lists[l].outcome.events
      && s.lists[l].outcome.events <= Log(s.file)
  {
    Contents(file, steps);
    assert ListOk(Log(file), Run(Start(file), steps), l);
  }

  /** Which calls took effect: exactly those whose rename succeeded, whatever followed it. */
  lemma {:induction false} LoggedExactlyWhenRenamed(file: Option<seq<Event>>, steps: seq<Step>, i: nat)
    requires i < |Run(Start(file), steps).records|
    ensures InLog(Run(Start(file), steps).records[i])
      <==> exists k ::
             0 <= k < |steps| && steps[k] == Rename(i, true) && Enabled(Run(Start(file), steps[..k]), steps[k])
  {
    if steps != [] {
      var n := |steps| - 1;
      var before := steps[..n];
      forall k | 0 <= k < n ensures before[..k] == steps[..k] {}
      if i < |Run(Start(file), before).records| {
        LoggedExactlyWhenRenamed(file, before, i);
        if k :| 0 <= k < n && before[k] == Rename(i, true) && Enabled(Run(Start(file), before[..k]), before[k]) {
          assert steps[k] == Rename(i, true);
        }
      } else {
        NotRenamedBeforeItsCall(file, before, i);
      }
    }
  }

  lemma {:induction false} RecordsStay(file: Option<seq<Event>>, steps: seq<Step>, k: nat)
    requires k <= |steps|
    ensures |Run(Start(file), steps[..k]).records| <= |Run(Start(file), steps).records|
  {
    if k < |steps| {
      assert steps[..|steps| - 1][..k] == steps[..k];
      RecordsStay(file, steps[..|steps| - 1], k);
    } else {
      assert steps[..k] == steps;
    }
  }

  lemma NotRenamedBeforeItsCall(file: Option<seq<Event>>, steps: seq<Step>, i: nat)
    requires |Run(Start(file), steps).records| <= i
    ensures forall k :: 0 <= k < |steps| && steps[k] == Rename(i, true) ==>
      !Enabled(Run(Start(file), steps[..k]), steps[k])
  {
    forall k | 0 <= k < |steps| && steps[k] == Rename(i, true)
      ensures !Enabled(Run(Start(file), steps[..k]), steps[k])
    {
      RecordsStay(file, steps, k);
    }
  }

  lemma OneMore(s: State, steps: seq<Step>, step: Step, before: State, after: State) returns (longer: seq<Step>)
    requires Run(s, steps) == before && Apply(before, step) == after
    ensures Run(s, longer) == after
  {
    longer := steps + [step];
    assert longer[..|longer| - 1] == steps;
  }

  /** So the converse of `ResolvedIsLogged` fails: setting the mode comes after the rename, and
      a call can reject with its event in the log. */
  lemma RejectedMayBeLogged(e: Event) returns (steps: seq<Step>)
    ensures Run(Start(None), steps) == State(Some([e]), [Record(e, Rejected(true))], [])
  {
    var s0 := Start(None);
    var s1 := State(None, [Record(e, Waiting)], []);
    var s2 := State(None, [Record(e, Loaded([]))], []);
    var s3 := State(None, [Record(e, Written([e]))], []);
    var s4 := State(Some([e]), [Record(e, Renamed)], []);
    steps := OneMore(s0, [], CallRecord(e), s0, s1);
    steps := OneMore(s0, steps, Load(0, true), s1, s2);
    assert s2.records[0].phase.events + [e] == [e];
    steps := OneMore(s0, steps, Write(0, true), s2, s3);
    steps := OneMore(s0, steps, Rename(0, true), s3, s4);
    steps := OneMore(s0, steps, Protect(0, false), s4, State(Some([e]), [Record(e, Rejected(true))], []));
  }
}
