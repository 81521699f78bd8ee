/** What file-system calls that fail make of a call on the workspace lock, and what others cannot. */
module DaemonFailures {
  import opened Prelude
  import opened LockFiles
  import opened DaemonLock
  import opened DaemonHandle

  /** Until it is released or its process dies an acquired lock is kept, whatever other calls do. */
  lemma HeldUntilReleased(steps: seq<Step>, step: Step, c: CallId)
    requires HoldsLock(After(steps), c) && step != ReleaseLock(c) && step != MarkReady(c)
    requires step != Crash(After(steps).calls[c].process)
    ensures var s, s' := After(steps), Apply(After(steps), step);
      HoldsLock(s', c) && s'.calls[c] == s.calls[c] && Carries(s'.lock) == Some(s.calls[c].token)
  {
    Invariant(steps);
    StepKeepsInv(After(steps), step);
    StaysHeld(After(steps), step, c);
    assert Holds(Apply(After(steps), step), c);
  }

  lemma StaysHeld(s: State, step: Step, c: CallId)
    requires HoldsLock(s, c) && step != ReleaseLock(c) && step != MarkReady(c) && step != Crash(s.calls[c].process)
    ensures HoldsLock(Apply(s, step), c) && Apply(s, step).calls[c] == s.calls[c]
  {}

  /** A call that has failed or released its lock does nothing more. */
  lemma EndedCallsRest(steps: seq<Step>, c: CallId, error: bool, nonce: nat)
    requires Live(After(steps), c) && (After(steps).calls[c].pc.Failed? || After(steps).calls[c].pc.Released?)
    ensures Apply(After(steps), Act(c, error, nonce)) == After(steps)
  {
    Invariant(steps);
    PcGoes(After(steps), c, error, nonce, After(steps).calls[c].pc);
    assert After(steps).calls[c := After(steps).calls[c]] == After(steps).calls;
  }

  /** The step changes only where the call stands. */
  lemma PcGoes(s: State, c: CallId, error: bool, nonce: nat, pc: Pc)
    requires TokensUnique(s) && Live(s, c) && !pc.ReadyRecheck?
    requires Local(See(s, c, nonce), error, nonce) == Go(See(s, c, nonce), pc)
    ensures Apply(s, Act(c, error, nonce)) == s.(calls := s.calls[c := s.calls[c].(pc := pc)])
  {
    assert s.issued[s.calls[c].token := c] == s.issued;
  }

  /** Between taking the guard and publishing, or while the lock is given back under the guard. */
  predicate WorksUnderGuard(pc: Pc) {
    match pc
    case ReadExisting => true
    case Judge(_) => true
    case Removing(why, _, _) => why.Recover? || why == Abort(true)
    case Relink(_) => true
    case AbortRead(guarded) => guarded
    case _ => false
  }

  /** The acquisition then fails after dropping the guard, and touches nothing else. */
  lemma FailureUnderGuard(steps: seq<Step>, c: CallId, nonce: nat)
    requires Live(After(steps), c) && WorksUnderGuard(After(steps).calls[c].pc)
    ensures var s := After(steps);
      Run(s, [Act(c, true, nonce), Act(c, false, nonce)])
        == s.(calls := s.calls[c := s.calls[c].(pc := Failed)], guard := None)
  {
    Invariant(steps);
    var s := After(steps);
    var first, second := Act(c, true, nonce), Act(c, false, nonce);
    PcGoes(s, c, true, nonce, DropGuard(Fail));
    GuardIsDropped(s, c, nonce);
    assert [first, second] == [first] + [second] && [second] + [] == [second];
    RunOne(s, first, [second]);
    RunOne(Apply(s, first), second, []);
  }

  lemma GuardIsDropped(s: State, c: CallId, nonce: nat)
    requires TokensUnique(s) && Live(s, c)
    ensures Apply(s.(calls := s.calls[c := s.calls[c].(pc := DropGuard(Fail))]), Act(c, false, nonce))
      == s.(calls := s.calls[c := s.calls[c].(pc := Failed)], guard := None)
  {
    var k := s.calls[c];
    var dropping := s.(calls := s.calls[c := k.(pc := DropGuard(Fail))]);
    assert s.issued[k.token := c] == s.issued;
    assert dropping.calls[c := k.(pc := Failed)] == s.calls[c := k.(pc := Failed)];
  }

  /** Without the guard it fails at once. */
  lemma FailureWithoutGuard(steps: seq<Step>, c: CallId, nonce: nat)
    requires Live(After(steps), c)
    requires match After(steps).calls[c].pc
             case Probe => true
             case Link => true
             case CreateGuard => true
             case AbortRead(guarded) => !guarded
             case Removing(why, _, _) => why == Abort(false)
             case _ => false
    ensures var s := After(steps);
      Apply(s, Act(c, true, nonce)) == s.(calls := s.calls[c := s.calls[c].(pc := Failed)])
  {
    Invariant(steps);
    PcGoes(After(steps), c, true, nonce, Failed);
  }

  /** A release whose reading or removing of the lock fails ends all the same and leaves it behind. */
  lemma FailedReleaseLeavesTheLock(steps: seq<Step>, c: CallId, nonce: nat)
    requires Live(After(steps), c)
    requires match After(steps).calls[c].pc
             case ReleaseRead => true
             case Removing(why, _, _) => why.Release?
             case _ => false
    ensures var s := After(steps);
      Apply(s, Act(c, true, nonce)) == s.(calls := s.calls[c := s.calls[c].(pc := Released)])
  {
    Invariant(steps);
    PcGoes(After(steps), c, true, nonce, Released);
  }

  /** A guard that cannot be unlinked stays behind, and changes nothing else about how the call goes
      on: one that has succeeded holds the lock. */
  lemma StuckGuardStays(steps: seq<Step>, c: CallId, nonce: nat)
    requires Live(After(steps), c) && After(steps).calls[c].pc.DropGuard? && !After(steps).calls[c].pc.exit.Retry?
    ensures var s := After(steps);
      var pc := if s.calls[c].pc.exit.Hold? then Held else Failed;
      Apply(s, Act(c, true, nonce)) == s.(calls := s.calls[c := s.calls[c].(pc := pc)])
  {
    Invariant(steps);
    PcGoes(After(steps), c, true, nonce, if After(steps).calls[c].pc.exit.Hold? then Held else Failed);
  }
}
