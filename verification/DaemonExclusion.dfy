/** Who may hold the workspace lock, and who may remove it. */
module DaemonExclusion {
  import opened Prelude
  import opened LockFiles
  import opened DaemonLock

  /** At every moment of every run at most one live call owns the lock, and the lock file then
      carries its token. */
  lemma MutualExclusion(steps: seq<Step>)
    ensures var s := After(steps);
            && (forall c :: Holds(s, c) ==> Carries(s.lock) == Some(s.calls[c].token))
            && (forall c, d :: Holds(s, c) && Holds(s, d) ==> c == d)
  {
    Invariant(steps);
  }

  /** A record of a live owner is changed by no step but that owner's; a record whose owner is
      dead is removed only by the holder of the recovery guard. */
  lemma OnlyRightfulRemoval(steps: seq<Step>, step: Step)
    ensures var s, s' := After(steps), Apply(After(steps), step);
            s'.lock != s.lock && s.lock.Some? ==>
              && s'.lock.None?
              && step.Act? && Live(s, step.c)
              && (s.calls[step.c].token == s.lock.value.token
                  || (s.guard == Some(step.c) && !OwnerAlive(s, s.lock.value.token)))
  {
    Invariant(steps);
    var s := After(steps);
    if step.Act? && Live(s, step.c) {
      LocalLock(See(s, step.c, step.nonce), step.error, step.nonce);
    }
  }

  lemma OneStepKeepsAbandoned(s: State, step: Step)
    requires Inv(s) && s.guard.Some? && !Live(s, s.guard.value)
    ensures Apply(s, step).guard == s.guard && !Live(Apply(s, step), s.guard.value)
  {
    if step.Act? && Live(s, step.c) {
      LocalGuard(See(s, step.c, step.nonce), step.error, step.nonce);
    }
  }

  /** An acquisition that crashed under the guard leaves the guard for good: no later step of
      any process removes it, so recovery fails closed. */
  lemma {:induction false} AbandonedGuardStays(steps: seq<Step>, more: seq<Step>)
    requires After(steps).guard.Some? && !Live(After(steps), After(steps).guard.value)
    ensures Run(After(steps), more).guard == After(steps).guard
    ensures !Live(Run(After(steps), more), After(steps).guard.value)
    ensures Inv(Run(After(steps), more))
  {
    if more == [] {
      Invariant(steps);
    } else {
      var before := Run(After(steps), more[..|more| - 1]);
      var step := more[|more| - 1];
      AbandonedGuardStays(steps, more[..|more| - 1]);
      StepKeepsInv(before, step);
      OneStepKeepsAbandoned(before, step);
    }
  }
}
