/** What a held lifecycle lease does when it is released, and what waiting calls do. */
module LifecycleHandle {
  import opened Prelude
  import opened LockFiles
  import opened LifecycleLock
  import opened LifecycleRecovery

  // ---- the steps of one call under its token ----

  /** What a call changes as long as it keeps its token. */
  datatype Seat = Seat(k: Call, lock: Cell, guard: Option<CallId>)

  function SeatOf(s: State, c: CallId): Seat
    requires c in s.calls
  {
    Seat(s.calls[c], s.lock, s.guard)
  }

  function At(s: State, c: CallId, x: Seat): State {
    s.(calls := s.calls[c := x.k], lock := x.lock, guard := x.guard)
  }

  /** The next file-system call; `alive` tells whether the owner it may judge is. */
  function NextSeat(c: CallId, x: Seat, alive: bool, late: bool, nonce: nat): Seat {
    var v := View(x.k, x.lock, x.guard.Some?, (x.k.pc.Judge? || x.k.pc.Rejudge?) && alive, false);
    var e := Local(v, false, late, nonce);
    Seat(e.k, e.lock, match e.guard case Keep => x.guard case Take => Some(c) case Drop => None)
  }

  predicate Judges(pc: Pc, owner: Option<Token>) {
    pc.Judge? || pc.Rejudge? ==> owner == Some(pc.existing)
  }

  /** The step begins no new turn of the loop. */
  predicate SameTurn(x: Seat, y: Seat) {
    y.k.token == x.k.token && y.k.process == x.k.process && !y.k.pc.Probe? && !x.k.pc.DropGuard?
  }

  ghost predicate IsPath(s: State, c: CallId, path: seq<Seat>, late: bool, nonce: nat,
                         owner: Option<Token>, alive: bool)
  {
    && path != [] && c in s.calls && path[0] == SeatOf(s, c)
    && (owner.Some? ==> OwnerAlive(s, owner.value) == alive)
    && forall i :: 0 < i < |path| ==> Follows(c, path, late, nonce, i, owner, alive)
  }

  predicate Follows(c: CallId, path: seq<Seat>, late: bool, nonce: nat, i: nat, owner: Option<Token>, alive: bool)
    requires 0 < i < |path|
  {
    && SameTurn(path[i - 1], path[i]) && Judges(path[i - 1].k.pc, owner)
    && path[i] == NextSeat(c, path[i - 1], alive, late, nonce)
  }

  /** `n` file-system calls of one call, with nothing failing. */
  function Acts(c: CallId, late: bool, nonce: nat, n: nat): seq<Step> {
    seq(n, _ => Act(c, false, late, nonce))
  }

  lemma SeatStep(s: State, c: CallId, x: Seat, alive: bool, late: bool, nonce: nat)
    requires Inv(s) && Live(s, c) && x.k.token == s.calls[c].token && x.k.process == s.calls[c].process
    requires x.k.pc.Judge? || x.k.pc.Rejudge? ==> OwnerAlive(s, x.k.pc.existing) == alive
    requires SameTurn(x, NextSeat(c, x, alive, late, nonce))
    ensures Apply(At(s, c, x), Act(c, false, late, nonce)) == At(s, c, NextSeat(c, x, alive, late, nonce))
  {
    var t := At(s, c, x);
    var v := View(x.k, x.lock, x.guard.Some?, (x.k.pc.Judge? || x.k.pc.Rejudge?) && alive, false);
    SeatSees(s, c, x, alive, nonce);
    SameLocal(See(t, c, nonce), v, late, nonce);
    SeatCommits(s, c, x, Local(v, false, late, nonce));
  }

  lemma SeatSees(s: State, c: CallId, x: Seat, alive: bool, nonce: nat)
    requires Live(s, c) && x.k.process == s.calls[c].process
    requires x.k.pc.Judge? || x.k.pc.Rejudge? ==> OwnerAlive(s, x.k.pc.existing) == alive
    ensures Live(At(s, c, x), c)
    ensures See(At(s, c, x), c, nonce).(used := false)
      == View(x.k, x.lock, x.guard.Some?, (x.k.pc.Judge? || x.k.pc.Rejudge?) && alive, false)
  {
    assert forall o :: Live(At(s, c, x), o) <==> Live(s, o);
  }

  /** Whether a number is a new token matters only where a new turn begins. */
  lemma SameLocal(v: View, w: View, late: bool, nonce: nat)
    requires v.(used := false) == w && !v.k.pc.DropGuard? && !Local(w, false, late, nonce).k.pc.Probe?
    ensures Local(v, false, late, nonce) == Local(w, false, late, nonce)
  {}

  lemma SeatCommits(s: State, c: CallId, x: Seat, e: Effect)
    requires Inv(s) && c in s.calls && e.k.token == s.calls[c].token
    ensures Commit(At(s, c, x), c, e)
      == At(s, c, Seat(e.k, e.lock, match e.guard case Keep => x.guard case Take => Some(c) case Drop => None))
  {
    assert s.issued[e.k.token := c] == s.issued;
    assert s.calls[c := x.k][c := e.k] == s.calls[c := e.k];
  }

  lemma {:induction false} PathIsRun(s: State, c: CallId, path: seq<Seat>, late: bool, nonce: nat,
                                     owner: Option<Token>, alive: bool, n: nat)
    requires Inv(s) && Live(s, c) && IsPath(s, c, path, late, nonce, owner, alive) && n < |path|
    ensures Run(s, Acts(c, late, nonce, n)) == At(s, c, path[n])
    ensures path[n].k.token == s.calls[c].token && path[n].k.process == s.calls[c].process
  {
    if n == 0 {
      assert s.calls[c := s.calls[c]] == s.calls;
    } else {
      PathIsRun(s, c, path, late, nonce, owner, alive, n - 1);
      assert Acts(c, late, nonce, n)[..n - 1] == Acts(c, late, nonce, n - 1);
      assert Follows(c, path, late, nonce, n, owner, alive);
      SeatStep(s, c, path[n - 1], alive, late, nonce);
    }
  }

  lemma RunOne(s: State, step: Step, more: seq<Step>)
    ensures Run(s, [step] + more) == Run(Apply(s, step), more)
  {
    RunJoins(s, [step], more);
    assert [step][..0] == [];
  }

  // ---- releasing ----

  predicate HoldsLease(s: State, c: CallId) {
    Live(s, c) && s.calls[c].pc.Held?
  }

  function ReleaseSteps(c: CallId): seq<Step> {
    [ReleaseLease(c)] + Acts(c, false, 0, 5)
  }

  /** Releasing removes the lease and touches nothing else. */
  lemma ReleaseRemovesLease(steps: seq<Step>, c: CallId)
    requires HoldsLease(After(steps), c)
    ensures var s := After(steps);
      Run(s, ReleaseSteps(c)) == s.(calls := s.calls[c := s.calls[c].(pc := Released)], lock := None)
  {
    Invariant(steps);
    var s := After(steps);
    var first := Apply(s, ReleaseLease(c));
    ReleasingStarts(s, c);
    var x, inode := SeatOf(first, c), s.lock.value.inode;
    ReleaseIsPath(first, c, x, inode);
    StepKeepsInv(s, ReleaseLease(c));
    PathIsRun(first, c, ReleasePath(x, inode), false, 0, None, false, 5);
    RunOne(s, ReleaseLease(c), Acts(c, false, 0, 5));
    Reseated(s, c, first, Seat(s.calls[c].(pc := Released), None, s.guard));
  }

  lemma Reseated(s: State, c: CallId, first: State, x: Seat)
    requires c in s.calls && c in first.calls && first == s.(calls := s.calls[c := first.calls[c]])
    ensures At(first, c, x) == At(s, c, x)
  {
    assert first.calls[c := x.k] == s.calls[c := x.k];
  }

  lemma ReleasingStarts(s: State, c: CallId)
    requires Inv(s) && HoldsLease(s, c)
    ensures var first := Apply(s, ReleaseLease(c));
      first == s.(calls := s.calls[c := s.calls[c].(pc := ReleaseRead)]) && Carries(s.lock) == Some(s.calls[c].token)
  {
    assert s.issued[s.calls[c].token := c] == s.issued;
    assert Holds(s, c);
  }

  function ReleasePath(x: Seat, inode: nat): seq<Seat> {
    var token := x.k.token;
    [x,
     x.(k := x.k.(pc := Removing(false, token, StatBefore))),
     x.(k := x.k.(pc := Removing(false, token, Compare(inode)))),
     x.(k := x.k.(pc := Removing(false, token, StatAfter(inode)))),
     x.(k := x.k.(pc := Removing(false, token, Unlink))),
     x.(k := x.k.(pc := Released), lock := None)]
  }

  lemma ReleaseFollows(c: CallId, x: Seat, inode: nat, i: nat)
    requires x.k.pc.ReleaseRead? && x.lock == Some(Record(x.k.token, inode)) && 0 < i < 6
    ensures Follows(c, ReleasePath(x, inode), false, 0, i, None, false)
  {}

  lemma ReleaseIsPath(s: State, c: CallId, x: Seat, inode: nat)
    requires c in s.calls && x == SeatOf(s, c)
    requires x.k.pc.ReleaseRead? && x.lock == Some(Record(x.k.token, inode))
    ensures IsPath(s, c, ReleasePath(x, inode), false, 0, None, false)
  {
    forall i | 0 < i < 6 ensures Follows(c, ReleasePath(x, inode), false, 0, i, None, false) {
      ReleaseFollows(c, x, inode, i);
    }
  }

  /** After a release the lease is free for the next call, unless a guard is in the way. */
  lemma ReleasedLeaseIsFree(steps: seq<Step>, c: CallId, d: CallId, process: ProcessId, token: Token, next: Token)
    requires HoldsLease(After(steps), c) && After(steps).guard.None?
    requires Fits(After(steps), d, process, token) && next !in After(steps).issued && next != token
    ensures var s := Run(After(steps), ReleaseSteps(c));
      var s' := Run(Apply(s, Start(d, process, token)), Alone(d, next, 2));
      Holds(s', d) && s'.calls[d].pc == Held && s'.lock == Some(Record(token, next))
  {
    ReleaseRemovesLease(steps, c);
    RunJoins(Init, steps, ReleaseSteps(c));
    StaleLeaseIsRecovered(steps + ReleaseSteps(c), d, process, token, next);
  }

  // ---- waiting ----

  /** A call that meets a live owner when its deadline has passed fails and leaves no trace. */
  lemma LateCallLeavesNoTrace(steps: seq<Step>, c: CallId, process: ProcessId, token: Token)
    requires Fits(After(steps), c, process, token) && After(steps).guard.None?
    requires var s := After(steps); s.lock.Some? && OwnerAlive(s, s.lock.value.token)
    ensures var first := Apply(After(steps), Start(c, process, token));
      c in first.calls
      && Run(first, Acts(c, true, 0, 5)) == first.(calls := first.calls[c := first.calls[c].(pc := Failed)])
  {
    Invariant(steps);
    var s := After(steps);
    var first := Apply(s, Start(c, process, token));
    StartKeepsInv(s, c, process, token);
    var x, owner := SeatOf(first, c), s.lock.value.token;
    forall i | 0 < i < 6 ensures Follows(c, RefusalPath(x, owner), true, 0, i, Some(owner), true) {
      RefusalFollows(c, x, owner, i);
    }
    PathIsRun(first, c, RefusalPath(x, owner), true, 0, Some(owner), true, 5);
  }

  function RefusalPath(x: Seat, owner: Token): seq<Seat> {
    [x, x.(k := x.k.(pc := Link)), x.(k := x.k.(pc := Inspect)), x.(k := x.k.(pc := ReadExisting)),
     x.(k := x.k.(pc := Judge(owner))), x.(k := x.k.(pc := Failed))]
  }

  lemma RefusalFollows(c: CallId, x: Seat, owner: Token, i: nat)
    requires x.k.pc.Probe? && x.guard.None? && Carries(x.lock) == Some(owner) && 0 < i < 6
    ensures Follows(c, RefusalPath(x, owner), true, 0, i, Some(owner), true)
  {}

  /** The call has found that it has to wait: a guard is there, the lease has gone meanwhile, or its
      owner is alive. */
  predicate MustWait(s: State, c: CallId) {
    Live(s, c) &&
    match s.calls[c].pc
    case Probe => s.guard.Some?
    case CreateGuard(_) => s.guard.Some?
    case Inspect => s.lock.None?
    case ReadExisting => s.lock.None?
    case Judge(existing) => OwnerAlive(s, existing)
    case _ => false
  }

  /** Then it fails if its deadline has passed, and else begins again under a new token; it changes
      nothing but its own turn. */
  lemma WaitingExactly(steps: seq<Step>, c: CallId, late: bool, next: Token)
    requires MustWait(After(steps), c) && next !in After(steps).issued
    ensures var s := After(steps);
      var k := if late then s.calls[c].(pc := Failed) else Call(s.calls[c].process, next, Probe);
      Apply(s, Act(c, false, late, next)) == s.(calls := s.calls[c := k], issued := s.issued[k.token := c])
  {
    Invariant(steps);
  }

  /** When the lease has changed hands before the guard was taken, the call drops the guard and
      begins again; the lease stays as it is. */
  lemma ChangedLeaseIsLeftAlone(steps: seq<Step>, c: CallId, next: Token)
    requires Live(After(steps), c) && After(steps).calls[c].pc.Reread? && next !in After(steps).issued
    requires Carries(After(steps).lock) != Some(After(steps).calls[c].pc.existing)
    ensures var s := After(steps);
      Run(s, Acts(c, false, next, 2)) == s.(
        calls := s.calls[c := Call(s.calls[c].process, next, Probe)],
        guard := None,
        issued := s.issued[next := c])
  {
    Invariant(steps);
    var s := After(steps);
    var act, k := Act(c, false, false, next), s.calls[c];
    var dropping := s.(calls := s.calls[c := k.(pc := DropGuard(false))]);
    ChangeIsSeen(s, c, next);
    GuardGoes(s, c, k, next);
    assert Acts(c, false, next, 2) == [act] + [act] && [act] + [] == [act];
    RunOne(s, act, [act]);
    RunOne(dropping, act, []);
  }

  lemma ChangeIsSeen(s: State, c: CallId, nonce: nat)
    requires Inv(s) && Live(s, c) && s.calls[c].pc.Reread? && Carries(s.lock) != Some(s.calls[c].pc.existing)
    ensures Apply(s, Act(c, false, false, nonce)) == s.(calls := s.calls[c := s.calls[c].(pc := DropGuard(false))])
  {
    assert s.issued[s.calls[c].token := c] == s.issued;
  }

  lemma GuardGoes(s: State, c: CallId, k: Call, next: Token)
    requires Live(s, c) && k == s.calls[c] && next !in s.issued
    ensures Apply(s.(calls := s.calls[c := k.(pc := DropGuard(false))]), Act(c, false, false, next))
      == s.(calls := s.calls[c := Call(k.process, next, Probe)], guard := None, issued := s.issued[next := c])
  {
    var dropping := s.(calls := s.calls[c := k.(pc := DropGuard(false))]);
    assert dropping.calls[c := Call(k.process, next, Probe)] == s.calls[c := Call(k.process, next, Probe)];
  }

  // ---- holding, and calls that fail ----

  /** Until it is released or its process dies a lease is kept, whatever other calls do. */
  lemma HeldUntilReleased(steps: seq<Step>, step: Step, c: CallId)
    requires HoldsLease(After(steps), c) && step != ReleaseLease(c)
    requires step != Crash(After(steps).calls[c].process)
    ensures var s, s' := After(steps), Apply(After(steps), step);
      HoldsLease(s', c) && s'.calls[c] == s.calls[c] && Carries(s'.lock) == Some(s.calls[c].token)
  {
    Invariant(steps);
    StepKeepsInv(After(steps), step);
    StaysHeld(After(steps), step, c);
    assert Holds(Apply(After(steps), step), c);
  }

  lemma StaysHeld(s: State, step: Step, c: CallId)
    requires HoldsLease(s, c) && step != ReleaseLease(c) && step != Crash(s.calls[c].process)
    ensures HoldsLease(Apply(s, step), c) && Apply(s, step).calls[c] == s.calls[c]
  {}

  /** A call that has failed or released its lease does nothing more. */
  lemma EndedCallsRest(steps: seq<Step>, c: CallId, error: bool, late: bool, nonce: nat)
    requires Live(After(steps), c) && (After(steps).calls[c].pc.Failed? || After(steps).calls[c].pc.Released?)
    ensures Apply(After(steps), Act(c, error, late, nonce)) == After(steps)
  {
    Invariant(steps);
    var s := After(steps);
    assert s.issued[s.calls[c].token := c] == s.issued && s.calls[c := s.calls[c]] == s.calls;
  }

  /** A release one of whose file-system calls fails ends all the same and leaves the lease behind. */
  lemma FailedReleaseLeavesTheLease(steps: seq<Step>, c: CallId, late: bool, nonce: nat)
    requires var s := After(steps);
      Live(s, c) && (s.calls[c].pc.ReleaseRead? || (s.calls[c].pc.Removing? && !s.calls[c].pc.recover))
    ensures var s := After(steps);
      Apply(s, Act(c, true, late, nonce)) == s.(calls := s.calls[c := s.calls[c].(pc := Released)])
  {
    Invariant(steps);
    var s := After(steps);
    assert s.issued[s.calls[c].token := c] == s.issued;
  }

  /** A file-system call that fails under the guard makes the acquisition fail, after it has dropped
      the guard; an owner that is alive after all, or whose identity cannot be read, makes it wait. */
  lemma FailureUnderGuard(steps: seq<Step>, c: CallId, next: Token)
    requires Live(After(steps), c) && Guarded(After(steps).calls[c].pc) && !After(steps).calls[c].pc.DropGuard?
    requires next !in After(steps).issued
    ensures var s := After(steps);
      var k := if s.calls[c].pc.Rejudge? then Call(s.calls[c].process, next, Probe) else s.calls[c].(pc := Failed);
      Run(s, [Act(c, true, false, 0), Act(c, false, false, next)])
        == s.(calls := s.calls[c := k], guard := None, issued := s.issued[k.token := c])
  {
    Invariant(steps);
    var s := After(steps);
    var k, fail := s.calls[c], !s.calls[c].pc.Rejudge?;
    var first, second := Act(c, true, false, 0), Act(c, false, false, next);
    FailureDrops(s, c);
    GuardGoesOn(s, c, k, fail, next);
    assert [first, second] == [first] + [second] && [second] + [] == [second];
    RunOne(s, first, [second]);
    RunOne(Apply(s, first), second, []);
  }

  lemma FailureDrops(s: State, c: CallId)
    requires Inv(s) && Live(s, c) && Guarded(s.calls[c].pc) && !s.calls[c].pc.DropGuard?
    ensures Apply(s, Act(c, true, false, 0))
      == s.(calls := s.calls[c := s.calls[c].(pc := DropGuard(!s.calls[c].pc.Rejudge?))])
  {
    assert s.issued[s.calls[c].token := c] == s.issued;
  }

  lemma GuardGoesOn(s: State, c: CallId, k: Call, fail: bool, next: Token)
    requires Inv(s) && Live(s, c) && k == s.calls[c] && next !in s.issued
    ensures var k' := if fail then k.(pc := Failed) else Call(k.process, next, Probe);
      Apply(s.(calls := s.calls[c := k.(pc := DropGuard(fail))]), Act(c, false, false, next))
        == s.(calls := s.calls[c := k'], guard := None, issued := s.issued[k'.token := c])
  {
    var dropping := s.(calls := s.calls[c := k.(pc := DropGuard(fail))]);
    var k' := if fail then k.(pc := Failed) else Call(k.process, next, Probe);
    assert dropping.calls[c := k'] == s.calls[c := k'];
  }
}
