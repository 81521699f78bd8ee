/** What the handle of an acquired workspace lock does when nobody interferes: `markReady`,
    `release`, the inspector's answer, and the way back when the acquisition fails. */
module DaemonHandle {
  import opened Prelude
  import opened LockFiles
  import opened DaemonLock
  import opened DaemonRecovery

  // ---- the steps of one call under its token ----

  /** What a call changes as long as it keeps its token. */
  datatype Seat = Seat(k: Call, lock: Cell, guard: Option<CallId>, marker: Cell, marked: set<Token>)

  function SeatOf(s: State, c: CallId): Seat
    requires c in s.calls
  {
    Seat(s.calls[c], s.lock, s.guard, s.marker, s.marked)
  }

  function At(s: State, c: CallId, x: Seat): State {
    s.(calls := s.calls[c := x.k], lock := x.lock, guard := x.guard, marker := x.marker, marked := x.marked)
  }

  /** The next file-system call; `alive` tells whether the owner it may judge is. */
  function NextSeat(c: CallId, x: Seat, alive: bool, error: bool, nonce: nat): Seat {
    var v := View(x.k, x.lock, x.guard.Some?, x.marker, x.k.pc.Judge? && alive, false);
    var e := Local(v, error, nonce);
    Seat(e.k, e.lock, match e.guard case Keep => x.guard case Take => Some(c) case Drop => None, e.marker,
         if e.k.pc.ReadyRecheck? then x.marked + {e.k.token} else x.marked)
  }

  /** Entry `i` of the path follows from the one before by the call's next step, without a new turn
      of the loop; the only owner it judges is the given one. */
  predicate Follows(c: CallId, path: seq<Seat>, acts: seq<Step>, i: nat, owner: Option<Token>, alive: bool)
    requires |path| == |acts| + 1 && 0 < i < |path|
  {
    && acts[i - 1].Act? && acts[i - 1].c == c && path[i - 1].k.pc != DropGuard(Retry)
    && (path[i - 1].k.pc.Judge? ==> owner == Some(path[i - 1].k.pc.existing))
    && path[i] == NextSeat(c, path[i - 1], alive, acts[i - 1].error, acts[i - 1].nonce)
  }

  ghost predicate IsPath(s: State, c: CallId, path: seq<Seat>, acts: seq<Step>, owner: Option<Token>, alive: bool) {
    && |path| == |acts| + 1 && c in s.calls && path[0] == SeatOf(s, c)
    && (owner.Some? ==> OwnerAlive(s, owner.value) == alive)
    && forall i :: 0 < i < |path| ==> Follows(c, path, acts, i, owner, alive)
  }

  lemma NextKeepsToken(c: CallId, x: Seat, alive: bool, error: bool, nonce: nat)
    requires x.k.pc != DropGuard(Retry)
    ensures var y := NextSeat(c, x, alive, error, nonce);
      y.k.token == x.k.token && y.k.process == x.k.process
  {}

  lemma SeatStep(s: State, c: CallId, x: Seat, alive: bool, error: bool, nonce: nat)
    requires TokensUnique(s) && Live(s, c) && x.k.pc != DropGuard(Retry)
    requires x.k.token == s.calls[c].token && x.k.process == s.calls[c].process
    requires x.k.pc.Judge? ==> OwnerAlive(s, x.k.pc.existing) == alive
    ensures Apply(At(s, c, x), Act(c, error, nonce)) == At(s, c, NextSeat(c, x, alive, error, nonce))
  {
    NextKeepsToken(c, x, alive, error, nonce);
    SeatSees(s, c, x, alive, nonce);
    var v := View(x.k, x.lock, x.guard.Some?, x.marker, x.k.pc.Judge? && alive, false);
    SameLocal(See(At(s, c, x), c, nonce), v, error, nonce);
    SeatCommits(s, c, x, Local(v, error, nonce));
  }

  lemma SeatSees(s: State, c: CallId, x: Seat, alive: bool, nonce: nat)
    requires Live(s, c) && x.k.process == s.calls[c].process
    requires x.k.pc.Judge? ==> OwnerAlive(s, x.k.pc.existing) == alive
    ensures Live(At(s, c, x), c)
    ensures See(At(s, c, x), c, nonce).(used := false)
      == View(x.k, x.lock, x.guard.Some?, x.marker, x.k.pc.Judge? && alive, false)
  {
    assert forall o :: Live(At(s, c, x), o) <==> Live(s, o);
  }

  lemma SeatCommits(s: State, c: CallId, x: Seat, e: Effect)
    requires TokensUnique(s) && c in s.calls && e.k.token == s.calls[c].token
    ensures Commit(At(s, c, x), c, e) == At(s, c, Seat(
      e.k, e.lock, match e.guard case Keep => x.guard case Take => Some(c) case Drop => None, e.marker,
      if e.k.pc.ReadyRecheck? then x.marked + {e.k.token} else x.marked))
  {
    assert s.issued[e.k.token := c] == s.issued;
    assert s.calls[c := x.k][c := e.k] == s.calls[c := e.k];
  }

  /** Whether a number is a new token matters only where a new turn begins. */
  lemma SameLocal(v: View, w: View, error: bool, nonce: nat)
    requires v.(used := false) == w && v.k.pc != DropGuard(Retry)
    ensures Local(v, error, nonce) == Local(w, error, nonce)
  {}

  lemma {:induction false} PathIsRun(s: State, c: CallId, path: seq<Seat>, acts: seq<Step>,
                                     owner: Option<Token>, alive: bool, n: nat)
    requires TokensUnique(s) && Live(s, c) && IsPath(s, c, path, acts, owner, alive) && n <= |acts|
    ensures Run(s, acts[..n]) == At(s, c, path[n])
    ensures path[n].k.token == s.calls[c].token && path[n].k.process == s.calls[c].process
  {
    if n == 0 {
      assert s.calls[c := s.calls[c]] == s.calls;
    } else {
      PathIsRun(s, c, path, acts, owner, alive, n - 1);
      assert acts[..n][..n - 1] == acts[..n - 1];
      assert Follows(c, path, acts, n, owner, alive);
      NextKeepsToken(c, path[n - 1], alive, acts[n - 1].error, acts[n - 1].nonce);
      SeatStep(s, c, path[n - 1], alive, acts[n - 1].error, acts[n - 1].nonce);
    }
  }

  /** Where the path ends. */
  lemma PathEnds(s: State, c: CallId, path: seq<Seat>, acts: seq<Step>, owner: Option<Token>, alive: bool)
    requires TokensUnique(s) && Live(s, c) && IsPath(s, c, path, acts, owner, alive)
    ensures Run(s, acts) == At(s, c, path[|acts|])
  {
    PathIsRun(s, c, path, acts, owner, alive, |acts|);
    assert acts[..|acts|] == acts;
  }

  lemma {:induction false} RunJoins(s: State, a: seq<Step>, b: seq<Step>)
    ensures Run(s, a + b) == Run(Run(s, a), b)
  {
    if b == [] {
      assert a + b == a;
    } else {
      var n := |b| - 1;
      RunJoins(s, a, b[..n]);
      assert (a + b)[..|a + b| - 1] == a + b[..n];
    }
  }

  lemma RunOne(s: State, step: Step, more: seq<Step>)
    ensures Run(s, [step] + more) == Run(Apply(s, step), more)
  {
    RunJoins(s, [step], more);
    assert [step][..0] == [];
  }

  // ---- marking ready ----

  /** `markReady`, whose three file-system calls may each fail. */
  function MarkSteps(c: CallId, e1: bool, e2: bool, e3: bool, inode: nat): seq<Step> {
    [MarkReady(c)] + [Act(c, e1, inode), Act(c, e2, inode), Act(c, e3, inode)]
  }

  /** A live call that holds the lock and is not ready. */
  predicate HoldsLock(s: State, c: CallId) {
    Live(s, c) && s.calls[c].pc.Held?
  }

  /** `markReady` succeeds exactly when none of its file-system calls fails, and renames its marker
      into place exactly when neither of the first two does; it touches nothing else. */
  lemma MarkReadyExactly(steps: seq<Step>, c: CallId, e1: bool, e2: bool, e3: bool, inode: nat)
    requires HoldsLock(After(steps), c) && !After(steps).calls[c].ready
    ensures var s := After(steps);
      var token, renamed := s.calls[c].token, !e1 && !e2;
      Run(s, MarkSteps(c, e1, e2, e3, inode)) == s.(
        calls := s.calls[c := s.calls[c].(ready := renamed && !e3)],
        marker := if renamed then Some(Record(token, inode)) else s.marker,
        marked := if renamed then s.marked + {token} else s.marked)
  {
    Invariant(steps);
    var s := After(steps);
    var first := Apply(s, MarkReady(c));
    var acts := [Act(c, e1, inode), Act(c, e2, inode), Act(c, e3, inode)];
    MarkingStarts(s, c);
    var path := MarkPath(SeatOf(first, c), e1, e2, e3, inode);
    forall i | 0 < i < |path| ensures Follows(c, path, acts, i, None, false) {
      MarkFollows(c, SeatOf(first, c), e1, e2, e3, inode, i);
    }
    PathEnds(first, c, path, acts, None, false);
    RunOne(s, MarkReady(c), acts);
    Reseated(s, c, first, path[3]);
  }

  lemma MarkingStarts(s: State, c: CallId)
    requires Inv(s) && HoldsLock(s, c) && !s.calls[c].ready
    ensures var first := Apply(s, MarkReady(c));
      first == s.(calls := s.calls[c := s.calls[c].(pc := ReadyCheck)]) && Carries(s.lock) == Some(s.calls[c].token)
  {
    assert s.issued[s.calls[c].token := c] == s.issued;
    assert Holds(s, c);
  }

  lemma Reseated(s: State, c: CallId, first: State, x: Seat)
    requires c in s.calls && c in first.calls && first == s.(calls := s.calls[c := first.calls[c]])
    ensures At(first, c, x) == At(s, c, x)
  {
    assert first.calls[c := x.k] == s.calls[c := x.k];
  }

  function MarkPath(x: Seat, e1: bool, e2: bool, e3: bool, inode: nat): seq<Seat> {
    var held := x.(k := x.k.(pc := Held));
    var renamed := x.(k := x.k.(pc := ReadyRecheck), marker := Some(Record(x.k.token, inode)),
                      marked := x.marked + {x.k.token});
    [x,
     if e1 then held else x.(k := x.k.(pc := ReadyRename)),
     if e1 || e2 then held else renamed,
     if e1 || e2 then held else renamed.(k := x.k.(pc := Held, ready := !e3))]
  }

  lemma MarkFollows(c: CallId, x: Seat, e1: bool, e2: bool, e3: bool, inode: nat, i: nat)
    requires x.k.pc.ReadyCheck? && !x.k.ready && Carries(x.lock) == Some(x.k.token) && 0 < i < 4
    ensures Follows(c, MarkPath(x, e1, e2, e3, inode), [Act(c, e1, inode), Act(c, e2, inode), Act(c, e3, inode)],
                    i, None, false)
  {}

  // ---- the inspector ----

  function Inspection(o: nat): seq<Step> {
    [Observe(o), Observe(o), Observe(o), Observe(o)]
  }

  /** What the inspector ought to report of a state: nothing under a guard or without a lock, and
      else whether the owner runs and whether the marker is that owner's. */
  function Status(s: State): Observation {
    if s.guard.Some? || s.lock.None? then NoReport
    else
      var token := s.lock.value.token;
      Report(token, OwnerAlive(s, token), OwnerAlive(s, token) && Carries(s.marker) == Some(token))
  }

  lemma FourSteps(s: State, a: Step, b: Step, c: Step, d: Step)
    ensures Run(s, [a, b, c, d]) == Apply(Apply(Apply(Apply(s, a), b), c), d)
  {
    assert [a] + [b, c, d] == [a, b, c, d] && [b] + [c, d] == [b, c, d] && [c] + [d] == [c, d] && [d] + [] == [d];
    RunOne(s, a, [b, c, d]);
    RunOne(Apply(s, a), b, [c, d]);
    RunOne(Apply(Apply(s, a), b), c, [d]);
    RunOne(Apply(Apply(Apply(s, a), b), c), d, []);
  }

  /** A new inspector reports just that, if nothing happens meanwhile. */
  lemma InspectionExactly(s: State, o: nat)
    requires o !in s.observers
    ensures Run(s, Inspection(o)) == s.(observers := s.observers[o := Status(s)])
  {
    FourSteps(s, Observe(o), Observe(o), Observe(o), Observe(o));
    var s1 := Apply(s, Observe(o));
    var s2 := Apply(s1, Observe(o));
    var s3 := Apply(s2, Observe(o));
    assert s1.observers[o := s2.observers[o]] == s.observers[o := s2.observers[o]];
    assert s2.observers[o := s3.observers[o]] == s.observers[o := s3.observers[o]];
    var s4 := Apply(s3, Observe(o));
    assert s3.observers[o := s4.observers[o]] == s.observers[o := s4.observers[o]];
  }

  /** So once `markReady` has succeeded the inspector reports the owner as running and ready. */
  lemma MarkedIsReported(steps: seq<Step>, c: CallId, inode: nat, o: nat)
    requires HoldsLock(After(steps), c) && !After(steps).calls[c].ready
    requires After(steps).guard.None? && o !in After(steps).observers
    ensures var s := Run(Run(After(steps), MarkSteps(c, false, false, false, inode)), Inspection(o));
      c in s.calls && s.calls[c].ready && o in s.observers && s.observers[o] == Report(s.calls[c].token, true, true)
  {
    Invariant(steps);
    MarkReadyExactly(steps, c, false, false, false, inode);
    var s := Run(After(steps), MarkSteps(c, false, false, false, inode));
    InspectionExactly(s, o);
    assert OwnerAlive(s, s.calls[c].token);
  }

  // ---- releasing ----

  /** `release`; `stuck` tells that the marker cannot be unlinked. */
  function ReleaseSteps(c: CallId, stuck: bool): seq<Step> {
    [ReleaseLock(c)] + [Act(c, false, 0), Act(c, stuck, 0), Act(c, false, 0), Act(c, false, 0),
                        Act(c, false, 0), Act(c, false, 0)]
  }

  /** `release` removes the marker and the lock, the lock even if the marker cannot be removed. */
  lemma ReleaseRemoves(steps: seq<Step>, c: CallId, stuck: bool)
    requires HoldsLock(After(steps), c)
    ensures var s := After(steps);
      Run(s, ReleaseSteps(c, stuck)) == s.(
        calls := s.calls[c := s.calls[c].(pc := Released)],
        lock := None,
        marker := if stuck then s.marker else None)
  {
    Invariant(steps);
    var s := After(steps);
    var first := Apply(s, ReleaseLock(c));
    var acts := ReleaseSteps(c, stuck)[1..];
    ReleasingStarts(s, c);
    var x, inode := SeatOf(first, c), s.lock.value.inode;
    var path := ReleasePath(x, stuck, inode);
    forall i | 0 < i < |path| ensures Follows(c, path, acts, i, None, false) {
      ReleaseFollows(c, x, stuck, inode, i);
    }
    PathEnds(first, c, path, acts, None, false);
    RunOne(s, ReleaseLock(c), acts);
    Reseated(s, c, first, path[6]);
  }

  lemma ReleasingStarts(s: State, c: CallId)
    requires Inv(s) && HoldsLock(s, c)
    ensures var first := Apply(s, ReleaseLock(c));
      first == s.(calls := s.calls[c := s.calls[c].(pc := ReleaseRead)]) && Carries(s.lock) == Some(s.calls[c].token)
  {
    assert s.issued[s.calls[c].token := c] == s.issued;
    assert Holds(s, c);
  }

  function ReleasePath(x: Seat, stuck: bool, inode: nat): seq<Seat> {
    var y := x.(marker := if stuck then x.marker else None);
    [x, x.(k := x.k.(pc := ReleaseMarker))] + RemovalPath(y, Release, x.k.token, inode, Released)
  }

  lemma ReleaseFollows(c: CallId, x: Seat, stuck: bool, inode: nat, i: nat)
    requires x.k.pc.ReleaseRead? && x.lock == Some(Record(x.k.token, inode)) && 0 < i < 7
    ensures Follows(c, ReleasePath(x, stuck, inode), ReleaseSteps(c, stuck)[1..], i, None, false)
  {
    if i > 2 {
      RemovalGoesOn(c, x.(marker := if stuck then x.marker else None), Release, x.k.token, inode, Released, i - 2);
    }
  }

  /** The four file-system calls that remove the lock, and what follows them. */
  function RemovalPath(x: Seat, why: Purpose, token: Token, inode: nat, next: Pc): seq<Seat> {
    [x.(k := x.k.(pc := Removing(why, token, StatBefore))),
     x.(k := x.k.(pc := Removing(why, token, Compare(inode)))),
     x.(k := x.k.(pc := Removing(why, token, StatAfter(inode)))),
     x.(k := x.k.(pc := Removing(why, token, Unlink))),
     x.(k := x.k.(pc := next), lock := None)]
  }

  lemma RemovalGoesOn(c: CallId, x: Seat, why: Purpose, token: Token, inode: nat, next: Pc, i: nat)
    requires !why.Withdraw? && x.lock == Some(Record(token, inode)) && next == AfterRemoval(why, true) && 0 < i < 5
    ensures var path := RemovalPath(x, why, token, inode, next);
      path[i] == NextSeat(c, path[i - 1], false, false, 0)
  {}

  /** After a release the lock is free for the next call, unless a guard is in the way. */
  lemma ReleasedIsFree(
      steps: seq<Step>, c: CallId, stuck: bool, d: CallId, process: ProcessId, token: Token, inode: nat)
    requires HoldsLock(After(steps), c) && After(steps).guard.None?
    requires Fits(After(steps), d, process, token)
    ensures var s := Run(After(steps), ReleaseSteps(c, stuck));
      var s' := Run(Apply(s, Start(d, process, token)), Alone(d, inode, 3));
      Holds(s', d) && s'.calls[d].pc == Held && s'.lock == Some(Record(token, inode)) && s'.marker.None?
  {
    ReleaseRemoves(steps, c, stuck);
    RunJoins(Init, steps, ReleaseSteps(c, stuck));
    StaleLockIsRecovered(steps + ReleaseSteps(c, stuck), d, process, token, inode);
  }

  // ---- acquisitions that fail ----

  /** When a predecessor's marker cannot be unlinked, the lock just published is given back, and the
      guard dropped if it was taken. */
  lemma FailedClearGivesBack(steps: seq<Step>, c: CallId)
    requires Live(After(steps), c) && After(steps).calls[c].pc.ClearMarker?
    ensures var s := After(steps);
      var guarded := s.calls[c].pc.guarded;
      Run(s, ClearFails(c, guarded)) == s.(
        calls := s.calls[c := s.calls[c].(pc := Failed)],
        lock := None,
        guard := if guarded then None else s.guard)
  {
    Invariant(steps);
    var s := After(steps);
    var x, guarded := SeatOf(s, c), s.calls[c].pc.guarded;
    var inode, acts := s.lock.value.inode, ClearFails(c, guarded);
    assert Holds(s, c) && Carries(s.lock) == Some(x.k.token);
    var path := ClearPath(x, guarded, inode);
    forall i | 0 < i < |path| ensures Follows(c, path, acts, i, None, false) {
      ClearFollows(c, x, guarded, inode, i);
    }
    PathEnds(s, c, path, acts, None, false);
  }

  function ClearFails(c: CallId, guarded: bool): seq<Step> {
    [Act(c, true, 0)] + Alone(c, 0, if guarded then 6 else 5)
  }

  function ClearPath(x: Seat, guarded: bool, inode: nat): seq<Seat> {
    [x, x.(k := x.k.(pc := AbortRead(guarded)))]
    + RemovalPath(x, Abort(guarded), x.k.token, inode, Leave(guarded, Fail))
    + (if guarded then [x.(k := x.k.(pc := Failed), lock := None, guard := None)] else [])
  }

  lemma ClearFollows(c: CallId, x: Seat, guarded: bool, inode: nat, i: nat)
    requires x.k.pc == ClearMarker(guarded) && x.lock == Some(Record(x.k.token, inode))
    requires 0 < i < |ClearPath(x, guarded, inode)|
    ensures Follows(c, ClearPath(x, guarded, inode), ClearFails(c, guarded), i, None, false)
  {
    if 2 < i < 7 {
      RemovalGoesOn(c, x, Abort(guarded), x.k.token, inode, Leave(guarded, Fail), i - 2);
    }
  }

  // ---- acquisitions that are refused ----

  /** A new call that meets a live owner leaves nothing behind: it drops the guard it has taken. */
  lemma RefusedLeavesNoTrace(steps: seq<Step>, c: CallId, process: ProcessId, token: Token)
    requires Fits(After(steps), c, process, token) && After(steps).guard.None?
    requires var s := After(steps); s.lock.Some? && OwnerAlive(s, s.lock.value.token)
    ensures var first := Apply(After(steps), Start(c, process, token));
      c in first.calls
      && Run(first, Alone(c, 0, 6)) == first.(calls := first.calls[c := first.calls[c].(pc := Failed)])
  {
    Invariant(steps);
    var s := After(steps);
    var first := Apply(s, Start(c, process, token));
    StartKeepsInv(s, c, process, token);
    var x, owner := SeatOf(first, c), s.lock.value.token;
    forall i | 0 < i < 7 ensures Follows(c, RefusalPath(c, x, owner), Alone(c, 0, 6), i, Some(owner), true) {
      RefusalFollows(c, x, owner, i);
    }
    PathEnds(first, c, RefusalPath(c, x, owner), Alone(c, 0, 6), Some(owner), true);
  }

  function RefusalPath(c: CallId, x: Seat, owner: Token): seq<Seat> {
    var g := x.(guard := Some(c));
    [x, x.(k := x.k.(pc := Link)), x.(k := x.k.(pc := CreateGuard)), g.(k := x.k.(pc := ReadExisting)),
     g.(k := x.k.(pc := Judge(owner))), g.(k := x.k.(pc := DropGuard(Fail))), x.(k := x.k.(pc := Failed))]
  }

  lemma RefusalFollows(c: CallId, x: Seat, owner: Token, i: nat)
    requires x.k.pc.Probe? && x.guard.None? && Carries(x.lock) == Some(owner) && 0 < i < 7
    ensures Follows(c, RefusalPath(c, x, owner), Alone(c, 0, 6), i, Some(owner), true)
  {}

  // ---- acquisitions that others have overtaken ----

  /** When the lock has gone by the time the guard is taken, the call takes the lock. */
  lemma VanishedLockIsTaken(steps: seq<Step>, c: CallId, inode: nat)
    requires Live(After(steps), c) && After(steps).calls[c].pc.CreateGuard?
    requires After(steps).guard.None? && After(steps).lock.None?
    ensures var s := After(steps);
      Run(s, Alone(c, inode, 5)) == s.(
        calls := s.calls[c := s.calls[c].(pc := Held)],
        lock := Some(Record(s.calls[c].token, inode)),
        marker := None)
  {
    Invariant(steps);
    var s := After(steps);
    var x := SeatOf(s, c);
    forall i | 0 < i < 6 ensures Follows(c, VanishedPath(c, x, inode), Alone(c, inode, 5), i, None, false) {
      VanishedFollows(c, x, inode, i);
    }
    PathEnds(s, c, VanishedPath(c, x, inode), Alone(c, inode, 5), None, false);
  }

  function VanishedPath(c: CallId, x: Seat, inode: nat): seq<Seat> {
    var g := x.(guard := Some(c));
    var p := g.(lock := Some(Record(x.k.token, inode)));
    [x, g.(k := x.k.(pc := ReadExisting)), g.(k := x.k.(pc := Relink(true))),
     p.(k := x.k.(pc := ClearMarker(true))), p.(k := x.k.(pc := DropGuard(Hold)), marker := None),
     p.(k := x.k.(pc := Held), marker := None, guard := None)]
  }

  lemma VanishedFollows(c: CallId, x: Seat, inode: nat, i: nat)
    requires x.k.pc.CreateGuard? && x.guard.None? && x.lock.None? && 0 < i < 6
    ensures Follows(c, VanishedPath(c, x, inode), Alone(c, inode, 5), i, None, false)
  {}

  /** The lock that the recovering call is about to remove has gone, or another record has come
      before its own. */
  predicate Overtaken(s: State, c: CallId) {
    Live(s, c) &&
    match s.calls[c].pc
    case Removing(why, _, stage) => why.Recover? && stage.StatBefore? && s.lock.None?
    case Relink(missing) => !missing && s.lock.Some?
    case _ => false
  }

  /** Then the call drops the guard and tries again under a new token, or fails if this was its
      third attempt; it touches neither lock nor marker. */
  lemma OvertakenTriesAgain(steps: seq<Step>, c: CallId, next: Token)
    requires Overtaken(After(steps), c) && next !in After(steps).issued
    ensures var s := After(steps);
      var k := NextTurn(s.calls[c], next);
      Run(s, Alone(c, next, 2)) == s.(calls := s.calls[c := k], guard := None, issued := s.issued[k.token := c])
  {
    Invariant(steps);
    var s := After(steps);
    var dropping := s.(calls := s.calls[c := s.calls[c].(pc := DropGuard(Retry))]);
    OvertakenDrops(s, c, next);
    TurnBegins(s, c, s.calls[c], next);
    assert Alone(c, next, 2) == [Act(c, false, next)] + [Act(c, false, next)];
    RunOne(s, Act(c, false, next), [Act(c, false, next)]);
    assert [Act(c, false, next)] + [] == [Act(c, false, next)];
    RunOne(dropping, Act(c, false, next), []);
  }

  lemma OvertakenDrops(s: State, c: CallId, next: Token)
    requires TokensUnique(s) && Overtaken(s, c)
    ensures Apply(s, Act(c, false, next)) == s.(calls := s.calls[c := s.calls[c].(pc := DropGuard(Retry))])
  {
    assert s.issued[s.calls[c].token := c] == s.issued;
  }

  /** The call after it has dropped the guard to try again. */
  function NextTurn(k: Call, next: Token): Call {
    if k.attempt + 1 >= MAX_ATTEMPTS then k.(pc := Failed)
    else Call(k.process, next, k.attempt + 1, k.ready, Probe)
  }

  lemma TurnEffect(v: View, next: Token)
    requires v.k.pc == DropGuard(Retry) && !v.used
    ensures Local(v, false, next) == Effect(NextTurn(v.k, next), v.lock, Drop, v.marker)
  {}

  lemma TurnBegins(s: State, c: CallId, k: Call, next: Token)
    requires TokensUnique(s) && Live(s, c) && next !in s.issued && k == s.calls[c]
    ensures var k' := NextTurn(k, next);
      Apply(s.(calls := s.calls[c := k.(pc := DropGuard(Retry))]), Act(c, false, next))
        == s.(calls := s.calls[c := k'], guard := None, issued := s.issued[k'.token := c])
  {
    var dropping := s.(calls := s.calls[c := k.(pc := DropGuard(Retry))]);
    TurnEffect(See(dropping, c, next), next);
    assert Live(dropping, c);
    assert dropping.calls[c := NextTurn(k, next)] == s.calls[c := NextTurn(k, next)];
  }

  /** No call makes more than three attempts. */
  lemma {:induction false} AttemptsAreBounded(steps: seq<Step>, c: CallId)
    requires c in After(steps).calls
    ensures After(steps).calls[c].attempt < MAX_ATTEMPTS
  {
    var n := |steps| - 1;
    var before, step := After(steps[..n]), steps[n];
    if c in before.calls {
      AttemptsAreBounded(steps[..n], c);
      if step.Act? && step.c == c && Live(before, c) {
        AttemptStays(See(before, c, step.nonce), step.error, step.nonce);
      }
    }
  }

  lemma AttemptStays(v: View, error: bool, nonce: nat)
    requires v.k.attempt < MAX_ATTEMPTS
    ensures Local(v, error, nonce).k.attempt < MAX_ATTEMPTS
  {}

  // ---- a handle that is ready ----

  /** The marker of such a call has been renamed into place and not been removed again. */
  predicate Marked(k: Call) {
    k.pc.ReadyRecheck? || (k.ready && (k.pc.Held? || k.pc.ReleaseRead? || k.pc.ReleaseMarker?))
  }

  predicate ReadyPc(pc: Pc) {
    || pc.Held? || pc.ReleaseRead? || pc.ReleaseMarker? || pc.Released?
    || (pc.Removing? && pc.why.Release?)
  }

  predicate ReadyOk(k: Call, marker: Cell) {
    (k.ready ==> ReadyPc(k.pc)) && (Marked(k) ==> Carries(marker) == Some(k.token))
  }

  lemma LocalReady(v: View, error: bool, nonce: nat)
    requires ReadyOk(v.k, v.marker)
    ensures var e := Local(v, error, nonce); ReadyOk(e.k, e.marker)
  {}

  lemma MarkedHolds(s: State, c: CallId)
    requires Live(s, c) && Marked(s.calls[c])
    ensures Holds(s, c) && Acquired(s.calls[c].pc)
  {}

  /** As long as a live call is ready and not being released, the marker is its own. */
  lemma {:induction false} ReadyMeansMarked(steps: seq<Step>, c: CallId)
    requires Live(After(steps), c)
    ensures ReadyOk(After(steps).calls[c], After(steps).marker)
  {
    var n := |steps| - 1;
    Invariant(steps[..n]);
    if Live(After(steps[..n]), c) {
      ReadyMeansMarked(steps[..n], c);
      StepKeepsReady(After(steps[..n]), c, steps[n]);
    } else {
      NewlyLive(After(steps[..n]), steps[n], c);
    }
  }

  /** A call that becomes live is new. */
  lemma NewlyLive(s: State, step: Step, c: CallId)
    requires Inv(s) && !Live(s, c) && Live(Apply(s, step), c)
    ensures ReadyOk(Apply(s, step).calls[c], Apply(s, step).marker)
  {}

  lemma StepKeepsReady(s: State, c: CallId, step: Step)
    requires Inv(s) && Live(s, c) && ReadyOk(s.calls[c], s.marker) && Live(Apply(s, step), c)
    ensures ReadyOk(Apply(s, step).calls[c], Apply(s, step).marker)
  {
    if step.Act? && step.c == c {
      LocalReady(See(s, c, step.nonce), step.error, step.nonce);
    } else if step.Act? && Live(s, step.c) {
      OthersKeepMarker(s, c, step);
    }
  }

  lemma OthersKeepMarker(s: State, c: CallId, step: Step)
    requires Inv(s) && Live(s, c) && ReadyOk(s.calls[c], s.marker) && step.Act? && step.c != c && Live(s, step.c)
    ensures Apply(s, step).calls[c] == s.calls[c]
    ensures Marked(s.calls[c]) ==> Carries(Apply(s, step).marker) == Some(s.calls[c].token)
  {
    if Marked(s.calls[c]) {
      MarkedHolds(s, c);
      LocalMarker(See(s, step.c, step.nonce), step.error, step.nonce);
    }
  }

  predicate Withdraws(pc: Pc) {
    pc.WithdrawRead? || (pc.Removing? && pc.why.Withdraw?)
  }

  /** A live call that rechecks the lock after the rename still finds its own record there: within
      the protocol no marker is ever withdrawn. */
  lemma {:induction false} NeverWithdraws(steps: seq<Step>, c: CallId)
    requires c in After(steps).calls
    ensures !Withdraws(After(steps).calls[c].pc)
  {
    var n := |steps| - 1;
    var before, step := After(steps[..n]), steps[n];
    Invariant(steps[..n]);
    if c in before.calls {
      NeverWithdraws(steps[..n], c);
      StepStaysAway(before, step, c);
    } else {
      NewCall(before, step, c);
    }
  }

  lemma NewCall(s: State, step: Step, c: CallId)
    requires Inv(s) && c !in s.calls && c in Apply(s, step).calls
    ensures Apply(s, step).calls[c].pc == Probe && !Apply(s, step).calls[c].ready
  {}

  lemma StepStaysAway(s: State, step: Step, c: CallId)
    requires Inv(s) && c in s.calls && !Withdraws(s.calls[c].pc)
    ensures c in Apply(s, step).calls && !Withdraws(Apply(s, step).calls[c].pc)
  {
    if step.Act? && step.c == c && Live(s, c) {
      assert s.calls[c].pc.ReadyRecheck? ==> Holds(s, c);
      StaysAway(See(s, c, step.nonce), step.error, step.nonce);
    }
  }

  lemma StaysAway(v: View, error: bool, nonce: nat)
    requires !Withdraws(v.k.pc) && (v.k.pc.ReadyRecheck? ==> Carries(v.lock) == Some(v.k.token))
    ensures !Withdraws(Local(v, error, nonce).k.pc)
  {}

  /** The inspector reports the lock of a live handle as running, and as ready if it is marked so. */
  lemma HandleIsReported(steps: seq<Step>, c: CallId, o: nat)
    requires HoldsLock(After(steps), c) && After(steps).guard.None? && o !in After(steps).observers
    ensures var s := Run(After(steps), Inspection(o));
      var token := After(steps).calls[c].token;
      && o in s.observers && s.observers[o] == Report(token, true, Carries(After(steps).marker) == Some(token))
      && (After(steps).calls[c].ready ==> s.observers[o].ready)
  {
    Invariant(steps);
    ReadyMeansMarked(steps, c);
    InspectionExactly(After(steps), o);
    assert Holds(After(steps), c) && OwnerAlive(After(steps), After(steps).calls[c].token);
  }
}
