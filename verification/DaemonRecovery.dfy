/** What an acquisition of the workspace lock achieves when nobody interferes: it recovers the lock
    of a dead owner, and respects a live owner and a guard. */
module DaemonRecovery {
  import opened Prelude
  import opened LockFiles
  import opened DaemonLock

  /** Only the call `c` acts; its file-system calls may still fail. */
  predicate Undisturbed(c: CallId, steps: seq<Step>) {
    forall i :: 0 <= i < |steps| ==> steps[i].Act? && steps[i].c == c
  }

  /** `n` file-system calls of one call, with nothing failing. */
  function Alone(c: CallId, inode: nat, n: nat): seq<Step> {
    seq(n, _ => Act(c, false, inode))
  }

  // ---- what the call itself sees on its way ----

  /** `base` with call `c` and the cells as `v` has them, the guard being the call's own. */
  function Snapshot(base: State, c: CallId, v: View): State {
    base.(calls := base.calls[c := v.k], issued := base.issued[v.k.token := c],
          lock := v.lock, guard := if v.guard then Some(c) else None, marker := v.marker)
  }

  function NextView(v: View, inode: nat): View {
    var e := Local(v, false, inode);
    v.(k := e.k, lock := e.lock, marker := e.marker,
       guard := match e.guard case Keep => v.guard case Take => true case Drop => false)
  }

  /** The call goes on under the same token, and judges at most the given owner. */
  predicate Plain(v: View, owner: Option<Token>, alive: bool) {
    && v.k.pc != DropGuard(Retry) && !v.k.pc.ReadyRename?
    && v.ownerAlive == alive && (v.k.pc.Judge? ==> owner == Some(v.k.pc.existing))
  }

  /** Entry `i` of the path follows from the one before by the call's next file-system call. */
  predicate Follows(path: seq<View>, i: nat, inode: nat, owner: Option<Token>, alive: bool) {
    0 < i < |path| && Plain(path[i - 1], owner, alive) && path[i] == NextView(path[i - 1], inode)
  }

  /** A state in which call `c` is new, and the owner it may meet is alive or not. */
  ghost predicate Base(base: State, c: CallId, v: View, owner: Option<Token>, alive: bool) {
    && TokensUnique(base) && c !in base.calls && v.k.token !in base.issued && v.k.process !in base.dead
    && (owner.Some? ==> owner.value in base.issued && OwnerAlive(base, owner.value) == alive)
  }

  lemma {:induction false} PathIsRun(base: State, c: CallId, path: seq<View>, n: nat, inode: nat,
                                     owner: Option<Token>, alive: bool)
    requires n < |path| && Base(base, c, path[0], owner, alive)
    requires forall i {:trigger Follows(path, i, inode, owner, alive)} ::
      0 < i < |path| ==> Follows(path, i, inode, owner, alive)
    ensures Run(Snapshot(base, c, path[0]), Alone(c, inode, n)) == Snapshot(base, c, path[n])
    ensures path[n].k.process == path[0].k.process && path[n].k.token == path[0].k.token
  {
    if n > 0 {
      assert Alone(c, inode, n)[..n - 1] == Alone(c, inode, n - 1);
      PathIsRun(base, c, path, n - 1, inode, owner, alive);
      assert Follows(path, n, inode, owner, alive);
      SnapshotStep(base, c, path[n - 1], inode, owner, alive);
    }
  }

  lemma SnapshotStep(base: State, c: CallId, v: View, inode: nat, owner: Option<Token>, alive: bool)
    requires Base(base, c, v, owner, alive) && Plain(v, owner, alive)
    ensures Apply(Snapshot(base, c, v), Act(c, false, inode)) == Snapshot(base, c, NextView(v, inode))
    ensures NextView(v, inode).k.process == v.k.process && NextView(v, inode).k.token == v.k.token
  {
    SnapshotSees(base, c, v, inode, owner, alive);
    PlainKeepsCall(v, inode, owner, alive);
    SnapshotCommits(base, c, v, Local(v, false, inode));
  }

  /** A plain view is all that the call's own next step depends on. */
  lemma SnapshotSees(base: State, c: CallId, v: View, inode: nat, owner: Option<Token>, alive: bool)
    requires Base(base, c, v, owner, alive) && Plain(v, owner, alive)
    ensures Live(Snapshot(base, c, v), c)
    ensures Local(See(Snapshot(base, c, v), c, inode), false, inode) == Local(v, false, inode)
  {
    if owner.Some? {
      assert OwnerAlive(Snapshot(base, c, v), owner.value) == alive;
    }
  }

  lemma PlainKeepsCall(v: View, inode: nat, owner: Option<Token>, alive: bool)
    requires Plain(v, owner, alive)
    ensures var e := Local(v, false, inode);
      e.k.process == v.k.process && e.k.token == v.k.token && !e.k.pc.ReadyRecheck?
  {
    LocalTokens(v, false, inode);
    LocalMarker(v, false, inode);
  }

  lemma SnapshotCommits(base: State, c: CallId, v: View, e: Effect)
    requires e.k.process == v.k.process && e.k.token == v.k.token && !e.k.pc.ReadyRecheck?
    ensures Commit(Snapshot(base, c, v), c, e)
      == Snapshot(base, c, v.(k := e.k, lock := e.lock, marker := e.marker,
           guard := match e.guard case Keep => v.guard case Take => true case Drop => false))
  {
    assert base.calls[c := v.k][c := e.k] == base.calls[c := e.k];
    assert base.issued[v.k.token := c][v.k.token := c] == base.issued[v.k.token := c];
  }

  // ---- success ----

  /** The recovery as the recovering process sees it, from its first probe to its success. */
  function RecoveryPath(v: View, inode: nat): seq<View>
    requires v.lock.Some?
  {
    var stale, g := v.lock.value.token, v.(guard := true);
    var p := g.(lock := Some(Record(v.k.token, inode)));
    [v, v.(k := v.k.(pc := Link)), v.(k := v.k.(pc := CreateGuard)),
     g.(k := v.k.(pc := ReadExisting)),
     g.(k := v.k.(pc := Judge(stale))),
     g.(k := v.k.(pc := Removing(Recover, stale, StatBefore))),
     g.(k := v.k.(pc := Removing(Recover, stale, Compare(v.lock.value.inode)))),
     g.(k := v.k.(pc := Removing(Recover, stale, StatAfter(v.lock.value.inode)))),
     g.(k := v.k.(pc := Removing(Recover, stale, Unlink))),
     g.(k := v.k.(pc := Relink(false)), lock := None),
     p.(k := v.k.(pc := ClearMarker(true))),
     p.(k := v.k.(pc := DropGuard(Hold)), marker := None),
     p.(k := v.k.(pc := Held), marker := None, guard := false)]
  }

  lemma RecoveryFollows(v: View, inode: nat, i: nat)
    requires v.k.pc == Probe && v.lock.Some? && !v.guard && !v.ownerAlive && 0 < i <= 12
    ensures Follows(RecoveryPath(v, inode), i, inode, Some(v.lock.value.token), false)
  {
  }

  /** The same when there is no lock at all. */
  function FreePath(v: View, inode: nat): seq<View> {
    var p := v.(lock := Some(Record(v.k.token, inode)));
    [v, v.(k := v.k.(pc := Link)), p.(k := v.k.(pc := ClearMarker(false))), p.(k := v.k.(pc := Held), marker := None)]
  }

  lemma FreeFollows(v: View, inode: nat, i: nat)
    requires v.k.pc == Probe && v.lock.None? && !v.guard && !v.ownerAlive && 0 < i <= 3
    ensures Follows(FreePath(v, inode), i, inode, None, false)
  {
  }

  function FirstView(s: State, process: ProcessId, token: Token): View {
    View(Call(process, token, 0, false, Probe), s.lock, false, s.marker, false, false)
  }

  /** A new call in a reachable state without a guard. */
  ghost predicate Fits(s: State, c: CallId, process: ProcessId, token: Token) {
    c !in s.calls && token !in s.issued && process !in s.dead
  }

  /** Neither guard nor live owner stands in the way of the next call. */
  predicate IsFree(s: State) {
    s.guard.None? && (s.lock.Some? ==> !OwnerAlive(s, s.lock.value.token))
  }

  /** Without a guard and with no lock, or one whose owner is dead, a new call by a live process
      acquires the lock in three or in twelve file-system calls, and clears the old marker. */
  lemma StaleLockIsRecovered(steps: seq<Step>, c: CallId, process: ProcessId, token: Token, inode: nat)
    requires Fits(After(steps), c, process, token) && IsFree(After(steps))
    ensures var s := After(steps);
            var s' := Run(Apply(s, Start(c, process, token)), Alone(c, inode, if s.lock.None? then 3 else 12));
            && Holds(s', c) && s'.calls[c].pc == Held
            && s'.lock == Some(Record(token, inode)) && s'.guard.None? && s'.marker.None?
  {
    Invariant(steps);
    var s := After(steps);
    var v := FirstView(s, process, token);
    assert Apply(s, Start(c, process, token)) == Snapshot(s, c, v);
    if s.lock.None? {
      forall i | 0 < i <= 3 ensures Follows(FreePath(v, inode), i, inode, None, false) {
        FreeFollows(v, inode, i);
      }
      PathIsRun(s, c, FreePath(v, inode), 3, inode, None, false);
    } else {
      var stale := Some(s.lock.value.token);
      forall i | 0 < i <= 12 ensures Follows(RecoveryPath(v, inode), i, inode, stale, false) {
        RecoveryFollows(v, inode, i);
      }
      PathIsRun(s, c, RecoveryPath(v, inode), 12, inode, stale, false);
    }
  }

  // ---- failure ----

  /** The call meets a guard that is not its own. */
  predicate RefusedByGuard(s: State, c: CallId) {
    Live(s, c) && s.guard.Some? && s.guard != Some(c) && (s.calls[c].pc.Probe? || s.calls[c].pc.Failed?)
  }

  /** The call meets a live owner, and has not got further than to judge it. */
  predicate RefusedByOwner(s: State, c: CallId) {
    && Live(s, c) && s.calls[c].token in s.issued && s.issued[s.calls[c].token] == c
    && s.lock.Some? && OwnerAlive(s, s.lock.value.token) && s.issued[s.lock.value.token] != c
    && Refusal(s.calls[c].pc, s.lock.value.token)
  }

  predicate Refusal(pc: Pc, owner: Token) {
    || pc.Probe? || pc.Link? || pc.CreateGuard? || pc.ReadExisting? || pc == Judge(owner)
    || pc == DropGuard(Fail) || pc.Failed?
  }

  predicate Refused(s: State, c: CallId) {
    RefusedByGuard(s, c) || RefusedByOwner(s, c)
  }

  lemma GuardRefuses(s: State, c: CallId, error: bool, nonce: nat)
    requires RefusedByGuard(s, c)
    ensures RefusedByGuard(Apply(s, Act(c, error, nonce)), c)
  {}

  /** What a refused call does next: it changes no record, and draws no token. */
  lemma RefusalGoesOn(v: View, error: bool, nonce: nat)
    requires v.lock.Some? && Refusal(v.k.pc, v.lock.value.token) && (v.k.pc.Judge? ==> v.ownerAlive)
    ensures var e := Local(v, error, nonce);
      && Refusal(e.k.pc, v.lock.value.token) && e.lock == v.lock
      && e.k.token == v.k.token && e.k.process == v.k.process
  {}

  lemma OwnerRefuses(s: State, c: CallId, error: bool, nonce: nat)
    requires RefusedByOwner(s, c)
    ensures RefusedByOwner(Apply(s, Act(c, error, nonce)), c)
  {
    RefusalGoesOn(See(s, c, nonce), error, nonce);
  }

  lemma {:induction false} NeverHeld(s: State, c: CallId, alone: seq<Step>)
    requires Refused(s, c) && Undisturbed(c, alone)
    ensures Refused(Run(s, alone), c)
  {
    if alone != [] {
      var n := |alone| - 1;
      var before := Run(s, alone[..n]);
      NeverHeld(s, c, alone[..n]);
      if RefusedByGuard(before, c) {
        GuardRefuses(before, c, alone[n].error, alone[n].nonce);
      } else {
        OwnerRefuses(before, c, alone[n].error, alone[n].nonce);
      }
    }
  }

  lemma StartsRefused(s: State, c: CallId, process: ProcessId, token: Token)
    requires Inv(s) && Fits(s, c, process, token)
    requires s.guard.Some? || (s.lock.Some? && OwnerAlive(s, s.lock.value.token))
    ensures Refused(Apply(s, Start(c, process, token)), c)
  {}

  lemma CanHold(steps: seq<Step>, c: CallId, process: ProcessId, token: Token) returns (alone: seq<Step>)
    requires Fits(After(steps), c, process, token) && IsFree(After(steps))
    ensures Undisturbed(c, alone) && Holds(Run(Apply(After(steps), Start(c, process, token)), alone), c)
  {
    var s := After(steps);
    StaleLockIsRecovered(steps, c, process, token, 0);
    alone := Alone(c, 0, if s.lock.None? then 3 else 12);
  }

  lemma CannotHold(steps: seq<Step>, c: CallId, process: ProcessId, token: Token, alone: seq<Step>)
    requires Fits(After(steps), c, process, token) && !IsFree(After(steps)) && Undisturbed(c, alone)
    ensures !Holds(Run(Apply(After(steps), Start(c, process, token)), alone), c)
  {
    Invariant(steps);
    var s := After(steps);
    StartsRefused(s, c, process, token);
    NeverHeld(Apply(s, Start(c, process, token)), c, alone);
  }

  /** A call that is left alone can get the lock exactly when there is no guard and the lock is
      free or its owner dead: a live owner and a guard are respected whatever fails. */
  lemma HoldsExactlyWhen(steps: seq<Step>, c: CallId, process: ProcessId, token: Token)
    requires Fits(After(steps), c, process, token)
    ensures (exists alone ::
               Undisturbed(c, alone) && Holds(Run(Apply(After(steps), Start(c, process, token)), alone), c))
      <==> IsFree(After(steps))
  {
    if IsFree(After(steps)) {
      var alone := CanHold(steps, c, process, token);
      assert Undisturbed(c, alone);
    } else {
      forall alone | Undisturbed(c, alone)
        ensures !Holds(Run(Apply(After(steps), Start(c, process, token)), alone), c)
      {
        CannotHold(steps, c, process, token, alone);
      }
    }
  }
}
