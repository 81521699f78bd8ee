/** What an acquisition of the lifecycle lease achieves when nobody interferes. */
module LifecycleRecovery {
  import opened Prelude
  import opened LockFiles
  import opened LifecycleLock

  /** Only the call `c` acts; its file-system calls may still fail and its deadline pass. */
  predicate Undisturbed(c: CallId, steps: seq<Step>) {
    forall i :: 0 <= i < |steps| ==> steps[i].Act? && steps[i].c == c
  }

  /** `n` file-system calls of one call in time, with nothing failing. */
  function Alone(c: CallId, nonce: nat, n: nat): seq<Step> {
    seq(n, _ => Act(c, false, false, nonce))
  }

  // ---- what the call itself sees on its way ----

  /** `base` with call `c` and the lease as `v` has them, the guard being the call's own. */
  function Snapshot(base: State, c: CallId, v: View): State {
    base.(calls := base.calls[c := v.k], issued := base.issued[v.k.token := c],
          lock := v.lock, guard := if v.guard then Some(c) else None)
  }

  function NextView(v: View, nonce: nat): View {
    var e := Local(v, false, false, nonce);
    v.(k := e.k, lock := e.lock,
       guard := match e.guard case Keep => v.guard case Take => true case Drop => false)
  }

  /** The call starts no new turn of its loop, and judges at most the given dead owner. */
  predicate Plain(v: View, owner: Option<Token>) {
    && !v.k.pc.DropGuard? && !v.ownerAlive
    && (v.k.pc.Probe? || v.k.pc.CreateGuard? ==> !v.guard)
    && (v.k.pc.Inspect? || v.k.pc.ReadExisting? ==> v.lock.Some?)
    && (v.k.pc.Judge? || v.k.pc.Rejudge? ==> owner == Some(v.k.pc.existing))
  }

  /** Entry `i` of the path follows from the one before by the call's next file-system call. */
  predicate Follows(path: seq<View>, i: nat, nonce: nat, owner: Option<Token>) {
    0 < i < |path| && Plain(path[i - 1], owner) && path[i] == NextView(path[i - 1], nonce)
  }

  /** A state in which call `c` is new, and the owner it may meet is dead. */
  ghost predicate Base(base: State, c: CallId, v: View, owner: Option<Token>) {
    && c !in base.calls && v.k.token !in base.issued && v.k.process !in base.dead
    && (owner.Some? ==>
          owner.value in base.issued && base.issued[owner.value] in base.calls && !OwnerAlive(base, owner.value))
  }

  lemma {:induction false} PathIsRun(base: State, c: CallId, path: seq<View>, n: nat, nonce: nat, owner: Option<Token>)
    requires n < |path| && Base(base, c, path[0], owner)
    requires forall i {:trigger Follows(path, i, nonce, owner)} :: 0 < i < |path| ==> Follows(path, i, nonce, owner)
    ensures Run(Snapshot(base, c, path[0]), Alone(c, nonce, n)) == Snapshot(base, c, path[n])
    ensures path[n].k.process == path[0].k.process && path[n].k.token == path[0].k.token
  {
    if n > 0 {
      assert Alone(c, nonce, n)[..n - 1] == Alone(c, nonce, n - 1);
      PathIsRun(base, c, path, n - 1, nonce, owner);
      assert Follows(path, n, nonce, owner);
      SnapshotStep(base, c, path[n - 1], nonce, owner);
    }
  }

  lemma SnapshotStep(base: State, c: CallId, v: View, nonce: nat, owner: Option<Token>)
    requires Base(base, c, v, owner) && Plain(v, owner)
    ensures Apply(Snapshot(base, c, v), Act(c, false, false, nonce)) == Snapshot(base, c, NextView(v, nonce))
    ensures NextView(v, nonce).k.process == v.k.process && NextView(v, nonce).k.token == v.k.token
  {
    SnapshotSees(base, c, v, nonce, owner);
    SnapshotCommits(base, c, v, Local(v, false, false, nonce));
  }

  /** A plain view is all that the call's own next step depends on. */
  lemma SnapshotSees(base: State, c: CallId, v: View, nonce: nat, owner: Option<Token>)
    requires Base(base, c, v, owner) && Plain(v, owner)
    ensures Live(Snapshot(base, c, v), c)
    ensures Local(See(Snapshot(base, c, v), c, nonce), false, false, nonce) == Local(v, false, false, nonce)
  {
    if owner.Some? {
      assert !OwnerAlive(Snapshot(base, c, v), owner.value);
    }
  }

  lemma SnapshotCommits(base: State, c: CallId, v: View, e: Effect)
    requires e.k.token == v.k.token
    ensures Commit(Snapshot(base, c, v), c, e)
      == Snapshot(base, c, v.(k := e.k, lock := e.lock,
           guard := match e.guard case Keep => v.guard case Take => true case Drop => false))
  {
    assert base.calls[c := v.k][c := e.k] == base.calls[c := e.k];
    assert base.issued[v.k.token := c][v.k.token := c] == base.issued[v.k.token := c];
  }

  // ---- success ----

  /** The removal of a stale lease as the recovering process sees it. */
  function RemovalPath(v: View): seq<View>
    requires v.lock.Some?
  {
    var stale, g := v.lock.value.token, v.(guard := true);
    [v, v.(k := v.k.(pc := Link)), v.(k := v.k.(pc := Inspect)), v.(k := v.k.(pc := ReadExisting)),
     v.(k := v.k.(pc := Judge(stale))), v.(k := v.k.(pc := CreateGuard(stale))),
     g.(k := v.k.(pc := Reread(stale))), g.(k := v.k.(pc := Rejudge(stale))),
     g.(k := v.k.(pc := Removing(true, stale, StatBefore))),
     g.(k := v.k.(pc := Removing(true, stale, Compare(v.lock.value.inode)))),
     g.(k := v.k.(pc := Removing(true, stale, StatAfter(v.lock.value.inode)))),
     g.(k := v.k.(pc := Removing(true, stale, Unlink))),
     g.(k := v.k.(pc := DropGuard(false)), lock := None)]
  }

  lemma RemovalFollows(v: View, nonce: nat, i: nat)
    requires v.k.pc == Probe && v.lock.Some? && !v.guard && !v.ownerAlive && 0 < i <= 12
    ensures Follows(RemovalPath(v), i, nonce, Some(v.lock.value.token))
  {}

  /** The publication into an empty cell. */
  function FreePath(v: View, nonce: nat): seq<View> {
    [v, v.(k := v.k.(pc := Link)), v.(k := v.k.(pc := Held), lock := Some(Record(v.k.token, nonce)))]
  }

  lemma FreeFollows(v: View, nonce: nat, i: nat)
    requires v.k.pc == Probe && v.lock.None? && !v.guard && !v.ownerAlive && 0 < i <= 2
    ensures Follows(FreePath(v, nonce), i, nonce, None)
  {}

  function FirstView(s: State, process: ProcessId, token: Token): View {
    View(Call(process, token, Probe), s.lock, false, false, false)
  }

  predicate Fits(s: State, c: CallId, process: ProcessId, token: Token) {
    c !in s.calls && token !in s.issued && process !in s.dead
  }

  /** Neither guard nor live owner stands in the way of the next call. */
  predicate LeaseIsFree(s: State) {
    s.guard.None? && (s.lock.Some? ==> !OwnerAlive(s, s.lock.value.token))
  }

  lemma FreeLeaseIsTaken(base: State, c: CallId, process: ProcessId, token: Token, nonce: nat)
    requires Fits(base, c, process, token)
    ensures var v := View(Call(process, token, Probe), None, false, false, false);
      Run(Snapshot(base, c, v), Alone(c, nonce, 2))
        == Snapshot(base, c, v.(k := Call(process, token, Held), lock := Some(Record(token, nonce))))
  {
    var v := View(Call(process, token, Probe), None, false, false, false);
    forall i | 0 < i <= 2 ensures Follows(FreePath(v, nonce), i, nonce, None) {
      FreeFollows(v, nonce, i);
    }
    PathIsRun(base, c, FreePath(v, nonce), 2, nonce, None);
  }

  lemma StaleLeaseIsRemoved(s: State, c: CallId, process: ProcessId, token: Token, next: Token)
    requires Inv(s) && Fits(s, c, process, token) && s.guard.None?
    requires s.lock.Some? && !OwnerAlive(s, s.lock.value.token)
    ensures Run(Apply(s, Start(c, process, token)), Alone(c, next, 12))
      == Snapshot(s, c, View(Call(process, token, DropGuard(false)), None, true, false, false))
  {
    var v := FirstView(s, process, token);
    assert Apply(s, Start(c, process, token)) == Snapshot(s, c, v);
    var stale := Some(s.lock.value.token);
    forall i | 0 < i <= 12 ensures Follows(RemovalPath(v), i, next, stale) {
      RemovalFollows(v, next, i);
    }
    PathIsRun(s, c, RemovalPath(v), 12, next, stale);
  }

  /** Dropping the guard starts a new turn of the loop, under a new token. */
  lemma GuardIsDropped(s: State, c: CallId, process: ProcessId, token: Token, next: Token)
    requires Fits(s, c, process, token) && next !in s.issued && next != token
    ensures Apply(Snapshot(s, c, View(Call(process, token, DropGuard(false)), None, true, false, false)),
                  Act(c, false, false, next))
      == Snapshot(s.(issued := s.issued[token := c]), c, View(Call(process, next, Probe), None, false, false, false))
  {
    assert s.calls[c := Call(process, token, DropGuard(false))][c := Call(process, next, Probe)]
        == s.calls[c := Call(process, next, Probe)];
  }

  lemma {:induction false} RunJoins(s: State, a: seq<Step>, b: seq<Step>)
    ensures Run(s, a + b) == Run(Run(s, a), b)
  {
    if b == [] {
      assert a + b == a;
    } else {
      var n := |b| - 1;
      RunJoins(s, a, b[..n]);
      assert (a + b)[..|a + b| - 1] == a + b[..n];
    }
  }

  /** Without a guard a new call by a live process acquires a free lease in two file-system calls;
      when the owner is dead it removes the record under the guard, drops the guard, and acquires
      the lease under a new token, in fifteen. */
  lemma StaleLeaseIsRecovered(steps: seq<Step>, c: CallId, process: ProcessId, token: Token, next: Token)
    requires Fits(After(steps), c, process, token) && LeaseIsFree(After(steps))
    requires next !in After(steps).issued && next != token
    ensures var s := After(steps);
            var s' := Run(Apply(s, Start(c, process, token)), Alone(c, next, if s.lock.None? then 2 else 15));
            && Holds(s', c) && s'.calls[c].pc == Held && s'.guard.None?
            && s'.lock == Some(Record(if s.lock.None? then token else next, next))
  {
    Invariant(steps);
    var s := After(steps);
    var first := Apply(s, Start(c, process, token));
    if s.lock.None? {
      assert first == Snapshot(s, c, FirstView(s, process, token));
      FreeLeaseIsTaken(s, c, process, token, next);
    } else {
      StaleLeaseIsRemoved(s, c, process, token, next);
      GuardIsDropped(s, c, process, token, next);
      var base := s.(issued := s.issued[token := c]);
      FreeLeaseIsTaken(base, c, process, next, next);
      RunOne(first, Alone(c, next, 12), Act(c, false, false, next));
      RunJoins(first, Alone(c, next, 12) + [Act(c, false, false, next)], Alone(c, next, 2));
      assert Alone(c, next, 12) + [Act(c, false, false, next)] + Alone(c, next, 2) == Alone(c, next, 15);
    }
  }

  lemma RunOne(s: State, a: seq<Step>, step: Step)
    ensures Run(s, a + [step]) == Apply(Run(s, a), step)
  {
    assert (a + [step])[..|a + [step]| - 1] == a;
  }

  // ---- failure ----

  /** The call waits for a guard that is not its own. */
  predicate RefusedByGuard(s: State, c: CallId) {
    Live(s, c) && s.guard.Some? && s.guard != Some(c) && (s.calls[c].pc.Probe? || s.calls[c].pc.Failed?)
  }

  /** The call waits for a live owner: it never gets to the guard. */
  predicate RefusedByOwner(s: State, c: CallId) {
    && Live(s, c) && s.calls[c].token in s.issued && s.issued[s.calls[c].token] == c
    && s.lock.Some? && OwnerAlive(s, s.lock.value.token) && s.issued[s.lock.value.token] != c
    && Refusal(s.calls[c].pc, s.lock.value.token)
  }

  predicate Refusal(pc: Pc, owner: Token) {
    pc.Probe? || pc.Link? || pc.Inspect? || pc.ReadExisting? || pc == Judge(owner) || pc.Failed?
  }

  predicate Refused(s: State, c: CallId) {
    RefusedByGuard(s, c) || RefusedByOwner(s, c)
  }

  lemma GuardRefuses(s: State, c: CallId, error: bool, late: bool, nonce: nat)
    requires RefusedByGuard(s, c)
    ensures RefusedByGuard(Apply(s, Act(c, error, late, nonce)), c)
  {}

  /** What a refused call does next: it changes no record, and draws only new tokens. */
  lemma RefusalGoesOn(v: View, error: bool, late: bool, nonce: nat)
    requires v.lock.Some? && Refusal(v.k.pc, v.lock.value.token) && (v.k.pc.Judge? ==> v.ownerAlive)
    ensures var e := Local(v, error, late, nonce);
      && Refusal(e.k.pc, v.lock.value.token) && e.lock == v.lock && e.k.process == v.k.process
      && (e.k.token == v.k.token || (e.k.token == nonce && !v.used))
  {}

  lemma OwnerRefuses(s: State, c: CallId, error: bool, late: bool, nonce: nat)
    requires RefusedByOwner(s, c)
    ensures RefusedByOwner(Apply(s, Act(c, error, late, nonce)), c)
  {
    RefusalGoesOn(See(s, c, nonce), error, late, nonce);
  }

  lemma {:induction false} NeverHeld(s: State, c: CallId, alone: seq<Step>)
    requires Refused(s, c) && Undisturbed(c, alone)
    ensures Refused(Run(s, alone), c)
  {
    if alone != [] {
      var n := |alone| - 1;
      var before, last := Run(s, alone[..n]), alone[n];
      NeverHeld(s, c, alone[..n]);
      if RefusedByGuard(before, c) {
        GuardRefuses(before, c, last.error, last.late, last.nonce);
      } else {
        OwnerRefuses(before, c, last.error, last.late, last.nonce);
      }
    }
  }

  lemma StartsRefused(s: State, c: CallId, process: ProcessId, token: Token)
    requires Inv(s) && Fits(s, c, process, token)
    requires s.guard.Some? || (s.lock.Some? && OwnerAlive(s, s.lock.value.token))
    ensures Refused(Apply(s, Start(c, process, token)), c)
  {}

  lemma {:induction false} UnusedToken(issued: set<Token>) returns (next: Token)
    ensures forall t :: t in issued ==> t < next
  {
    if issued == {} {
      next := 0;
    } else {
      var t :| t in issued;
      var rest := UnusedToken(issued - {t});
      next := if rest > t then rest else t + 1;
      forall u | u in issued ensures u < next {
        assert u == t || u in issued - {t};
      }
    }
  }

  lemma CanTakeTheLease(steps: seq<Step>, c: CallId, process: ProcessId, token: Token) returns (alone: seq<Step>)
    requires Fits(After(steps), c, process, token) && LeaseIsFree(After(steps))
    ensures Undisturbed(c, alone) && Holds(Run(Apply(After(steps), Start(c, process, token)), alone), c)
  {
    var s := After(steps);
    var next := UnusedToken(s.issued.Keys + {token});
    StaleLeaseIsRecovered(steps, c, process, token, next);
    alone := Alone(c, next, if s.lock.None? then 2 else 15);
  }

  lemma CannotTakeTheLease(steps: seq<Step>, c: CallId, process: ProcessId, token: Token, alone: seq<Step>)
    requires Fits(After(steps), c, process, token) && !LeaseIsFree(After(steps)) && Undisturbed(c, alone)
    ensures !Holds(Run(Apply(After(steps), Start(c, process, token)), alone), c)
  {
    Invariant(steps);
    var s := After(steps);
    StartsRefused(s, c, process, token);
    NeverHeld(Apply(s, Start(c, process, token)), c, alone);
  }

  /** A call that is left alone can get the lease exactly when there is no guard and the lease is
      free or its owner dead. */
  lemma TakesTheLeaseExactlyWhen(steps: seq<Step>, c: CallId, process: ProcessId, token: Token)
    requires Fits(After(steps), c, process, token)
    ensures (exists alone ::
               Undisturbed(c, alone) && Holds(Run(Apply(After(steps), Start(c, process, token)), alone), c))
      <==> LeaseIsFree(After(steps))
  {
    if LeaseIsFree(After(steps)) {
      var alone := CanTakeTheLease(steps, c, process, token);
      assert Undisturbed(c, alone);
    } else {
      forall alone | Undisturbed(c, alone)
        ensures !Holds(Run(Apply(After(steps), Start(c, process, token)), alone), c)
      {
        CannotTakeTheLease(steps, c, process, token, alone);
      }
    }
  }
}
