/** The workspace lifecycle lease (`acquireLifecycleLock`): the second lock protocol. It waits
    instead of giving up, judges the recorded owner both before and under the recovery guard,
    and its recoverer only removes the stale record; publication always happens unguarded. */
module LifecycleLock {
  import opened Prelude
  import opened LockFiles

  datatype Pc =
    | Probe                              // lstat of the recovery guard
    | Link                               // publication
    | Inspect                            // lstat of the published lease
    | ReadExisting
    | Judge(existing: Token)             // liveness, before the guard is taken
    | CreateGuard(existing: Token)
    | Reread(existing: Token)            // under the guard: unchanged text?
    | Rejudge(existing: Token)           // under the guard: still dead?
    | Removing(recover: bool, expected: Token, stage: Stage)
    | DropGuard(fail: bool)
    | Held
    | ReleaseRead
    | Failed
    | Released

  datatype Call = Call(process: ProcessId, token: Token, pc: Pc)

  datatype State = State(
    lock: Cell,
    guard: Option<CallId>,
    calls: map<CallId, Call>,
    dead: set<ProcessId>,
    issued: map<Token, CallId>)

  const Init := State(None, None, map[], {}, map[])

  /** `error` is an unexpected file-system error or a malformed lease; at the two liveness tests
      it is an identity that could not be read. `late` tells that the deadline has passed. `nonce`
      is the inode of a new file or the token of a new turn of the loop. */
  datatype Step =
    | Start(c: CallId, process: ProcessId, nonce: Token)
    | Act(c: CallId, error: bool, late: bool, nonce: nat)
    | ReleaseLease(c: CallId)
    | Crash(process: ProcessId)

  predicate Live(s: State, c: CallId) {
    c in s.calls && s.calls[c].process !in s.dead
  }

  predicate OwnerAlive(s: State, token: Token) {
    token in s.issued && Live(s, s.issued[token])
  }

  datatype View = View(k: Call, lock: Cell, guard: bool, ownerAlive: bool, used: bool)

  datatype Effect = Effect(k: Call, lock: Cell, guard: GuardChange)

  function Go(v: View, pc: Pc): Effect {
    Effect(v.k.(pc := pc), v.lock, Keep)
  }

  /** Another turn of the loop draws a new token; a past deadline ends the call. */
  function Again(v: View, timedOut: bool, nonce: nat): Effect {
    if timedOut then Go(v, Failed)
    else if v.used then Go(v, v.k.pc)
    else Go(v, Probe).(k := v.k.(token := nonce, pc := Probe))
  }

  function Remove(v: View, recover: bool, expected: Token, stage: Stage): Effect {
    var done := if recover then DropGuard(false) else Released;
    match RemoveStep(v.lock, expected, stage)
    case Continue(next) => Go(v, Removing(recover, expected, next))
    case Unchanged => Go(v, done)
    case Removed => Go(v, done).(lock := None)
  }

  /** The next file-system call of a call that sees `v`. */
  function Local(v: View, error: bool, late: bool, nonce: nat): Effect {
    match v.k.pc
    case Probe =>
      if error then Go(v, Failed) else if v.guard then Again(v, late, nonce) else Go(v, Link)
    case Link =>
      if error then Go(v, Failed)
      else if v.lock.Some? then Go(v, Inspect)
      else Go(v, Held).(lock := Some(Record(v.k.token, nonce)))
    case Inspect =>
      if error then Go(v, Failed) else if v.lock.None? then Again(v, late, nonce) else Go(v, ReadExisting)
    case ReadExisting =>
      if error then Go(v, Failed)
      else if v.lock.None? then Again(v, late, nonce)
      else Go(v, Judge(v.lock.value.token))
    case Judge(existing) =>
      if error || v.ownerAlive then Again(v, late, nonce) else Go(v, CreateGuard(existing))
    case CreateGuard(existing) =>
      if error then Go(v, Failed)
      else if v.guard then Again(v, late, nonce)
      else Go(v, Reread(existing)).(guard := Take)
    case Reread(existing) =>
      Go(v, if error then DropGuard(true)
         else if Carries(v.lock) != Some(existing) then DropGuard(false)
         else Rejudge(existing))
    case Rejudge(existing) =>
      Go(v, if error || v.ownerAlive then DropGuard(false) else Removing(true, existing, StatBefore))
    case Removing(recover, expected, stage) =>
      if error then Go(v, if recover then DropGuard(true) else Released)
      else Remove(v, recover, expected, stage)
    case DropGuard(fail) =>
      // A guard that cannot be unlinked stays behind and the error is swallowed.
      var e := Again(v, fail, nonce);
      if error || e.k.pc.DropGuard? then e else e.(guard := Drop)
    case ReleaseRead =>
      Go(v, if error || Carries(v.lock) != Some(v.k.token) then Released
         else Removing(false, v.k.token, StatBefore))
    case Held => Go(v, Held)
    case Failed => Go(v, Failed)
    case Released => Go(v, Released)
  }

  function See(s: State, c: CallId, nonce: nat): View
    requires c in s.calls
  {
    var pc := s.calls[c].pc;
    var judged := if pc.Judge? || pc.Rejudge? then Some(pc.existing) else None;
    View(s.calls[c], s.lock, s.guard.Some?, judged.Some? && OwnerAlive(s, judged.value), nonce in s.issued)
  }

  function Commit(s: State, c: CallId, e: Effect): State {
    s.(calls := s.calls[c := e.k],
       lock := e.lock,
       guard := (match e.guard case Keep => s.guard case Take => Some(c) case Drop => None),
       issued := s.issued[e.k.token := c])
  }

  function Apply(s: State, step: Step): State {
    match step
    case Start(c, process, nonce) =>
      if c in s.calls || process in s.dead || nonce in s.issued then s
      else s.(calls := s.calls[c := Call(process, nonce, Probe)], issued := s.issued[nonce := c])
    case Act(c, error, late, nonce) =>
      if Live(s, c) then Commit(s, c, Local(See(s, c, nonce), error, late, nonce)) else s
    case ReleaseLease(c) =>
      if Live(s, c) && s.calls[c].pc.Held? then Commit(s, c, Go(See(s, c, 0), ReleaseRead)) else s
    case Crash(process) => s.(dead := s.dead + {process})
  }

  function Run(s: State, steps: seq<Step>): State {
    if steps == [] then s else Apply(Run(s, steps[..|steps| - 1]), steps[|steps| - 1])
  }

  function After(steps: seq<Step>): State {
    Run(Init, steps)
  }

  predicate Owns(pc: Pc) {
    pc.Held? || pc.ReleaseRead? || (pc.Removing? && !pc.recover)
  }

  predicate Guarded(pc: Pc) {
    pc.Reread? || pc.Rejudge? || (pc.Removing? && pc.recover) || pc.DropGuard?
  }

  predicate Holds(s: State, c: CallId) {
    Live(s, c) && Owns(s.calls[c].pc)
  }

  ghost predicate Inv(s: State) {
    && (forall c :: c in s.calls ==> s.calls[c].token in s.issued && s.issued[s.calls[c].token] == c)
    && (forall t :: t in s.issued ==> s.issued[t] in s.calls)
    && (s.lock.Some? ==> s.lock.value.token in s.issued)
    && (s.guard.Some? ==> s.guard.value in s.calls)
    && (forall c :: c in s.calls && Guarded(s.calls[c].pc) ==> s.guard == Some(c))
    && LockInv(s)
    && RemovalInv(s)
  }

  ghost predicate LockInv(s: State) {
    forall c :: Holds(s, c) ==> Carries(s.lock) == Some(s.calls[c].token)
  }

  predicate Judged(pc: Pc) {
    pc.Judge? || pc.CreateGuard? || pc.Reread? || pc.Rejudge?
  }

  ghost predicate RemovalInv(s: State) {
    && (forall c :: c in s.calls && Judged(s.calls[c].pc) ==> s.calls[c].pc.existing in s.issued)
    && (forall c :: c in s.calls && s.calls[c].pc.Removing? ==>
          var pc := s.calls[c].pc;
          if pc.recover then
            pc.expected in s.issued && !OwnerAlive(s, pc.expected)
            && (Compared(pc.stage) ==> Carries(s.lock) == Some(pc.expected))
          else pc.expected == s.calls[c].token)
  }

  // ---- what one step can do ----

  predicate TokenFacts(v: View, e: Effect, nonce: nat) {
    && e.k.process == v.k.process
    && (e.k.token == v.k.token || (e.k.token == nonce && !v.used && e.k.pc.Probe?))
    && (e.lock == v.lock || e.lock.None? || e.lock.value.token == v.k.token == e.k.token)
    && (match e.guard
        case Keep => Guarded(e.k.pc) ==> Guarded(v.k.pc)
        case Take => !v.guard
        case Drop => Guarded(v.k.pc) && !Guarded(e.k.pc))
  }

  predicate LockFacts(v: View, e: Effect) {
    || (e.lock == v.lock && (Owns(e.k.pc) ==> Owns(v.k.pc) && e.k.token == v.k.token))
    || (v.lock.None? && Carries(e.lock) == Some(e.k.token) && e.k.token == v.k.token)
    || (v.lock.Some? && e.lock.None? && !Owns(e.k.pc) && v.k.pc.Removing? && v.k.pc.stage.Unlink?)
  }

  predicate RemovalFacts(v: View, e: Effect) {
    var pc, pc' := v.k.pc, e.k.pc;
    && (Judged(pc') ==> (Judged(pc) && pc.existing == pc'.existing) || Carries(v.lock) == Some(pc'.existing))
    && (pc'.Removing? ==> e.k.token == v.k.token && e.lock == v.lock)
    && (pc'.Removing? && pc'.recover ==>
          || (pc == Rejudge(pc'.expected) && !v.ownerAlive && !Compared(pc'.stage))
          || (pc.Removing? && pc.recover && pc.expected == pc'.expected
              && (Compared(pc'.stage) ==> Compared(pc.stage) || Carries(v.lock) == Some(pc'.expected))))
    && (pc'.Removing? && !pc'.recover ==>
          pc'.expected == v.k.token || (pc.Removing? && !pc.recover && pc'.expected == pc.expected))
  }

  lemma LocalTokens(v: View, error: bool, late: bool, nonce: nat)
    ensures TokenFacts(v, Local(v, error, late, nonce), nonce)
  {}

  lemma LocalLock(v: View, error: bool, late: bool, nonce: nat)
    ensures LockFacts(v, Local(v, error, late, nonce))
  {}

  lemma LocalRemoval(v: View, error: bool, late: bool, nonce: nat)
    ensures RemovalFacts(v, Local(v, error, late, nonce))
  {}

  lemma CommitKeepsLock(s: State, c: CallId, e: Effect, nonce: nat)
    requires Inv(s) && Live(s, c) && TokenFacts(See(s, c, nonce), e, nonce) && LockFacts(See(s, c, nonce), e)
    ensures LockInv(Commit(s, c, e))
  {}

  lemma CommitKeepsRemoval(s: State, c: CallId, e: Effect, nonce: nat)
    requires Inv(s) && Live(s, c) && TokenFacts(See(s, c, nonce), e, nonce) && LockFacts(See(s, c, nonce), e)
    requires RemovalFacts(See(s, c, nonce), e)
    ensures RemovalInv(Commit(s, c, e))
  {}

  lemma CommitKeepsInv(s: State, c: CallId, e: Effect, nonce: nat)
    requires Inv(s) && Live(s, c) && TokenFacts(See(s, c, nonce), e, nonce) && LockFacts(See(s, c, nonce), e)
    requires RemovalFacts(See(s, c, nonce), e)
    ensures Inv(Commit(s, c, e))
  {
    CommitKeepsLock(s, c, e, nonce);
    CommitKeepsRemoval(s, c, e, nonce);
  }

  lemma ActKeepsInv(s: State, c: CallId, error: bool, late: bool, nonce: nat)
    requires Inv(s) && Live(s, c)
    ensures Inv(Commit(s, c, Local(See(s, c, nonce), error, late, nonce)))
  {
    var v := See(s, c, nonce);
    LocalTokens(v, error, late, nonce);
    LocalLock(v, error, late, nonce);
    LocalRemoval(v, error, late, nonce);
    CommitKeepsInv(s, c, Local(v, error, late, nonce), nonce);
  }

  lemma StartKeepsInv(s: State, c: CallId, process: ProcessId, nonce: Token)
    requires Inv(s)
    ensures Inv(Apply(s, Start(c, process, nonce)))
  {}

  lemma CrashKeepsInv(s: State, process: ProcessId)
    requires Inv(s)
    ensures Inv(Apply(s, Crash(process)))
  {}

  lemma StepKeepsInv(s: State, step: Step)
    requires Inv(s)
    ensures Inv(Apply(s, step))
  {
    match step
    case Act(c, error, late, nonce) =>
      if Live(s, c) {
        ActKeepsInv(s, c, error, late, nonce);
      }
    case ReleaseLease(c) =>
      if Live(s, c) && s.calls[c].pc.Held? {
        CommitKeepsInv(s, c, Go(See(s, c, 0), ReleaseRead), 0);
      }
    case Start(c, process, nonce) => StartKeepsInv(s, c, process, nonce);
    case Crash(process) => CrashKeepsInv(s, process);
  }

  lemma {:induction false} Invariant(steps: seq<Step>)
    ensures Inv(After(steps))
  {
    if steps != [] {
      Invariant(steps[..|steps| - 1]);
      StepKeepsInv(After(steps[..|steps| - 1]), steps[|steps| - 1]);
    }
  }

  /** At every moment of every run at most one live call owns the lease, and the lease file then
      carries its token. */
  lemma MutualExclusion(steps: seq<Step>)
    ensures var s := After(steps);
            && (forall c :: Holds(s, c) ==> Carries(s.lock) == Some(s.calls[c].token))
            && (forall c, d :: Holds(s, c) && Holds(s, d) ==> c == d)
  {
    Invariant(steps);
  }

  /** A published lease is only ever removed by the call that drew its token, or by the holder
      of the recovery guard once that call's process is dead. */
  lemma OnlyRightfulRemoval(steps: seq<Step>, step: Step)
    ensures var s, s' := After(steps), Apply(After(steps), step);
            s'.lock != s.lock && s.lock.Some? ==>
              && s'.lock.None?
              && step.Act? && Live(s, step.c)
              && (s.calls[step.c].token == s.lock.value.token
                  || (s.guard == Some(step.c) && !OwnerAlive(s, s.lock.value.token)))
  {
    Invariant(steps);
    var s := After(steps);
    if step.Act? && Live(s, step.c) {
      LocalLock(See(s, step.c, step.nonce), step.error, step.late, step.nonce);
    }
  }

  /** The recoverer never publishes: a call that acts under the guard leaves the lease cell
      unchanged or empty, so a lease is only won by an unguarded publication. */
  lemma RecovererOnlyRemoves(steps: seq<Step>, c: CallId, error: bool, late: bool, nonce: nat)
    requires Live(After(steps), c) && Guarded(After(steps).calls[c].pc)
    ensures var s, s' := After(steps), Apply(After(steps), Act(c, error, late, nonce));
            && (s'.lock == s.lock || s'.lock.None?)
            && !Holds(s', c)
  {
    Invariant(steps);
    LocalLock(See(After(steps), c, nonce), error, late, nonce);
  }

  lemma OneStepKeepsAbandoned(s: State, step: Step)
    requires Inv(s) && s.guard.Some? && !Live(s, s.guard.value)
    ensures Apply(s, step).guard == s.guard && !Live(Apply(s, step), s.guard.value)
  {
    if step.Act? && Live(s, step.c) {
      LocalTokens(See(s, step.c, step.nonce), step.error, step.late, step.nonce);
    }
  }

  /** A guard whose creator has crashed is never removed again: the lease then fails closed. */
  lemma {:induction false} AbandonedGuardStays(steps: seq<Step>, more: seq<Step>)
    requires After(steps).guard.Some? && !Live(After(steps), After(steps).guard.value)
    ensures Run(After(steps), more).guard == After(steps).guard
    ensures !Live(Run(After(steps), more), After(steps).guard.value)
    ensures Inv(Run(After(steps), more))
  {
    if more == [] {
      Invariant(steps);
    } else {
      var before := Run(After(steps), more[..|more| - 1]);
      var step := more[|more| - 1];
      AbandonedGuardStays(steps, more[..|more| - 1]);
      StepKeepsInv(before, step);
      OneStepKeepsAbandoned(before, step);
    }
  }
}
