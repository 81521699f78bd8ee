/** The workspace daemon lock (`acquireWorkspaceLock`), its readiness marker and the status
    inspector, as a transition system with one step per file-system call. Any number of
    processes make any number of acquisition calls; every process may crash between any two
    steps; any file-system call may also fail with an unexpected error. */
module DaemonLock {
  import opened Prelude
  import opened LockFiles

  const MAX_ATTEMPTS := 3

  /** What follows the `finally` block that unlinks the recovery guard. */
  datatype Exit = Retry | Fail | Hold

  datatype Purpose = Recover | Abort(guarded: bool) | Release | Withdraw

  datatype Pc =
    | Probe                                // lstat of the recovery guard
    | Link                                 // first publication
    | CreateGuard                          // exclusive create of the guard
    | ReadExisting                         // under the guard
    | Judge(existing: Token)               // liveness and identity of the recorded owner
    | Removing(why: Purpose, expected: Token, stage: Stage)
    | Relink(missing: bool)                // publication under the guard
    | ClearMarker(guarded: bool)           // unlink of a predecessor's readiness marker
    | AbortRead(guarded: bool)             // marker could not be cleared: give the lock back
    | DropGuard(exit: Exit)
    | Held
    | ReadyCheck | ReadyRename | ReadyRecheck | WithdrawRead
    | ReleaseRead | ReleaseMarker
    | Failed
    | Released

  datatype Call = Call(process: ProcessId, token: Token, attempt: nat, ready: bool, pc: Pc)

  /** The daemon status inspector: it probes the guard, reads the lock, checks its owner and
      reads the marker, in four separate steps. */
  datatype Observation =
    | GuardClear
    | SawLock(token: Token)
    | OwnerRuns(token: Token)
    | Report(token: Token, running: bool, ready: bool)
    | NoReport

  /** `issued` records which call drew each token and `marked` which tokens have been renamed
      into place by `markReady`; both only document history. */
  datatype State = State(
    lock: Cell,
    guard: Option<CallId>,
    marker: Cell,
    calls: map<CallId, Call>,
    dead: set<ProcessId>,
    issued: map<Token, CallId>,
    marked: set<Token>,
    observers: map<nat, Observation>)

  const Init := State(None, None, None, map[], {}, map[], {}, map[])

  /** `error` makes the file-system call fail unexpectedly; `nonce` is the inode of a new file
      or, where a new attempt starts, the new token. */
  datatype Step =
    | Start(c: CallId, process: ProcessId, nonce: Token)
    | Act(c: CallId, error: bool, nonce: nat)
    | MarkReady(c: CallId)
    | ReleaseLock(c: CallId)
    | Crash(process: ProcessId)
    | Observe(observer: nat)

  predicate Live(s: State, c: CallId) {
    c in s.calls && s.calls[c].process !in s.dead
  }

  /** Whether the process that drew this token still runs. */
  predicate OwnerAlive(s: State, token: Token) {
    token in s.issued && Live(s, s.issued[token])
  }

  /** What one step of a call can see: its own record and the three cells. `ownerAlive` is the
      liveness of the process a judged record names; `used` tells that `nonce` is no new token. */
  datatype View = View(k: Call, lock: Cell, guard: bool, marker: Cell, ownerAlive: bool, used: bool)

  /** What one step of a call changes. */
  datatype Effect = Effect(k: Call, lock: Cell, guard: GuardChange, marker: Cell)

  function Go(v: View, pc: Pc): Effect {
    Effect(v.k.(pc := pc), v.lock, Keep, v.marker)
  }

  /** Leave the acquisition, dropping the guard first when it is held. */
  function Leave(guarded: bool, exit: Exit): Pc {
    if guarded then DropGuard(exit)
    else match exit case Hold => Held case Fail => Failed case Retry => Probe
  }

  /** The next turn of the three-attempt loop draws a new token. */
  function NextAttempt(v: View, nonce: nat): Call {
    if v.k.attempt + 1 >= MAX_ATTEMPTS then v.k.(pc := Failed)
    else if v.used then v.k
    else v.k.(token := nonce, attempt := v.k.attempt + 1, pc := Probe)
  }

  function AfterRemoval(why: Purpose, removed: bool): Pc {
    match why
    case Recover => if removed then Relink(false) else DropGuard(Retry)
    case Abort(guarded) => Leave(guarded, Fail)
    case Release => Released
    case Withdraw => Held
  }

  function RemovalError(why: Purpose): Pc {
    match why
    case Recover => DropGuard(Fail)
    case Abort(guarded) => Leave(guarded, Fail)
    case Release => Released
    case Withdraw => Held
  }

  function Remove(v: View, why: Purpose, expected: Token, stage: Stage): Effect {
    match RemoveStep(if why.Withdraw? then v.marker else v.lock, expected, stage)
    case Continue(next) => Go(v, Removing(why, expected, next))
    case Unchanged => Go(v, AfterRemoval(why, false))
    case Removed =>
      var e := Go(v, AfterRemoval(why, true));
      if why.Withdraw? then e.(marker := None) else e.(lock := None)
  }

  function Publish(v: View, inode: nat, guarded: bool): Effect {
    Go(v, ClearMarker(guarded)).(lock := Some(Record(v.k.token, inode)))
  }

  /** The next file-system call of a call that sees `v`. */
  function Local(v: View, error: bool, nonce: nat): Effect {
    match v.k.pc
    case Probe => Go(v, if error || v.guard then Failed else Link)
    case Link =>
      if error then Go(v, Failed)
      else if v.lock.Some? then Go(v, CreateGuard)
      else Publish(v, nonce, false)
    case CreateGuard =>
      if error || v.guard then Go(v, Failed)
      else Go(v, ReadExisting).(guard := Take)
    case ReadExisting =>
      Go(v, if error then DropGuard(Fail)
         else if v.lock.None? then Relink(true)
         else Judge(v.lock.value.token))
    case Judge(existing) =>
      // `error` also stands for an identity that could not be read: the lock then counts as held.
      Go(v, if error || v.ownerAlive then DropGuard(Fail) else Removing(Recover, existing, StatBefore))
    case Removing(why, expected, stage) =>
      if error then Go(v, RemovalError(why)) else Remove(v, why, expected, stage)
    case Relink(missing) =>
      if error then Go(v, DropGuard(Fail))
      else if v.lock.Some? then Go(v, DropGuard(if missing then Fail else Retry))
      else Publish(v, nonce, true)
    case ClearMarker(guarded) =>
      if error then Go(v, AbortRead(guarded))
      else Go(v, Leave(guarded, Hold)).(marker := None)
    case AbortRead(guarded) =>
      Go(v, if error || Carries(v.lock) != Some(v.k.token) then Leave(guarded, Fail)
         else Removing(Abort(guarded), v.k.token, StatBefore))
    case DropGuard(exit) =>
      // A guard that cannot be unlinked stays behind and the error is swallowed.
      var e := if exit.Retry? then Go(v, Probe).(k := NextAttempt(v, nonce)) else Go(v, Leave(false, exit));
      if error || e.k.pc.DropGuard? then e else e.(guard := Drop)
    case ReadyCheck =>
      Go(v, if error || Carries(v.lock) != Some(v.k.token) then Held else ReadyRename)
    case ReadyRename =>
      if error then Go(v, Held)
      else Go(v, ReadyRecheck).(marker := Some(Record(v.k.token, nonce)))
    case ReadyRecheck =>
      if error then Go(v, Held)
      else if Carries(v.lock) == Some(v.k.token) then Go(v, Held).(k := v.k.(ready := true, pc := Held))
      else Go(v, WithdrawRead)
    case WithdrawRead =>
      Go(v, if error || Carries(v.marker) != Some(v.k.token) then Held
         else Removing(Withdraw, v.k.token, StatBefore))
    case ReleaseRead =>
      Go(v, if error || Carries(v.lock) != Some(v.k.token) then Released else ReleaseMarker)
    case ReleaseMarker =>
      // A marker that cannot be unlinked is reported after the lock itself is removed.
      var e := Go(v, Removing(Release, v.k.token, StatBefore));
      if error then e else e.(marker := None)
    case Held => Go(v, Held)
    case Failed => Go(v, Failed)
    case Released => Go(v, Released)
  }

  function See(s: State, c: CallId, nonce: nat): View
    requires c in s.calls
  {
    var pc := s.calls[c].pc;
    View(s.calls[c], s.lock, s.guard.Some?, s.marker, pc.Judge? && OwnerAlive(s, pc.existing), nonce in s.issued)
  }

  function Commit(s: State, c: CallId, e: Effect): State {
    s.(calls := s.calls[c := e.k],
       lock := e.lock,
       guard := (match e.guard case Keep => s.guard case Take => Some(c) case Drop => None),
       marker := e.marker,
       issued := s.issued[e.k.token := c],
       marked := if e.k.pc.ReadyRecheck? then s.marked + {e.k.token} else s.marked)
  }

  function ObserveStep(s: State, seen: Option<Observation>): Observation {
    match seen
    case None => if s.guard.None? then GuardClear else NoReport
    case Some(GuardClear) => if s.lock.None? then NoReport else SawLock(s.lock.value.token)
    case Some(SawLock(t)) => if OwnerAlive(s, t) then OwnerRuns(t) else Report(t, false, false)
    case Some(OwnerRuns(t)) => Report(t, true, Carries(s.marker) == Some(t))
    case Some(done) => done
  }

  /** The effect of one step; a step that is not enabled changes nothing. */
  function Apply(s: State, step: Step): State {
    match step
    case Start(c, process, nonce) =>
      if c in s.calls || process in s.dead || nonce in s.issued then s
      else s.(calls := s.calls[c := Call(process, nonce, 0, false, Probe)], issued := s.issued[nonce := c])
    case Act(c, error, nonce) => if Live(s, c) then Commit(s, c, Local(See(s, c, nonce), error, nonce)) else s
    case MarkReady(c) =>
      if Live(s, c) && s.calls[c].pc.Held? && !s.calls[c].ready then Commit(s, c, Go(See(s, c, 0), ReadyCheck)) else s
    case ReleaseLock(c) => if Live(s, c) && s.calls[c].pc.Held? then Commit(s, c, Go(See(s, c, 0), ReleaseRead)) else s
    case Crash(process) => s.(dead := s.dead + {process})
    case Observe(o) =>
      s.(observers := s.observers[o := ObserveStep(s, if o in s.observers then Some(s.observers[o]) else None)])
  }

  /** The state that a list of steps leads to. */
  function Run(s: State, steps: seq<Step>): State {
    if steps == [] then s else Apply(Run(s, steps[..|steps| - 1]), steps[|steps| - 1])
  }

  /** The reachable states: any list of steps, taken from an empty directory. */
  function After(steps: seq<Step>): State {
    Run(Init, steps)
  }

  /** The call has published its record and has not yet removed it. */
  predicate Owns(pc: Pc) {
    match pc
    case ClearMarker(_) => true
    case AbortRead(_) => true
    case Removing(why, _, _) => !why.Recover?
    case DropGuard(exit) => exit.Hold?
    case Held => true
    case ReadyCheck => true
    case ReadyRename => true
    case ReadyRecheck => true
    case WithdrawRead => true
    case ReleaseRead => true
    case ReleaseMarker => true
    case _ => false
  }

  predicate Guarded(pc: Pc) {
    match pc
    case ReadExisting => true
    case Judge(_) => true
    case Removing(why, _, _) => why.Recover? || (why.Abort? && why.guarded)
    case Relink(_) => true
    case ClearMarker(guarded) => guarded
    case AbortRead(guarded) => guarded
    case DropGuard(_) => true
    case _ => false
  }

  /** The acquisition has succeeded: the predecessor's marker has been cleared. */
  predicate Acquired(pc: Pc) {
    match pc
    case Removing(why, _, _) => why.Release? || why.Withdraw?
    case DropGuard(exit) => exit.Hold?
    case Held => true
    case ReadyCheck => true
    case ReadyRename => true
    case ReadyRecheck => true
    case WithdrawRead => true
    case ReleaseRead => true
    case ReleaseMarker => true
    case Released => true
    case _ => false
  }

  /** The call owns the lock and its process is alive. */
  predicate Holds(s: State, c: CallId) {
    Live(s, c) && Owns(s.calls[c].pc)
  }

  ghost predicate TokensUnique(s: State) {
    && (forall c :: c in s.calls ==> s.calls[c].token in s.issued && s.issued[s.calls[c].token] == c)
    && (forall t :: t in s.issued ==> s.issued[t] in s.calls)
    && (s.lock.Some? ==> s.lock.value.token in s.issued)
  }

  ghost predicate GuardInv(s: State) {
    && (s.guard.Some? ==> s.guard.value in s.calls)
    && (forall c :: c in s.calls && Guarded(s.calls[c].pc) ==> s.guard == Some(c))
  }

  ghost predicate LockInv(s: State) {
    forall c :: Holds(s, c) ==> Carries(s.lock) == Some(s.calls[c].token)
  }

  ghost predicate RemovalInv(s: State) {
    && (forall c :: c in s.calls && s.calls[c].pc.Removing? ==>
          var pc := s.calls[c].pc;
          if pc.why.Recover? then
            !OwnerAlive(s, pc.expected) && pc.expected in s.issued
            && (Compared(pc.stage) ==> Carries(s.lock) == Some(pc.expected))
          else pc.expected == s.calls[c].token)
    && (forall c :: c in s.calls && s.calls[c].pc.Judge? ==> s.calls[c].pc.existing in s.issued)
  }

  ghost predicate MarkerInv(s: State) {
    && (s.marker.Some? ==> s.marker.value.token in s.marked)
    && (forall t :: t in s.marked ==>
          t in s.issued && s.issued[t] in s.calls && Acquired(s.calls[s.issued[t]].pc)
          && s.calls[s.issued[t]].token == t)
    && (forall c :: Holds(s, c) && Acquired(s.calls[c].pc) && s.marker.Some? ==>
          s.marker.value.token == s.calls[c].token)
    && (forall o :: o in s.observers && s.observers[o].Report? && s.observers[o].ready ==>
          s.observers[o].token in s.marked)
  }

  ghost predicate Inv(s: State) {
    TokensUnique(s) && GuardInv(s) && LockInv(s) && RemovalInv(s) && MarkerInv(s)
  }

  // ---- what one step can do, as far as each part of the invariant is concerned ----

  predicate TokenFacts(v: View, e: Effect, nonce: nat) {
    && e.k.process == v.k.process
    && (e.k.token == v.k.token || (e.k.token == nonce && !v.used && v.k.pc.DropGuard? && e.k.pc.Probe?))
    && (e.lock == v.lock || e.lock.None? || (e.lock.value.token == v.k.token == e.k.token))
  }

  predicate GuardFacts(v: View, e: Effect) {
    match e.guard
    case Keep => Guarded(e.k.pc) ==> Guarded(v.k.pc)
    case Take => !v.guard
    case Drop => Guarded(v.k.pc) && !Guarded(e.k.pc)
  }

  predicate LockFacts(v: View, e: Effect) {
    || (e.lock == v.lock && (Owns(e.k.pc) ==> Owns(v.k.pc) && e.k.token == v.k.token))
    || (v.lock.None? && Carries(e.lock) == Some(e.k.token) && e.k.token == v.k.token)
    || (v.lock.Some? && e.lock.None? && !Owns(e.k.pc)
        && v.k.pc.Removing? && !v.k.pc.why.Withdraw? && v.k.pc.stage.Unlink?)
  }

  predicate RemovalFacts(v: View, e: Effect) {
    var pc, pc' := v.k.pc, e.k.pc;
    && (pc'.Judge? ==> v.lock.Some? && pc'.existing == v.lock.value.token)
    && (pc'.Removing? ==> e.k.token == v.k.token && e.lock == v.lock)
    && (pc'.Removing? && pc'.why.Recover? ==>
          || (pc == Judge(pc'.expected) && !v.ownerAlive && !Compared(pc'.stage))
          || (pc.Removing? && pc.why.Recover? && pc.expected == pc'.expected
              && (Compared(pc'.stage) ==> Compared(pc.stage) || Carries(v.lock) == Some(pc'.expected))))
    && (pc'.Removing? && !pc'.why.Recover? ==>
          pc'.expected == v.k.token || (pc.Removing? && !pc.why.Recover? && pc'.expected == pc.expected))
  }

  predicate MarkerFacts(v: View, e: Effect) {
    var pc, pc' := v.k.pc, e.k.pc;
    && (Acquired(pc) ==> Acquired(pc') && e.k.token == v.k.token)
    && (if pc'.ReadyRecheck? && e.marker != v.marker then
          Carries(e.marker) == Some(v.k.token) && Acquired(pc) && Owns(pc)
        else
          (e.marker == v.marker && (Acquired(pc') && Owns(pc') ==> Acquired(pc) && Owns(pc)))
          || (e.marker.None? && Owns(pc)))
    && (pc'.ReadyRecheck? ==> pc.ReadyRename? && Carries(e.marker) == Some(v.k.token) && e.k.token == v.k.token)
  }

  lemma LocalTokens(v: View, error: bool, nonce: nat)
    ensures TokenFacts(v, Local(v, error, nonce), nonce)
  {}

  lemma LocalGuard(v: View, error: bool, nonce: nat)
    ensures GuardFacts(v, Local(v, error, nonce))
  {}

  lemma LocalLock(v: View, error: bool, nonce: nat)
    ensures LockFacts(v, Local(v, error, nonce))
  {}

  lemma LocalRemoval(v: View, error: bool, nonce: nat)
    ensures RemovalFacts(v, Local(v, error, nonce))
  {}

  lemma LocalMarker(v: View, error: bool, nonce: nat)
    ensures MarkerFacts(v, Local(v, error, nonce))
  {}

  lemma CommitKeepsTokens(s: State, c: CallId, e: Effect, nonce: nat)
    requires Inv(s) && Live(s, c) && TokenFacts(See(s, c, nonce), e, nonce)
    ensures TokensUnique(Commit(s, c, e))
  {}

  lemma CommitKeepsGuard(s: State, c: CallId, e: Effect, nonce: nat)
    requires Inv(s) && Live(s, c) && GuardFacts(See(s, c, nonce), e)
    ensures GuardInv(Commit(s, c, e))
  {}

  lemma CommitKeepsLock(s: State, c: CallId, e: Effect, nonce: nat)
    requires Inv(s) && Live(s, c) && LockFacts(See(s, c, nonce), e) && TokenFacts(See(s, c, nonce), e, nonce)
    ensures LockInv(Commit(s, c, e))
  {}

  lemma CommitKeepsRemoval(s: State, c: CallId, e: Effect, nonce: nat)
    requires Inv(s) && Live(s, c) && LockFacts(See(s, c, nonce), e) && TokenFacts(See(s, c, nonce), e, nonce)
    requires RemovalFacts(See(s, c, nonce), e)
    ensures RemovalInv(Commit(s, c, e))
  {}

  lemma CommitKeepsMarker(s: State, c: CallId, e: Effect, nonce: nat)
    requires Inv(s) && Live(s, c) && LockFacts(See(s, c, nonce), e) && TokenFacts(See(s, c, nonce), e, nonce)
    requires MarkerFacts(See(s, c, nonce), e)
    ensures MarkerInv(Commit(s, c, e))
  {}

  ghost predicate LocalFacts(v: View, e: Effect, nonce: nat) {
    TokenFacts(v, e, nonce) && GuardFacts(v, e) && LockFacts(v, e) && RemovalFacts(v, e) && MarkerFacts(v, e)
  }

  lemma LocalKeepsFacts(v: View, error: bool, nonce: nat)
    ensures LocalFacts(v, Local(v, error, nonce), nonce)
  {
    LocalTokens(v, error, nonce);
    LocalGuard(v, error, nonce);
    LocalLock(v, error, nonce);
    LocalRemoval(v, error, nonce);
    LocalMarker(v, error, nonce);
  }

  lemma CommitKeepsInv(s: State, c: CallId, e: Effect, nonce: nat)
    requires Inv(s) && Live(s, c) && LocalFacts(See(s, c, nonce), e, nonce)
    ensures Inv(Commit(s, c, e))
  {
    CommitKeepsTokens(s, c, e, nonce);
    CommitKeepsGuard(s, c, e, nonce);
    CommitKeepsLock(s, c, e, nonce);
    CommitKeepsRemoval(s, c, e, nonce);
    CommitKeepsMarker(s, c, e, nonce);
  }

  lemma StartKeepsInv(s: State, c: CallId, process: ProcessId, nonce: Token)
    requires Inv(s)
    ensures Inv(Apply(s, Start(c, process, nonce)))
  {}

  lemma CrashKeepsInv(s: State, process: ProcessId)
    requires Inv(s)
    ensures Inv(Apply(s, Crash(process)))
  {}

  lemma ObserveKeepsInv(s: State, o: nat)
    requires Inv(s)
    ensures Inv(Apply(s, Observe(o)))
  {}

  lemma StepKeepsInv(s: State, step: Step)
    requires Inv(s)
    ensures Inv(Apply(s, step))
  {
    match step
    case Start(c, process, nonce) => StartKeepsInv(s, c, process, nonce);
    case Act(c, error, nonce) =>
      if Live(s, c) {
        LocalKeepsFacts(See(s, c, nonce), error, nonce);
        CommitKeepsInv(s, c, Local(See(s, c, nonce), error, nonce), nonce);
      }
    case MarkReady(c) =>
      if Live(s, c) && s.calls[c].pc.Held? {
        CommitKeepsInv(s, c, Go(See(s, c, 0), ReadyCheck), 0);
      }
    case ReleaseLock(c) =>
      if Live(s, c) && s.calls[c].pc.Held? {
        CommitKeepsInv(s, c, Go(See(s, c, 0), ReleaseRead), 0);
      }
    case Crash(process) => CrashKeepsInv(s, process);
    case Observe(o) => ObserveKeepsInv(s, o);
  }

  lemma {:induction false} Invariant(steps: seq<Step>)
    ensures Inv(After(steps))
  {
    if steps != [] {
      Invariant(steps[..|steps| - 1]);
      StepKeepsInv(After(steps[..|steps| - 1]), steps[|steps| - 1]);
    }
  }
}
