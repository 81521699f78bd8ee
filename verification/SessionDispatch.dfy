/** `OpenCodeSessionAdapter.dispatch` against an OpenCode server, under every interleaving of
    concurrent and retried calls. The server handles each request atomically; any request may
    fail, and a failed create or prompt may or may not have taken effect, but never takes effect
    after its failure was reported. */
module SessionDispatch {
  import opened Prelude

  type AdapterId = nat
  type CallerId = nat
  type OpId = nat
  type SessionId = nat

  /** The pair of workspace and idempotency key: it determines both the map key of the running
      dispatches and the session title within the workspace. */
  type Key = nat

  /** The request that a running `#dispatchOnce` is waiting for, or its outcome. */
  datatype Pc =
    | Listing
    | Creating
    | Reading(session: SessionId)
    | Prompting(session: SessionId)
    | Done(session: SessionId)
    | Failed

  datatype Op = Op(adapter: AdapterId, key: Key, pc: Pc)

  datatype Caller = Waiting(op: OpId, initiator: bool) | Returned(key: Key, session: SessionId) | Threw

  datatype Session = Session(key: Key, prompts: nat)

  datatype State = State(
    sessions: map<SessionId, Session>,
    dispatches: map<(AdapterId, Key), OpId>,
    ops: map<OpId, Op>,
    callers: map<CallerId, Caller>)

  /** The server starts without a session of any of these titles. */
  const Init := State(map[], map[], map[], map[])

  /** `applied` tells whether a failing request took effect; `id` is the session the listing puts
      first, or the id of a new session. */
  datatype Step =
    | Call(adapter: AdapterId, caller: CallerId, key: Key, op: OpId)
    | Serve(op: OpId, error: bool, applied: bool, id: SessionId)
    | Resume(caller: CallerId)

  predicate Settled(pc: Pc) {
    pc.Done? || pc.Failed?
  }

  predicate HasSession(pc: Pc) {
    pc.Reading? || pc.Prompting? || pc.Done?
  }

  function WithPc(s: State, op: OpId, pc: Pc): State
    requires op in s.ops
  {
    s.(ops := s.ops[op := s.ops[op].(pc := pc)])
  }

  predicate Matches(s: State, id: SessionId, key: Key) {
    id in s.sessions && s.sessions[id].key == key
  }

  predicate AnyMatch(s: State, key: Key) {
    exists id :: id in s.sessions && s.sessions[id].key == key
  }

  function ServeOp(s: State, op: OpId, error: bool, applied: bool, id: SessionId): State
    requires op in s.ops
  {
    var o := s.ops[op];
    match o.pc
    case Listing =>
      if error then WithPc(s, op, Failed)
      else if Matches(s, id, o.key) then WithPc(s, op, Reading(id))
      else if AnyMatch(s, o.key) then s
      else WithPc(s, op, Creating)
    case Creating =>
      if id in s.sessions then s
      else
        var s' := if error && !applied then s else s.(sessions := s.sessions[id := Session(o.key, 0)]);
        WithPc(s', op, if error then Failed else Reading(id))
    case Reading(session) =>
      if error || session !in s.sessions then WithPc(s, op, Failed)
      else WithPc(s, op, if s.sessions[session].prompts > 0 then Done(session) else Prompting(session))
    case Prompting(session) =>
      if session !in s.sessions then WithPc(s, op, Failed)
      else
        var prompted := Session(s.sessions[session].key, s.sessions[session].prompts + 1);
        var s' := if error && !applied then s else s.(sessions := s.sessions[session := prompted]);
        WithPc(s', op, if error then Failed else Done(session))
    case Done(_) => s
    case Failed => s
  }

  /** A caller goes on once the operation it awaits has settled; the one that started it then
      removes the map entry if it is still its own. */
  function ResumeCaller(s: State, caller: CallerId): State
    requires caller in s.callers && s.callers[caller].Waiting? && s.callers[caller].op in s.ops
  {
    var w := s.callers[caller];
    var o := s.ops[w.op];
    if !Settled(o.pc) then s
    else
      var s' := s.(callers := s.callers[caller := if o.pc.Done? then Returned(o.key, o.pc.session) else Threw]);
      var slot := (o.adapter, o.key);
      if w.initiator && slot in s.dispatches && s.dispatches[slot] == w.op
      then s'.(dispatches := s.dispatches - {slot}) else s'
  }

  function Apply(s: State, step: Step): State {
    match step
    case Call(adapter, caller, key, op) =>
      if caller in s.callers then s
      else if (adapter, key) in s.dispatches then
        s.(callers := s.callers[caller := Waiting(s.dispatches[(adapter, key)], false)])
      else if op in s.ops then s
      else
        s.(callers := s.callers[caller := Waiting(op, true)],
           ops := s.ops[op := Op(adapter, key, Listing)],
           dispatches := s.dispatches[(adapter, key) := op])
    case Serve(op, error, applied, id) => if op in s.ops then ServeOp(s, op, error, applied, id) else s
    case Resume(caller) =>
      if caller in s.callers && s.callers[caller].Waiting? && s.callers[caller].op in s.ops
      then ResumeCaller(s, caller) else s
  }

  function After(steps: seq<Step>): State {
    if steps == [] then Init else Apply(After(steps[..|steps| - 1]), steps[|steps| - 1])
  }

  /** All calls for the key go through one adapter instance. */
  predicate OneAdapter(steps: seq<Step>, key: Key, adapter: AdapterId) {
    forall i :: 0 <= i < |steps| && steps[i].Call? && steps[i].key == key ==> steps[i].adapter == adapter
  }

  predicate Succeeded(s: State, caller: CallerId, key: Key) {
    caller in s.callers && s.callers[caller].Returned? && s.callers[caller].key == key
  }

  /** Structure that every run keeps, for any number of adapters. */
  ghost predicate Wired(s: State) {
    && (forall op :: op in s.ops && !Settled(s.ops[op].pc) ==>
          (s.ops[op].adapter, s.ops[op].key) in s.dispatches && s.dispatches[(s.ops[op].adapter, s.ops[op].key)] == op)
    && (forall slot :: slot in s.dispatches ==>
          s.dispatches[slot] in s.ops
          && s.ops[s.dispatches[slot]].adapter == slot.0 && s.ops[s.dispatches[slot]].key == slot.1)
    && (forall op :: op in s.ops && HasSession(s.ops[op].pc) ==> Matches(s, s.ops[op].pc.session, s.ops[op].key))
  }

  /** What holds of one key while all its operations belong to one adapter. */
  ghost predicate KeyInv(s: State, key: Key, adapter: AdapterId) {
    && (forall op :: op in s.ops && s.ops[op].key == key ==> s.ops[op].adapter == adapter)
    && (forall a, b :: Matches(s, a, key) && Matches(s, b, key) ==> a == b)
    && (forall a :: Matches(s, a, key) ==> s.sessions[a].prompts <= 1)
    && (forall op :: op in s.ops && s.ops[op].key == key ==>
          match s.ops[op].pc
          case Creating => forall a :: !Matches(s, a, key)
          case Prompting(a) => Matches(s, a, key) && s.sessions[a].prompts == 0
          case Done(a) => Matches(s, a, key) && s.sessions[a].prompts == 1
          case _ => true)
    && (forall c :: Succeeded(s, c, key) ==>
          Matches(s, s.callers[c].session, key) && s.sessions[s.callers[c].session].prompts == 1)
  }

  /** Only the operation has gone on, and no session was lost. */
  ghost predicate Moved(s: State, s': State, op: OpId)
    requires op in s.ops
  {
    && s'.ops.Keys == s.ops.Keys && s'.dispatches == s.dispatches
    && (forall o :: o in s.ops && o != op ==> s'.ops[o] == s.ops[o])
    && s'.ops[op] == s.ops[op].(pc := s'.ops[op].pc)
    && (forall a, k :: Matches(s, a, k) ==> Matches(s', a, k))
  }

  lemma MovedKeepsWired(s: State, s': State, op: OpId)
    requires Wired(s) && op in s.ops && Moved(s, s', op)
    requires Settled(s.ops[op].pc) ==> Settled(s'.ops[op].pc)
    requires HasSession(s'.ops[op].pc) ==> Matches(s', s'.ops[op].pc.session, s.ops[op].key)
    ensures Wired(s')
  {}

  lemma CreateKeepsWired(s: State, op: OpId, error: bool, applied: bool, id: SessionId)
    requires Wired(s) && op in s.ops && s.ops[op].pc.Creating?
    ensures Wired(ServeOp(s, op, error, applied, id))
  {
    MovedKeepsWired(s, ServeOp(s, op, error, applied, id), op);
  }

  lemma PromptKeepsWired(s: State, op: OpId, error: bool, applied: bool, id: SessionId)
    requires Wired(s) && op in s.ops && s.ops[op].pc.Prompting?
    ensures Wired(ServeOp(s, op, error, applied, id))
  {
    MovedKeepsWired(s, ServeOp(s, op, error, applied, id), op);
  }

  lemma WithPcKeepsWired(s: State, op: OpId, pc: Pc)
    requires Wired(s) && op in s.ops && !Settled(s.ops[op].pc)
    requires HasSession(pc) ==> Matches(s, pc.session, s.ops[op].key)
    ensures Wired(WithPc(s, op, pc))
  {
    MovedKeepsWired(s, WithPc(s, op, pc), op);
  }

  lemma ReadKeepsWired(s: State, op: OpId, error: bool, applied: bool, id: SessionId)
    requires Wired(s) && op in s.ops && !s.ops[op].pc.Creating? && !s.ops[op].pc.Prompting?
    ensures Wired(ServeOp(s, op, error, applied, id))
  {
    var s' := ServeOp(s, op, error, applied, id);
    if s' != s {
      WithPcKeepsWired(s, op, s'.ops[op].pc);
    }
  }

  lemma ServeKeepsWired(s: State, op: OpId, error: bool, applied: bool, id: SessionId)
    requires Wired(s) && op in s.ops
    ensures Wired(ServeOp(s, op, error, applied, id))
  {
    match s.ops[op].pc
    case Creating => CreateKeepsWired(s, op, error, applied, id);
    case Prompting(_) => PromptKeepsWired(s, op, error, applied, id);
    case _ => ReadKeepsWired(s, op, error, applied, id);
  }

  lemma ResumeKeepsWired(s: State, caller: CallerId)
    requires Wired(s) && caller in s.callers && s.callers[caller].Waiting? && s.callers[caller].op in s.ops
    ensures Wired(ResumeCaller(s, caller))
  {
    forall a, k | Matches(s, a, k) ensures Matches(ResumeCaller(s, caller), a, k) {}
  }

  lemma StepKeepsWired(s: State, step: Step)
    requires Wired(s)
    ensures Wired(Apply(s, step))
  {
    match step
    case Call(adapter, caller, key, op) =>
      forall a, k | Matches(s, a, k) ensures Matches(Apply(s, step), a, k) {}
    case Serve(op, error, applied, id) =>
      if op in s.ops {
        ServeKeepsWired(s, op, error, applied, id);
      }
    case Resume(caller) =>
      if caller in s.callers && s.callers[caller].Waiting? && s.callers[caller].op in s.ops {
        ResumeKeepsWired(s, caller);
      }
  }

  /** Two unsettled operations of one key are the same operation. */
  lemma OneRunning(s: State, key: Key, adapter: AdapterId, a: OpId, b: OpId)
    requires Wired(s) && KeyInv(s, key, adapter)
    requires a in s.ops && b in s.ops && s.ops[a].key == key && s.ops[b].key == key
    requires !Settled(s.ops[a].pc) && !Settled(s.ops[b].pc)
    ensures a == b
  {
    assert (s.ops[a].adapter, s.ops[a].key) == (s.ops[b].adapter, s.ops[b].key);
  }

  lemma CreateKeepsKey(s: State, op: OpId, error: bool, applied: bool, id: SessionId, key: Key, adapter: AdapterId)
    requires Wired(s) && KeyInv(s, key, adapter) && op in s.ops && s.ops[op].pc.Creating?
    ensures KeyInv(ServeOp(s, op, error, applied, id), key, adapter)
  {
    var s' := ServeOp(s, op, error, applied, id);
    assert forall a :: Matches(s', a, key) ==> Matches(s, a, key) || (a == id && s.ops[op].key == key);
    if s.ops[op].key == key {
      forall o | o in s.ops && s.ops[o].key == key && !Settled(s.ops[o].pc) ensures o == op {
        OneRunning(s, key, adapter, o, op);
      }
    }
  }

  lemma PromptKeepsKey(s: State, op: OpId, error: bool, applied: bool, id: SessionId, key: Key, adapter: AdapterId)
    requires Wired(s) && KeyInv(s, key, adapter) && op in s.ops && s.ops[op].pc.Prompting?
    ensures KeyInv(ServeOp(s, op, error, applied, id), key, adapter)
  {
    var s' := ServeOp(s, op, error, applied, id);
    assert Matches(s, s.ops[op].pc.session, s.ops[op].key);
    assert forall a :: Matches(s', a, key) <==> Matches(s, a, key);
    if s.ops[op].key == key {
      forall o | o in s.ops && s.ops[o].key == key && !Settled(s.ops[o].pc) ensures o == op {
        OneRunning(s, key, adapter, o, op);
      }
    }
  }

  lemma ReadKeepsKey(s: State, op: OpId, error: bool, applied: bool, id: SessionId, key: Key, adapter: AdapterId)
    requires Wired(s) && KeyInv(s, key, adapter) && op in s.ops && !s.ops[op].pc.Creating? && !s.ops[op].pc.Prompting?
    ensures KeyInv(ServeOp(s, op, error, applied, id), key, adapter)
  {
    var s' := ServeOp(s, op, error, applied, id);
    assert forall a :: Matches(s', a, key) <==> Matches(s, a, key);
    if s.ops[op].pc.Reading? {
      assert Matches(s, s.ops[op].pc.session, s.ops[op].key);
    }
  }

  lemma ServeKeepsKey(s: State, op: OpId, error: bool, applied: bool, id: SessionId, key: Key, adapter: AdapterId)
    requires Wired(s) && KeyInv(s, key, adapter) && op in s.ops
    ensures KeyInv(ServeOp(s, op, error, applied, id), key, adapter)
  {
    match s.ops[op].pc
    case Creating => CreateKeepsKey(s, op, error, applied, id, key, adapter);
    case Prompting(_) => PromptKeepsKey(s, op, error, applied, id, key, adapter);
    case _ => ReadKeepsKey(s, op, error, applied, id, key, adapter);
  }

  lemma CallKeepsKey(s: State, step: Step, key: Key, adapter: AdapterId)
    requires Wired(s) && KeyInv(s, key, adapter) && step.Call?
    requires step.key == key ==> step.adapter == adapter
    ensures KeyInv(Apply(s, step), key, adapter)
  {
    assert forall a :: Matches(Apply(s, step), a, key) <==> Matches(s, a, key);
  }

  lemma ResumeKeepsKey(s: State, caller: CallerId, key: Key, adapter: AdapterId)
    requires Wired(s) && KeyInv(s, key, adapter)
    ensures KeyInv(Apply(s, Resume(caller)), key, adapter)
  {
    assert forall a :: Matches(Apply(s, Resume(caller)), a, key) <==> Matches(s, a, key);
  }

  lemma StepKeepsKey(s: State, step: Step, key: Key, adapter: AdapterId)
    requires Wired(s) && KeyInv(s, key, adapter)
    requires step.Call? && step.key == key ==> step.adapter == adapter
    ensures KeyInv(Apply(s, step), key, adapter)
  {
    match step
    case Call(_, _, _, _) => CallKeepsKey(s, step, key, adapter);
    case Serve(op, error, applied, id) =>
      if op in s.ops {
        ServeKeepsKey(s, op, error, applied, id, key, adapter);
      }
    case Resume(caller) => ResumeKeepsKey(s, caller, key, adapter);
  }

  lemma {:induction false} Invariant(steps: seq<Step>, key: Key, adapter: AdapterId)
    requires OneAdapter(steps, key, adapter)
    ensures Wired(After(steps)) && KeyInv(After(steps), key, adapter)
  {
    if steps != [] {
      var n := |steps| - 1;
      Invariant(steps[..n], key, adapter);
      StepKeepsWired(After(steps[..n]), steps[n]);
      StepKeepsKey(After(steps[..n]), steps[n], key, adapter);
    }
  }
}
