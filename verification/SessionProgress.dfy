/** What a call to `dispatch` comes to: alone, by joining a running dispatch, or when a request
    fails. */
module SessionProgress {
  import opened Prelude
  import opened SessionDispatch

  function Run(s: State, steps: seq<Step>): State
    decreases |steps|
  {
    if steps == [] then s else Run(Apply(s, steps[0]), steps[1..])
  }

  lemma {:induction false} AfterJoins(steps: seq<Step>, more: seq<Step>)
    ensures After(steps + more) == Run(After(steps), more)
    decreases |more|
  {
    if more == [] {
      assert steps + more == steps;
    } else {
      var longer := steps + [more[0]];
      assert longer[..|longer| - 1] == steps && steps + more == longer + more[1..];
      AfterJoins(longer, more[1..]);
    }
  }

  // ---- a call of its own ----

  /** A call and its requests, none of which fails; `id` is the session the listing puts first, or
      the id of a new session. Requests beyond the last one needed do nothing. */
  function Alone(adapter: AdapterId, caller: CallerId, key: Key, op: OpId, id: SessionId): seq<Step> {
    var serve := Serve(op, false, true, id);
    [Call(adapter, caller, key, op), serve, serve, serve, serve, Resume(caller)]
  }

  /** No dispatch runs for the key, caller and operation are new, and the server answers as it
      must: with a session of that title, if there is one. */
  predicate CanCall(s: State, adapter: AdapterId, caller: CallerId, key: Key, op: OpId, id: SessionId) {
    && (adapter, key) !in s.dispatches && caller !in s.callers && op !in s.ops
    && (if AnyMatch(s, key) then Matches(s, id, key) else id !in s.sessions)
  }

  predicate Prompted(s: State, id: SessionId, key: Key) {
    Matches(s, id, key) && s.sessions[id].prompts > 0
  }

  /** The state once the operation has been served `n` times. */
  function Served(s: State, adapter: AdapterId, caller: CallerId, key: Key, op: OpId, pc: Pc, session: Option<Session>,
                  id: SessionId): State
  {
    s.(sessions := if session.Some? then s.sessions[id := session.value] else s.sessions,
       dispatches := s.dispatches[(adapter, key) := op],
       ops := s.ops[op := Op(adapter, key, pc)],
       callers := s.callers[caller := Waiting(op, true)])
  }

  /** What the operation waits for after `n` requests, and the session it has then. */
  function Stage(s: State, key: Key, id: SessionId, n: nat): (Pc, Option<Session>) {
    if n == 0 then (Listing, None)
    else if Prompted(s, id, key) then (if n == 1 then Reading(id) else Done(id), None)
    else if Matches(s, id, key) then
      if n == 1 then (Reading(id), None)
      else if n == 2 then (Prompting(id), None)
      else (Done(id), Some(Session(key, 1)))
    else
      if n == 1 then (Creating, None)
      else if n == 2 then (Reading(id), Some(Session(key, 0)))
      else if n == 3 then (Prompting(id), Some(Session(key, 0)))
      else (Done(id), Some(Session(key, 1)))
  }

  lemma ServedOnce(s: State, adapter: AdapterId, caller: CallerId, key: Key, op: OpId, id: SessionId, n: nat)
    requires CanCall(s, adapter, caller, key, op, id) && n < 4
    ensures var before, after := Stage(s, key, id, n), Stage(s, key, id, n + 1);
      Apply(Served(s, adapter, caller, key, op, before.0, before.1, id), Serve(op, false, true, id))
        == Served(s, adapter, caller, key, op, after.0, after.1, id)
  {
    var before, after := Stage(s, key, id, n), Stage(s, key, id, n + 1);
    var t := Served(s, adapter, caller, key, op, before.0, before.1, id);
    var o, o' := Op(adapter, key, before.0), Op(adapter, key, after.0);
    assert s.ops[op := o][op := o'] == s.ops[op := o'];
    assert n == 0 ==> t.sessions == s.sessions && (AnyMatch(t, key) <==> AnyMatch(s, key));
  }

  lemma SixSteps(s: State, a: Step, b: Step, c: Step)
    ensures Run(s, [a, b, b, b, b, c]) == Apply(Apply(Apply(Apply(Apply(Apply(s, a), b), b), b), b), c)
  {
    var s1 := Apply(s, a);
    var s2 := Apply(s1, b);
    var s3 := Apply(s2, b);
    var s4 := Apply(s3, b);
    var s5 := Apply(s4, b);
    RunFirst(s, a, [b, b, b, b, c]);
    RunFirst(s1, b, [b, b, b, c]);
    RunFirst(s2, b, [b, b, c]);
    RunFirst(s3, b, [b, c]);
    RunFirst(s4, b, [c]);
    RunFirst(s5, c, []);
  }

  lemma RunFirst(s: State, step: Step, more: seq<Step>)
    ensures Run(s, [step] + more) == Run(Apply(s, step), more)
  {
    assert ([step] + more)[1..] == more;
  }

  /** When no dispatch for the key is running on the adapter, an undisturbed call none of whose
      requests fails returns a session of the key that holds its prompt: one that held it already
      is left as it is, one without gets its first prompt, and without any session one is created.
      Nothing else changes, and the next call starts afresh. */
  lemma UndisturbedCallReturns(
      s: State, adapter: AdapterId, caller: CallerId, key: Key, op: OpId, id: SessionId)
    requires CanCall(s, adapter, caller, key, op, id)
    ensures Run(s, Alone(adapter, caller, key, op, id)) == s.(
      sessions := if Prompted(s, id, key) then s.sessions else s.sessions[id := Session(key, 1)],
      ops := s.ops[op := Op(adapter, key, Done(id))],
      callers := s.callers[caller := Returned(key, id)])
  {
    var call, serve := Call(adapter, caller, key, op), Serve(op, false, true, id);
    SixSteps(s, call, serve, Resume(caller));
    assert Apply(s, call) == Served(s, adapter, caller, key, op, Listing, None, id);
    ServedOnce(s, adapter, caller, key, op, id, 0);
    ServedOnce(s, adapter, caller, key, op, id, 1);
    ServedOnce(s, adapter, caller, key, op, id, 2);
    ServedOnce(s, adapter, caller, key, op, id, 3);
    CallerGoesOn(s, adapter, caller, key, op, Stage(s, key, id, 4).1, id);
  }

  lemma CallerGoesOn(s: State, adapter: AdapterId, caller: CallerId, key: Key, op: OpId, session: Option<Session>,
                     id: SessionId)
    requires CanCall(s, adapter, caller, key, op, id)
    ensures Apply(Served(s, adapter, caller, key, op, Done(id), session, id), Resume(caller)) == s.(
      sessions := if session.Some? then s.sessions[id := session.value] else s.sessions,
      ops := s.ops[op := Op(adapter, key, Done(id))],
      callers := s.callers[caller := Returned(key, id)])
  {
    assert s.dispatches[(adapter, key) := op] - {(adapter, key)} == s.dispatches;
    assert s.callers[caller := Waiting(op, true)][caller := Returned(key, id)]
        == s.callers[caller := Returned(key, id)];
  }

  /** In particular a retry after a success returns the same session and sends nothing. */
  lemma RetryReturnsTheSame(
      steps: seq<Step>, adapter: AdapterId, caller: CallerId, key: Key, op: OpId, first: CallerId)
    requires OneAdapter(steps, key, adapter) && Succeeded(After(steps), first, key)
    requires CanCall(After(steps), adapter, caller, key, op, After(steps).callers[first].session)
    ensures var s := After(steps);
      var id := s.callers[first].session;
      var s' := After(steps + Alone(adapter, caller, key, op, id));
      s'.sessions == s.sessions && s'.callers == s.callers[caller := Returned(key, id)]
  {
    Invariant(steps, key, adapter);
    var s := After(steps);
    var id := s.callers[first].session;
    UndisturbedCallReturns(s, adapter, caller, key, op, id);
    AfterJoins(steps, Alone(adapter, caller, key, op, id));
    assert s.sessions[id := Session(key, 1)] == s.sessions;
  }

  // ---- joining, and what callers get ----

  /** What a caller that waits for the operation may have got by now. */
  predicate Outcome(s: State, caller: CallerId, op: OpId, initiator: bool) {
    && caller in s.callers && op in s.ops
    && match s.callers[caller]
       case Waiting(o, i) => o == op && i == initiator
       case Returned(key, session) => s.ops[op].pc == Done(session) && s.ops[op].key == key
       case Threw => s.ops[op].pc.Failed?
  }

  lemma StepKeepsOutcome(s: State, step: Step, caller: CallerId, op: OpId, initiator: bool)
    requires Outcome(s, caller, op, initiator)
    ensures Outcome(Apply(s, step), caller, op, initiator)
  {}

  /** A call for a key whose dispatch is running joins it and makes no request of its own. */
  lemma CallJoins(s: State, adapter: AdapterId, caller: CallerId, key: Key, op: OpId)
    requires Wired(s) && caller !in s.callers && (adapter, key) in s.dispatches
    ensures var s' := Apply(s, Call(adapter, caller, key, op));
      s' == s.(callers := s'.callers) && Outcome(s', caller, s.dispatches[(adapter, key)], false)
  {}

  /** Whoever waits for a dispatch, having started or joined it, gets that dispatch's outcome. */
  lemma {:induction false} CallersGetTheOutcome(
      s: State, more: seq<Step>, caller: CallerId, op: OpId, initiator: bool)
    requires Outcome(s, caller, op, initiator)
    ensures Outcome(Run(s, more), caller, op, initiator)
    decreases |more|
  {
    if more != [] {
      StepKeepsOutcome(s, more[0], caller, op, initiator);
      CallersGetTheOutcome(Apply(s, more[0]), more[1..], caller, op, initiator);
    }
  }

  /** And gets it as soon as it goes on. */
  lemma SettledCallersGoOn(s: State, caller: CallerId, op: OpId, initiator: bool)
    requires op in s.ops && caller in s.callers && s.callers[caller] == Waiting(op, initiator) && Settled(s.ops[op].pc)
    ensures var s' := Apply(s, Resume(caller));
      s'.callers[caller] == (if s.ops[op].pc.Done? then Returned(s.ops[op].key, s.ops[op].pc.session) else Threw)
  {}

  // ---- requests that fail ----

  /** A request that fails makes the call throw; whoever started it then frees the key for a retry.
      Only a creation or a prompt may have taken effect all the same. */
  lemma FailedRequestThrows(s: State, caller: CallerId, op: OpId, applied: bool, id: SessionId)
    requires Wired(s) && op in s.ops && caller in s.callers && s.callers[caller] == Waiting(op, true)
    requires !Settled(s.ops[op].pc) && (s.ops[op].pc.Creating? ==> id !in s.sessions)
    ensures var s' := Run(s, [Serve(op, true, applied, id), Resume(caller)]);
      var o := s.ops[op];
      && s'.ops == s.ops[op := o.(pc := Failed)]
      && s'.callers == s.callers[caller := Threw]
      && s'.dispatches == s.dispatches - {(o.adapter, o.key)}
      && s'.sessions ==
           if applied && o.pc.Creating? then s.sessions[id := Session(o.key, 0)]
           else if applied && o.pc.Prompting? then
             s.sessions[o.pc.session := Session(o.key, s.sessions[o.pc.session].prompts + 1)]
           else s.sessions
  {
    var serve, resume := Serve(op, true, applied, id), Resume(caller);
    RunFirst(s, serve, [resume]);
    RunFirst(Apply(s, serve), resume, []);
    assert [serve] + [resume] == [serve, resume] && [resume] + [] == [resume];
    RequestFails(s, op, applied, id);
  }

  lemma RequestFails(s: State, op: OpId, applied: bool, id: SessionId)
    requires Wired(s) && op in s.ops && !Settled(s.ops[op].pc) && (s.ops[op].pc.Creating? ==> id !in s.sessions)
    ensures var s', o := Apply(s, Serve(op, true, applied, id)), s.ops[op];
      s' == s.(ops := s.ops[op := o.(pc := Failed)], sessions := s'.sessions)
      && s'.sessions ==
           if applied && o.pc.Creating? then s.sessions[id := Session(o.key, 0)]
           else if applied && o.pc.Prompting? then
             s.sessions[o.pc.session := Session(o.key, s.sessions[o.pc.session].prompts + 1)]
           else s.sessions
  {
    assert HasSession(s.ops[op].pc) ==> Matches(s, s.ops[op].pc.session, s.ops[op].key);
  }

  // ---- the map of running dispatches ----

  /** Every entry of the map has a caller that will remove it. */
  ghost predicate Tended(s: State) {
    forall slot :: slot in s.dispatches ==>
      exists c :: c in s.callers && s.callers[c] == Waiting(s.dispatches[slot], true)
  }

  lemma StepKeepsTended(s: State, step: Step)
    requires Wired(s) && Tended(s)
    ensures Tended(Apply(s, step))
  {
    var s' := Apply(s, step);
    forall slot | slot in s'.dispatches
      ensures exists c :: c in s'.callers && s'.callers[c] == Waiting(s'.dispatches[slot], true)
    {
      if slot in s.dispatches && s.dispatches[slot] == s'.dispatches[slot] {
        var c :| c in s.callers && s.callers[c] == Waiting(s.dispatches[slot], true);
        assert c in s'.callers && s'.callers[c] == s.callers[c];
      } else {
        assert step.caller in s'.callers && s'.callers[step.caller] == Waiting(s'.dispatches[slot], true);
      }
    }
  }

  lemma {:induction false} WiredAndTended(steps: seq<Step>)
    ensures Wired(After(steps)) && Tended(After(steps))
  {
    if steps != [] {
      var n := |steps| - 1;
      WiredAndTended(steps[..n]);
      StepKeepsWired(After(steps[..n]), steps[n]);
      StepKeepsTended(After(steps[..n]), steps[n]);
    }
  }

  /** Once no caller waits the map is empty, so that every key can be dispatched again. */
  lemma NobodyWaitsMeansNoDispatch(steps: seq<Step>)
    requires forall c :: c in After(steps).callers ==> !After(steps).callers[c].Waiting?
    ensures After(steps).dispatches == map[]
  {
    WiredAndTended(steps);
  }
}
