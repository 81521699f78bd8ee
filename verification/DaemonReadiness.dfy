/** What the readiness marker of the workspace lock says, and what the inspector may report. */
module DaemonReadiness {
  import opened Prelude
  import opened LockFiles
  import opened DaemonLock

  /** The step is the rename with which the call holding `token` marks itself ready. */
  ghost predicate MarksReady(s: State, step: Step, token: Token) {
    && step.Act? && !step.error
    && Live(s, step.c)
    && s.calls[step.c].pc.ReadyRename?
    && s.calls[step.c].token == token
    && Carries(s.lock) == Some(token)
  }

  lemma NewlyMarked(s: State, step: Step, token: Token)
    requires Inv(s) && token !in s.marked && token in Apply(s, step).marked
    ensures MarksReady(s, step, token)
  {
    LocalMarker(See(s, step.c, step.nonce), step.error, step.nonce);
  }

  /** Every marked token was marked by its owner, while that owner's record was in the lock. */
  lemma {:induction false} MarkedByOwner(steps: seq<Step>, token: Token)
    requires token in After(steps).marked
    ensures exists i | 0 <= i < |steps| :: MarksReady(After(steps[..i]), steps[i], token)
  {
    var n := |steps| - 1;
    var before := After(steps[..n]);
    Invariant(steps[..n]);
    var step := steps[n];
    if token in before.marked {
      MarkedByOwner(steps[..n], token);
      var i :| 0 <= i < n && MarksReady(After(steps[..n][..i]), steps[..n][i], token);
      assert steps[..n][..i] == steps[..i];
    } else {
      NewlyMarked(before, step, token);
      assert MarksReady(After(steps[..n]), steps[n], token);
    }
  }

  /** When the lock and the readiness marker carry the same token, the call that drew it has
      completed its acquisition and has executed `markReady`. */
  lemma MatchingMarkerMeansReady(steps: seq<Step>)
    requires var s := After(steps); s.lock.Some? && Carries(s.marker) == Carries(s.lock)
    ensures var s := After(steps);
            && (exists c :: c in s.calls && s.calls[c].token == s.lock.value.token && Acquired(s.calls[c].pc))
            && exists i | 0 <= i < |steps| :: MarksReady(After(steps[..i]), steps[i], s.lock.value.token)
  {
    Invariant(steps);
    var s := After(steps);
    var c := s.issued[s.lock.value.token];
    assert s.calls[c].token == s.lock.value.token && Acquired(s.calls[c].pc);
    MarkedByOwner(steps, s.lock.value.token);
  }

  /** Once an acquisition has succeeded, and until the lock is released or its process dies, the
      marker is absent or the owner's own: a predecessor's marker never stands in for it. */
  lemma NoForeignMarker(steps: seq<Step>, c: CallId)
    requires Holds(After(steps), c) && Acquired(After(steps).calls[c].pc)
    ensures var s := After(steps); s.marker.None? || s.marker.value.token == s.calls[c].token
  {
    Invariant(steps);
  }

  /** No step of another call, no crash and no inspection changes a live owner's marker. */
  lemma OwnMarkerIsSafe(steps: seq<Step>, step: Step, c: CallId)
    requires Holds(After(steps), c) && Carries(After(steps).marker) == Some(After(steps).calls[c].token)
    requires step.Act? ==> step.c != c
    ensures Apply(After(steps), step).marker == After(steps).marker
  {
    Invariant(steps);
    var s := After(steps);
    if step.Act? && Live(s, step.c) {
      LocalMarker(See(s, step.c, step.nonce), step.error, step.nonce);
    }
  }

  /** The inspector reports a token as ready only if the owner of that very token marked it. */
  lemma ReportedReadyIsReady(steps: seq<Step>, o: nat)
    requires var s := After(steps); o in s.observers && s.observers[o].Report? && s.observers[o].ready
    ensures exists i | 0 <= i < |steps| :: MarksReady(After(steps[..i]), steps[i], After(steps).observers[o].token)
  {
    Invariant(steps);
    MarkedByOwner(steps, After(steps).observers[o].token);
  }
}
