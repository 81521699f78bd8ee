/** What callers of `dispatch` may rely on, and what they may not. */
module SessionUniqueness {
  import opened Prelude
  import opened SessionDispatch

  /** At most one session for the key, at most one user prompt in it, and one reference for all
      successful calls. */
  ghost predicate Unique(s: State, key: Key) {
    && (forall a, b :: Matches(s, a, key) && Matches(s, b, key) ==> a == b)
    && (forall a :: Matches(s, a, key) ==> s.sessions[a].prompts <= 1)
    && (forall c, d :: Succeeded(s, c, key) && Succeeded(s, d, key) ==> s.callers[c].session == s.callers[d].session)
  }

  /** However the calls for a key interleave, fail and are retried, there is at most one session
      for it, that session holds at most one user prompt, and all successful calls return it, with
      its prompt sent. */
  lemma AtMostOnePrompt(steps: seq<Step>, key: Key, adapter: AdapterId)
    requires OneAdapter(steps, key, adapter)
    ensures var s := After(steps);
            && Unique(s, key)
            && (forall c :: Succeeded(s, c, key) ==>
                  Matches(s, s.callers[c].session, key) && s.sessions[s.callers[c].session].prompts == 1)
  {
    Invariant(steps, key, adapter);
  }

  // ---- the single adapter instance is needed ----

  /** All calls for the key go through the given adapter instances. */
  predicate Through(steps: seq<Step>, key: Key, adapters: set<AdapterId>) {
    forall i :: 0 <= i < |steps| && steps[i].Call? && steps[i].key == key ==> steps[i].adapter in adapters
  }

  /** How far one of the two operations is once it has been served `n` times. */
  function RacePc(session: SessionId, n: nat): Pc {
    if n == 0 then Listing
    else if n == 1 then Creating
    else if n == 2 then Reading(session)
    else if n == 3 then Prompting(session)
    else Done(session)
  }

  /** The state when both calls have been made and the two operations have been served `m` and
      `n` times. */
  function RaceState(key: Key, a: AdapterId, b: AdapterId, m: nat, n: nat): State {
    var first: map<SessionId, Session> := if m >= 2 then map[0 := Session(key, if m >= 4 then 1 else 0)] else map[];
    State(if n >= 2 then first[1 := Session(key, if n >= 4 then 1 else 0)] else first,
          map[(a, key) := 0, (b, key) := 1],
          map[0 := Op(a, key, RacePc(0, m)), 1 := Op(b, key, RacePc(1, n))],
          map[0 := Waiting(0, true), 1 := Waiting(1, true)])
  }

  lemma FirstServed(key: Key, a: AdapterId, b: AdapterId, n: nat)
    requires a != b && n < 4
    ensures Apply(RaceState(key, a, b, n, n), Serve(0, false, true, 0)) == RaceState(key, a, b, n + 1, n)
  {
    assert !AnyMatch(RaceState(key, a, b, 0, 0), key);
    assert RaceState(key, a, b, n, n).ops[0 := Op(a, key, RacePc(0, n + 1))] == RaceState(key, a, b, n + 1, n).ops;
  }

  lemma SecondServed(key: Key, a: AdapterId, b: AdapterId, n: nat)
    requires a != b && n < 4
    ensures Apply(RaceState(key, a, b, n + 1, n), Serve(1, false, true, 1)) == RaceState(key, a, b, n + 1, n + 1)
  {
    assert !AnyMatch(RaceState(key, a, b, 1, 0), key);
    assert RaceState(key, a, b, n + 1, n).ops[1 := Op(b, key, RacePc(1, n + 1))]
        == RaceState(key, a, b, n + 1, n + 1).ops;
  }

  lemma OneMore(steps: seq<Step>, step: Step, before: State, after: State) returns (longer: seq<Step>)
    requires After(steps) == before && Apply(before, step) == after
    ensures longer == steps + [step] && After(longer) == after
  {
    longer := steps + [step];
    assert longer[..|longer| - 1] == steps;
  }

  /** Both adapters list before either creates, and from then on take turns. */
  lemma {:induction false} Race(key: Key, a: AdapterId, b: AdapterId, n: nat) returns (steps: seq<Step>)
    requires a != b && n <= 4
    ensures Through(steps, key, {a, b}) && After(steps) == RaceState(key, a, b, n, n)
  {
    if n == 0 {
      var first := map[0 := Waiting(0, true)];
      var one := State(map[], map[(a, key) := 0], map[0 := Op(a, key, Listing)], first);
      steps := OneMore([], Call(a, 0, key, 0), Init, one);
      steps := OneMore(steps, Call(b, 1, key, 1), one, RaceState(key, a, b, 0, 0));
    } else {
      steps := Race(key, a, b, n - 1);
      FirstServed(key, a, b, n - 1);
      SecondServed(key, a, b, n - 1);
      steps := OneMore(steps, Serve(0, false, true, 0),
        RaceState(key, a, b, n - 1, n - 1), RaceState(key, a, b, n, n - 1));
      steps := OneMore(steps, Serve(1, false, true, 1), RaceState(key, a, b, n, n - 1), RaceState(key, a, b, n, n));
    }
  }

  /** Both operations are done, and the first `n` callers have gone on. */
  function Returning(key: Key, a: AdapterId, b: AdapterId, n: nat): State {
    RaceState(key, a, b, 4, 4).(
      dispatches := if n == 0 then map[(a, key) := 0, (b, key) := 1] else if n == 1 then map[(b, key) := 1] else map[],
      callers := map[0 := if n > 0 then Returned(key, 0) else Waiting(0, true),
                     1 := if n > 1 then Returned(key, 1) else Waiting(1, true)])
  }

  lemma Resumed(key: Key, a: AdapterId, b: AdapterId, n: nat)
    requires a != b && n < 2
    ensures Apply(Returning(key, a, b, n), Resume(n)) == Returning(key, a, b, n + 1)
  {}

  /** Any two adapter instances can duplicate any key: both calls succeed, each with a session of
      its own that holds the prompt. */
  lemma TwoAdaptersDuplicate(key: Key, a: AdapterId, b: AdapterId) returns (steps: seq<Step>)
    requires a != b
    ensures Through(steps, key, {a, b})
    ensures var s := After(steps);
      && s.sessions == map[0 := Session(key, 1), 1 := Session(key, 1)]
      && s.callers == map[0 := Returned(key, 0), 1 := Returned(key, 1)]
  {
    steps := Race(key, a, b, 4);
    Resumed(key, a, b, 0);
    Resumed(key, a, b, 1);
    steps := OneMore(steps, Resume(0), Returning(key, a, b, 0), Returning(key, a, b, 1));
    steps := OneMore(steps, Resume(1), Returning(key, a, b, 1), Returning(key, a, b, 2));
  }

  lemma SingleAdapter(steps: seq<Step>, key: Key, adapters: set<AdapterId>)
    requires Through(steps, key, adapters) && |adapters| <= 1
    ensures Unique(After(steps), key)
  {
    var adapter := if adapters == {} then 0 else var a :| a in adapters; a;
    assert |adapters - {adapter}| == 0;
    forall a | a in adapters ensures a == adapter {
      assert a in adapters - {adapter} || a == adapter;
    }
    AtMostOnePrompt(steps, key, adapter);
  }

  /** The calls for a key keep to one session, one prompt and one reference in every run exactly
      when they may go through at most one adapter instance. */
  lemma UniqueExactlyWhen(key: Key, adapters: set<AdapterId>)
    ensures (forall steps :: Through(steps, key, adapters) ==> Unique(After(steps), key)) <==> |adapters| <= 1
  {
    if |adapters| <= 1 {
      forall steps | Through(steps, key, adapters) ensures Unique(After(steps), key) {
        SingleAdapter(steps, key, adapters);
      }
    } else {
      var a :| a in adapters;
      assert |adapters - {a}| == |adapters| - 1;
      var b :| b in adapters - {a};
      var steps := TwoAdaptersDuplicate(key, a, b);
      assert Matches(After(steps), 0, key) && Matches(After(steps), 1, key);
      assert Through(steps, key, adapters) && !Unique(After(steps), key);
    }
  }
}
