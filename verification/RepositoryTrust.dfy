/** The plugin repository store: a list of repositories in a file, changed by one serialised
    update after the other. */
module RepositoryTrust {
  import opened Prelude
  import opened Base64

  type Id = string

  type Fingerprint = string

  datatype Trust = Untrusted | Trusted | Revoked

  datatype Repository = Repository(id: Id, kind: string, url: string, fingerprint: Option<Fingerprint>, trust: Trust,
                                   freshness: string, credential: string, refreshed: Option<int>)

  /** `root` is the base64 text of the root metadata. */
  datatype Stored = Stored(repository: Repository, root: Option<Text>)

  datatype File = Absent | File(initialized: bool, repositories: seq<Stored>)

  /** The digest of root metadata, and the built-in repository. */
  datatype World = World(digest: Bytes -> Fingerprint, official: Stored)

  datatype Step =
    | Add(id: Id, kind: string, url: string, credential: string)
    | GiveTrust(id: Id, fingerprint: Fingerprint, supplied: Option<Bytes>)
    | SetRoot(id: Id, fingerprint: Fingerprint, bytes: Bytes)
    | SetCredential(id: Id, credential: string)
    | SetRefresh(id: Id, freshness: string, refreshed: Option<int>)
    | Remove(id: Id)

  /** What an operation sees; a file from before the built-in repository gains it once. */
  function Load(w: World, f: File): seq<Stored> {
    match f
    case Absent => [w.official]
    case File(initialized, repositories) =>
      if initialized
      || exists k :: 0 <= k < |repositories| && repositories[k].repository.url == w.official.repository.url
      then repositories
      else [w.official] + repositories
  }

  function Find(list: seq<Stored>, id: Id): (found: Option<Stored>)
    ensures found.Some? ==> found.value in list && found.value.repository.id == id
    ensures found.None? ==> forall k :: 0 <= k < |list| ==> list[k].repository.id != id
  {
    if list == [] then None else if list[0].repository.id == id then Some(list[0]) else Find(list[1..], id)
  }

  function Replace(list: seq<Stored>, id: Id, stored: Stored): (r: seq<Stored>)
    ensures |r| == |list|
    ensures forall k :: 0 <= k < |list| ==> r[k] == if list[k].repository.id == id then stored else list[k]
  {
    seq(|list|, k requires 0 <= k < |list| => if list[k].repository.id == id then stored else list[k])
  }

  function Without(list: seq<Stored>, id: Id): seq<Stored> {
    if list == [] then []
    else (if list[0].repository.id == id then [] else [list[0]]) + Without(list[1..], id)
  }

  /** A stored text that counts as a root: JavaScript takes the empty text for none. */
  predicate HasRoot(entry: Stored) {
    entry.root.Some? && entry.root.value != []
  }

  /** The comparison made inside the update. */
  predicate Approves(w: World, entry: Stored, fingerprint: Fingerprint, supplied: Option<Bytes>) {
    if HasRoot(entry) then
      w.digest(Decode(entry.root.value)) == fingerprint && entry.repository.fingerprint == Some(fingerprint)
    else
      supplied.Some? && w.digest(supplied.value) == fingerprint
  }

  function Operate(w: World, list: seq<Stored>, step: Step): Option<seq<Stored>> {
    if step.Add? then
      var added := Repository(step.id, step.kind, step.url, None, Untrusted, "unknown", step.credential, None);
      Some(list + [Stored(added, None)])
    else
      var found := Find(list, step.id);
      if found.None? then None else
      var entry := found.value;
      match step
      case GiveTrust(id, fingerprint, supplied) =>
        if !Approves(w, entry, fingerprint, supplied) then None else
          var repository := entry.repository.(fingerprint := Some(fingerprint), trust := Trusted);
          // Only a missing root is filled in; an empty one stays.
          var root :=
            if entry.root.Some? then entry.root
            else if supplied.Some? then Some(Encode(supplied.value))
            else None;
          Some(Replace(list, id, Stored(repository, root)))
      case SetRoot(id, fingerprint, bytes) =>
        if w.digest(bytes) != fingerprint then None else
          var same := entry.root == Some(Encode(bytes)) && entry.repository.fingerprint == Some(fingerprint);
          var repository := entry.repository.(fingerprint := Some(fingerprint), freshness := "fresh",
            trust := if same then entry.repository.trust else Untrusted);
          Some(Replace(list, id, Stored(repository, Some(Encode(bytes)))))
      case SetCredential(id, credential) =>
        Some(Replace(list, id, entry.(repository := entry.repository.(credential := credential))))
      case SetRefresh(id, freshness, refreshed) =>
        var repository := entry.repository.(freshness := freshness,
          refreshed := if refreshed.None? then entry.repository.refreshed else refreshed);
        Some(Replace(list, id, entry.(repository := repository)))
      case Remove(id) => Some(Without(list, id))
      case Add(_, _, _, _) => None
  }

  /** One serialised update. `written` tells whether the new file took the old one's place. */
  function Apply(w: World, f: File, step: Step, written: bool): File {
    var next := Operate(w, Load(w, f), step);
    if next.None? || !written then f else File(true, next.value)
  }

  // ---- the trust invariant ----

  /** A trusted repository has a root whose digest is the fingerprint its publisher is known by. */
  predicate TrustOk(w: World, entry: Stored) {
    entry.repository.trust.Trusted? ==>
      entry.root.Some? && entry.repository.fingerprint == Some(w.digest(Decode(entry.root.value)))
  }

  predicate AllTrustOk(w: World, list: seq<Stored>) {
    forall k :: 0 <= k < |list| ==> TrustOk(w, list[k])
  }

  predicate UniqueIds(list: seq<Stored>) {
    forall i, j :: 0 <= i < j < |list| ==> list[i].repository.id != list[j].repository.id
  }

  predicate Inv(w: World, f: File) {
    UniqueIds(Load(w, f)) && AllTrustOk(w, Load(w, f))
  }

  /** The one accepted call that breaks it: a supplied root is compared, but an empty stored root
      is kept in its place. */
  predicate KeepsEmptyRoot(w: World, list: seq<Stored>, step: Step) {
    && step.GiveTrust? && Find(list, step.id).Some?
    && Find(list, step.id).value.root == Some([])
    && Approves(w, Find(list, step.id).value, step.fingerprint, step.supplied)
    && step.fingerprint != w.digest([])
  }

  lemma {:induction false} WithoutIsPart(list: seq<Stored>, id: Id, k: nat)
    requires k < |Without(list, id)|
    ensures Without(list, id)[k] in list && Without(list, id)[k].repository.id != id
  {
    var head: seq<Stored> := if list[0].repository.id == id then [] else [list[0]];
    if k >= |head| {
      WithoutIsPart(list[1..], id, k - |head|);
      assert Without(list, id)[k] == Without(list[1..], id)[k - |head|];
    }
  }

  lemma {:induction false} WithoutIsUnique(list: seq<Stored>, id: Id)
    requires UniqueIds(list)
    ensures UniqueIds(Without(list, id))
  {
    if list != [] {
      WithoutIsUnique(list[1..], id);
      var rest := Without(list[1..], id);
      forall k | 0 <= k < |rest| ensures rest[k].repository.id != list[0].repository.id {
        WithoutIsPart(list[1..], id, k);
      }
    }
  }

  /** The entry an operation puts in place of the one it found. */
  lemma ReplacedTrustOk(w: World, list: seq<Stored>, step: Step)
    requires AllTrustOk(w, list) && !step.Add? && !step.Remove? && Operate(w, list, step).Some?
    ensures AllTrustOk(w, Operate(w, list, step).value) <==> !KeepsEmptyRoot(w, list, step)
  {
    var next := Operate(w, list, step).value;
    var entry := Find(list, step.id).value;
    var i :| 0 <= i < |list| && list[i] == entry;
    assert next[i].repository.id == step.id;
    assert Decode([]) == [];
    if step.SetRoot? {
      DecodeUndoesEncode(step.bytes);
    }
    if step.GiveTrust? && step.supplied.Some? {
      DecodeUndoesEncode(step.supplied.value);
    }
    assert TrustOk(w, next[i]) <==> !KeepsEmptyRoot(w, list, step);
  }

  lemma StepKeepsUnique(w: World, list: seq<Stored>, step: Step)
    requires UniqueIds(list) && Operate(w, list, step).Some?
    requires step.Add? ==> Find(list, step.id).None?
    ensures UniqueIds(Operate(w, list, step).value)
  {
    if step.Remove? {
      WithoutIsUnique(list, step.id);
    } else if !step.Add? {
      var next := Operate(w, list, step).value;
      forall k | 0 <= k < |list| ensures next[k].repository.id == list[k].repository.id {}
    }
  }

  /** An operation keeps the trust of a list exactly when it is not that one call. */
  lemma TrustKeptExactlyWhen(w: World, list: seq<Stored>, step: Step)
    requires AllTrustOk(w, list) && Operate(w, list, step).Some?
    ensures AllTrustOk(w, Operate(w, list, step).value) <==> !KeepsEmptyRoot(w, list, step)
  {
    var next := Operate(w, list, step).value;
    if step.Remove? {
      forall k | 0 <= k < |next| ensures TrustOk(w, next[k]) {
        WithoutIsPart(list, step.id, k);
      }
    } else if !step.Add? {
      ReplacedTrustOk(w, list, step);
    }
  }

  datatype Update = Update(step: Step, written: bool)

  function Run(w: World, f: File, updates: seq<Update>): File {
    if updates == [] then f else
      var n := |updates| - 1;
      Apply(w, Run(w, f, updates[..n]), updates[n].step, updates[n].written)
  }

  /** What the callers keep to: new ids are new, and a root is not supplied when trusting an entry
      whose stored root is the empty text. The plugin manager never supplies one. */
  predicate Allowed(w: World, list: seq<Stored>, step: Step) {
    && (step.Add? ==> Find(list, step.id).None?)
    && (step.GiveTrust? && Find(list, step.id).Some? && Find(list, step.id).value.root == Some([])
        ==> step.supplied.None?)
  }

  predicate AllAllowed(w: World, f: File, updates: seq<Update>) {
    forall k :: 0 <= k < |updates| ==> Allowed(w, Load(w, Run(w, f, updates[..k])), updates[k].step)
  }

  lemma StepKeepsInv(w: World, f: File, step: Step, written: bool)
    requires Inv(w, f) && Allowed(w, Load(w, f), step)
    ensures Inv(w, Apply(w, f, step, written))
  {
    var next := Operate(w, Load(w, f), step);
    if next.Some? && written {
      StepKeepsUnique(w, Load(w, f), step);
      TrustKeptExactlyWhen(w, Load(w, f), step);
      assert Load(w, Apply(w, f, step, written)) == next.value;
    }
  }

  /** In every reachable state a trusted repository has a stored root whose digest is its
      publisher's fingerprint. */
  lemma {:induction false} Invariant(w: World, f: File, updates: seq<Update>)
    requires Inv(w, f) && AllAllowed(w, f, updates)
    ensures Inv(w, Run(w, f, updates))
  {
    if updates != [] {
      var n := |updates| - 1;
      forall k | 0 <= k < n
        ensures Allowed(w, Load(w, Run(w, f, updates[..n][..k])), updates[..n][k].step)
      {
        assert updates[..n][..k] == updates[..k];
      }
      Invariant(w, f, updates[..n]);
      StepKeepsInv(w, Run(w, f, updates[..n]), updates[n].step, updates[n].written);
    }
  }

  /** Both kinds of first state: no file, and a file from before the built-in repository that
      does not use its id. */
  lemma FirstStates(w: World, legacy: seq<Stored>)
    requires TrustOk(w, w.official) && UniqueIds(legacy) && AllTrustOk(w, legacy)
    requires Find(legacy, w.official.repository.id).None?
    ensures Inv(w, Absent) && Inv(w, File(false, legacy)) && Inv(w, File(true, legacy))
  {
    assert forall k :: 0 <= k < |legacy| ==> legacy[k].repository.id != w.official.repository.id;
  }

  /** Trust is only ever given by `trust`, for the stored root's own digest: an entry that is
      trusted after a step was trusted before with the same root and fingerprint, or the step
      trusted it. In particular a changed root is untrusted. */
  lemma TrustIsGivenForTheRoot(w: World, list: seq<Stored>, step: Step, i: nat)
    requires UniqueIds(list) && AllTrustOk(w, list) && Allowed(w, list, step)
    requires Operate(w, list, step).Some? && i < |Operate(w, list, step).value|
    requires Operate(w, list, step).value[i].repository.trust.Trusted?
    ensures var after := Operate(w, list, step).value[i];
      after.root.Some? &&
      (|| (exists before :: before in list && before.repository.id == after.repository.id
                           && before.repository.trust.Trusted?
            && before.root == after.root && before.repository.fingerprint == after.repository.fingerprint)
       || (step.GiveTrust? && step.id == after.repository.id && step.fingerprint == w.digest(Decode(after.root.value))))
  {
    var next := Operate(w, list, step).value;
    TrustKeptExactlyWhen(w, list, step);
    assert TrustOk(w, next[i]);
    if step.Remove? {
      WithoutIsPart(list, step.id, i);
    } else if !step.Add? {
      var entry := Find(list, step.id).value;
      assert entry in list && list[i] in list;
      assert next[i] == list[i] || next[i].repository.id == step.id;
    } else {
      assert i < |list| && next[i] == list[i];
    }
  }

  lemma OneMore(w: World, f: File, updates: seq<Update>, step: Step, before: File, after: File)
    returns (longer: seq<Update>)
    requires Run(w, f, updates) == before && Apply(w, before, step, true) == after
    ensures Run(w, f, longer) == after
  {
    longer := updates + [Update(step, true)];
    assert longer[..|longer| - 1] == updates;
  }

  lemma AloneIsReplaced(entry: Stored, stored: Stored)
    ensures Find([entry], entry.repository.id) == Some(entry)
    ensures Replace([entry], entry.repository.id, stored) == [stored]
  {}

  /** Without the condition on callers the invariant fails: an empty root is stored, and then the
      entry is trusted with another root supplied. */
  lemma EmptyRootBreaksTrust(w: World, id: Id, bytes: Bytes) returns (updates: seq<Update>)
    requires w.digest(bytes) != w.digest([])
    ensures Inv(w, File(true, [])) && !Inv(w, Run(w, File(true, []), updates))
  {
    var start := File(true, []);
    var add := Add(id, "https", "", "not needed");
    var none := w.digest([]);
    var r0 := Repository(id, "https", "", None, Untrusted, "unknown", "not needed", None);
    var r1 := r0.(fingerprint := Some(none), freshness := "fresh");
    var r2 := r1.(fingerprint := Some(w.digest(bytes)), trust := Trusted);
    updates := OneMore(w, start, [], add, start, File(true, [Stored(r0, None)]));
    AloneIsReplaced(Stored(r0, None), Stored(r1, Some([])));
    updates := OneMore(w, start, updates, SetRoot(id, none, []),
      File(true, [Stored(r0, None)]), File(true, [Stored(r1, Some([]))]));
    AloneIsReplaced(Stored(r1, Some([])), Stored(r2, Some([])));
    updates := OneMore(w, start, updates, GiveTrust(id, w.digest(bytes), Some(bytes)),
                       File(true, [Stored(r1, Some([]))]), File(true, [Stored(r2, Some([]))]));
    assert Decode([]) == [];
    assert !TrustOk(w, Stored(r2, Some([])));
    assert Load(w, File(true, [Stored(r2, Some([]))]))[0] == Stored(r2, Some([]));
  }
}
