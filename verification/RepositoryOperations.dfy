/** What each operation of the plugin repository store accepts, and what it changes. */
module RepositoryOperations {
  import opened Prelude
  import opened Base64
  import opened RepositoryTrust

  ghost predicate Has(list: seq<Stored>, id: Id) {
    exists k :: 0 <= k < |list| && list[k].repository.id == id
  }

  lemma {:induction false} FoundExactly(list: seq<Stored>, id: Id)
    ensures Find(list, id).Some? <==> Has(list, id)
  {
    if Has(list, id) {
      var k :| 0 <= k < |list| && list[k].repository.id == id;
    }
  }

  /** The root metadata an approval is about: what is stored, or else what the caller supplies. */
  predicate IsSubject(entry: Stored, supplied: Option<Bytes>, root: Bytes) {
    if entry.root.Some? && entry.root.value != [] then root == Decode(entry.root.value) else supplied == Some(root)
  }

  /** What an operation asks for. */
  ghost predicate IsDue(w: World, list: seq<Stored>, step: Step)
    requires forall id :: Has(list, id) ==> Find(list, id).Some?
  {
    match step
    case Add(_, _, _, _) => true
    case GiveTrust(id, fingerprint, supplied) =>
      && Has(list, id)
      && (exists root :: IsSubject(Find(list, id).value, supplied, root) && w.digest(root) == fingerprint)
      && (HasRoot(Find(list, id).value) ==> Find(list, id).value.repository.fingerprint == Some(fingerprint))
    case SetRoot(id, fingerprint, bytes) => Has(list, id) && w.digest(bytes) == fingerprint
    case _ => Has(list, step.id)
  }

  /** An operation is accepted exactly when its repository is known and, where root metadata are
      approved or stored, their digest is the given fingerprint; approving a stored root also asks
      that its fingerprint be the recorded one. */
  lemma AcceptedExactly(w: World, list: seq<Stored>, step: Step)
    ensures forall id :: Has(list, id) ==> Find(list, id).Some?
    ensures Operate(w, list, step).Some? <==> IsDue(w, list, step)
  {
    forall id ensures Find(list, id).Some? <==> Has(list, id) {
      FoundExactly(list, id);
    }
    if !step.Add? {
      if step.GiveTrust? && Has(list, step.id) {
        var entry := Find(list, step.id).value;
        var root :=
          if HasRoot(entry) then Decode(entry.root.value)
          else if step.supplied.Some? then step.supplied.value
          else [];
        if Approves(w, entry, step.fingerprint, step.supplied) {
          assert IsSubject(entry, step.supplied, root);
        }
      }
    }
  }

  // ---- what changes ----

  /** An accepted operation changes the entry it names and no other, keeps their order, and of that
      entry neither id nor kind nor URL. */
  lemma ChangesOnlyItsEntry(w: World, list: seq<Stored>, step: Step, k: nat)
    requires UniqueIds(list) && !step.Add? && !step.Remove? && Operate(w, list, step).Some? && k < |list|
    ensures var next := Operate(w, list, step).value;
      && |next| == |list|
      && (list[k].repository.id != step.id ==> next[k] == list[k])
      && next[k].repository.id == list[k].repository.id && next[k].repository.kind == list[k].repository.kind
      && next[k].repository.url == list[k].repository.url
  {
    var entry := Find(list, step.id).value;
    var i :| 0 <= i < |list| && list[i] == entry;
    assert list[k].repository.id == step.id ==> k == i;
  }

  /** Adding puts an untrusted entry without root at the end. */
  lemma AddAppends(w: World, list: seq<Stored>, id: Id, kind: string, url: string, credential: string)
    ensures var next := Operate(w, list, Add(id, kind, url, credential));
      && next.Some? && |next.value| == |list| + 1 && next.value[..|list|] == list
      && var added := next.value[|list|];
         added.root.None? && added.repository.id == id && added.repository.kind == kind && added.repository.url == url
         && added.repository.trust.Untrusted? && added.repository.fingerprint.None?
         && added.repository.credential == credential && added.repository.freshness == "unknown"
  {}

  /** Removing takes out the entries of the id and keeps the others in their order. */
  lemma {:induction false} RemoveKeepsTheOthers(
      list: seq<Stored>, id: Id, a: seq<Stored>, entry: Stored, b: seq<Stored>)
    requires list == a + [entry] + b && entry.repository.id == id
    requires forall k :: 0 <= k < |a| ==> a[k].repository.id != id
    requires forall k :: 0 <= k < |b| ==> b[k].repository.id != id
    ensures Without(list, id) == a + b
  {
    WithoutJoins(a + [entry], b, id);
    WithoutJoins(a, [entry], id);
    NothingTaken(a, id);
    NothingTaken(b, id);
    assert [entry][1..] == [];
    assert a + [] == a;
  }

  lemma {:induction false} WithoutJoins(a: seq<Stored>, b: seq<Stored>, id: Id)
    ensures Without(a + b, id) == Without(a, id) + Without(b, id)
  {
    if a == [] {
      assert a + b == b;
    } else {
      assert (a + b)[1..] == a[1..] + b;
      WithoutJoins(a[1..], b, id);
    }
  }

  lemma {:induction false} NothingTaken(list: seq<Stored>, id: Id)
    requires forall k :: 0 <= k < |list| ==> list[k].repository.id != id
    ensures Without(list, id) == list
  {
    if list != [] {
      NothingTaken(list[1..], id);
      assert [list[0]] + list[1..] == list;
    }
  }

  /** So removing a known repository succeeds and leaves the rest. */
  lemma RemoveSucceeds(w: World, list: seq<Stored>, k: nat)
    requires UniqueIds(list) && k < |list|
    ensures Operate(w, list, Remove(list[k].repository.id)) == Some(list[..k] + list[k + 1..])
  {
    var id := list[k].repository.id;
    FoundExactly(list, id);
    assert Has(list, id);
    assert list == list[..k] + [list[k]] + list[k + 1..];
    RemoveKeepsTheOthers(list, id, list[..k], list[k], list[k + 1..]);
  }

  /** Fetching root metadata keeps the trust of an entry exactly as long as root and fingerprint
      are the same; anything else takes it away. */
  lemma FetchingKeepsTrustExactly(w: World, list: seq<Stored>, id: Id, bytes: Bytes, k: nat)
    requires UniqueIds(list) && k < |list| && list[k].repository.id == id
    ensures var next := Operate(w, list, SetRoot(id, w.digest(bytes), bytes));
      && next.Some? && |next.value| == |list|
      && var entry := next.value[k];
         entry.root == Some(Encode(bytes)) && entry.repository.fingerprint == Some(w.digest(bytes))
         && entry.repository.freshness == "fresh"
         && entry.repository.trust ==
              if list[k].root == Some(Encode(bytes)) && list[k].repository.fingerprint == Some(w.digest(bytes))
              then list[k].repository.trust else Untrusted
  {
    FoundIsIt(list, id, k);
  }

  lemma FoundIsIt(list: seq<Stored>, id: Id, k: nat)
    requires UniqueIds(list) && k < |list| && list[k].repository.id == id
    ensures Find(list, id) == Some(list[k])
  {
    FoundExactly(list, id);
    assert Has(list, id);
    var entry := Find(list, id).value;
    var i :| 0 <= i < |list| && list[i] == entry;
    assert i == k;
  }

  /** Root metadata that have been fetched can be approved with their own digest and nothing else. */
  lemma FetchedRootIsApproved(w: World, list: seq<Stored>, id: Id, bytes: Bytes, k: nat, fingerprint: Fingerprint)
    requires UniqueIds(list) && k < |list| && list[k].repository.id == id && bytes != []
    ensures var fetched := Operate(w, list, SetRoot(id, w.digest(bytes), bytes));
      && fetched.Some?
      && var approved := Operate(w, fetched.value, GiveTrust(id, fingerprint, None));
         && (approved.Some? <==> fingerprint == w.digest(bytes))
         && (approved.Some? ==>
               && |approved.value| == |list| && approved.value[k].repository.trust.Trusted?
               && approved.value[k].root == Some(Encode(bytes)) && Decode(Encode(bytes)) == bytes)
  {
    FetchingKeepsTrustExactly(w, list, id, bytes, k);
    var fetched := Operate(w, list, SetRoot(id, w.digest(bytes), bytes)).value;
    forall j | 0 <= j < |list| ensures fetched[j].repository.id == list[j].repository.id {
      ChangesOnlyItsEntry(w, list, SetRoot(id, w.digest(bytes), bytes), j);
    }
    FoundIsIt(fetched, id, k);
    DecodeUndoesEncode(bytes);
    assert Decode([]) == [];
  }

  /** An approval records the fingerprint and the trust; a stored root stays, and where there is none
      the supplied one is stored. */
  lemma ApprovalIsRecorded(
      w: World, list: seq<Stored>, id: Id, fingerprint: Fingerprint, supplied: Option<Bytes>, k: nat)
    requires UniqueIds(list) && k < |list| && list[k].repository.id == id
    requires Operate(w, list, GiveTrust(id, fingerprint, supplied)).Some?
    ensures var next := Operate(w, list, GiveTrust(id, fingerprint, supplied)).value;
      && |next| == |list|
      && next[k].repository == list[k].repository.(fingerprint := Some(fingerprint), trust := Trusted)
      && (list[k].root.Some? ==> next[k].root == list[k].root)
      && (list[k].root.None? ==> supplied.Some? && next[k].root == Some(Encode(supplied.value)))
  {
    FoundIsIt(list, id, k);
  }

  /** The credential and the refresh state are recorded, and the trust stays. */
  lemma StatesAreRecorded(w: World, list: seq<Stored>, id: Id, k: nat, credential: string, freshness: string,
                          refreshed: Option<int>)
    requires UniqueIds(list) && k < |list| && list[k].repository.id == id
    ensures var next := Operate(w, list, SetCredential(id, credential));
      next.Some? && |next.value| == |list|
      && next.value[k] == list[k].(repository := list[k].repository.(credential := credential))
    ensures var next := Operate(w, list, SetRefresh(id, freshness, refreshed));
      next.Some? && |next.value| == |list|
      && next.value[k] == list[k].(repository := list[k].repository.(
           freshness := freshness, refreshed := if refreshed.Some? then refreshed else list[k].repository.refreshed))
  {
    FoundIsIt(list, id, k);
  }

  // ---- the built-in repository ----

  /** A file from before the built-in repository gains it in front, unless it has one of that URL;
      once the file has been written it is not added again, so that it can be removed for good. */
  lemma BuiltInIsAddedOnce(w: World, initialized: bool, list: seq<Stored>, step: Step)
    ensures Load(w, Absent) == [w.official]
    ensures Load(w, File(true, list)) == list
    ensures (forall k :: 0 <= k < |list| ==> list[k].repository.url != w.official.repository.url) ==>
      Load(w, File(false, list)) == [w.official] + list
    ensures (exists k :: 0 <= k < |list| && list[k].repository.url == w.official.repository.url) ==>
      Load(w, File(false, list)) == list
    ensures var next := Operate(w, Load(w, File(initialized, list)), step);
      next.Some? ==> Load(w, Apply(w, File(initialized, list), step, true)) == next.value
  {}

  /** An operation that is refused, or whose file is not written, changes nothing. */
  lemma NothingChangesUnlessWritten(w: World, f: File, step: Step, written: bool)
    requires !written || Operate(w, Load(w, f), step).None?
    ensures Apply(w, f, step, written) == f
  {}
}
