/** The canonical form a launch command's id is computed from. */
module CanonicalForm {
  import opened Prelude

  /** A JavaScript value that is no object; numbers by their bits. */
  datatype Atom = Undefined | Null | Truth(b: bool) | Number(bits: nat) | Text(s: Prelude.Text)

  type Key = Prelude.Text

  /** An object's members are in the order in which it enumerates them. */
  datatype Value = Leaf(atom: Atom) | Array(items: seq<Value>) | Object(members: seq<Member>)

  datatype Member = Member(key: Key, value: Value)

  const UNDEFINED := Leaf(Undefined)

  // ---- the order of keys ----

  /** `<` on strings: code unit by code unit. */
  predicate Less(a: Key, b: Key) {
    b != [] && (a == [] || a[0] < b[0] || (a[0] == b[0] && Less(a[1..], b[1..])))
  }

  predicate AllDigits(k: Key) {
    forall i :: 0 <= i < |k| ==> 0x30 <= k[i] <= 0x39
  }

  function Decimal(k: Key): nat
    requires AllDigits(k)
  {
    if k == [] then 0 else Decimal(k[..|k| - 1]) * 10 + (k[|k| - 1] - 0x30)
  }

  /** Array indices: canonical decimals below 2^32 - 1. */
  predicate IsIndex(k: Key) {
    k != [] && AllDigits(k) && (k[0] != 0x30 || |k| == 1) && Decimal(k) < 0xFFFF_FFFF
  }

  /** An object enumerates its indices in ascending order, then the other keys as they came. */
  predicate Precedes(a: Key, b: Key) {
    !IsIndex(b) || (IsIndex(a) && Decimal(a) < Decimal(b))
  }

  function Insert(m: Member, ms: seq<Member>, before: (Key, Key) -> bool): seq<Member> {
    if ms == [] || before(m.key, ms[0].key) then [m] + ms else [ms[0]] + Insert(m, ms[1..], before)
  }

  function Arrange(ms: seq<Member>, before: (Key, Key) -> bool): seq<Member> {
    if ms == [] then [] else Insert(ms[0], Arrange(ms[1..], before), before)
  }

  // ---- normalisation ----

  function Defined(ms: seq<Member>): seq<Member> {
    if ms == [] then []
    else if ms[0].value == UNDEFINED then Defined(ms[1..])
    else [ms[0]] + Defined(ms[1..])
  }

  lemma {:induction false} InsertedIsAmong(m: Member, ms: seq<Member>, before: (Key, Key) -> bool)
    ensures multiset(Insert(m, ms, before)) == multiset([m] + ms)
  {
    if ms != [] && !before(m.key, ms[0].key) {
      InsertedIsAmong(m, ms[1..], before);
      assert ms == [ms[0]] + ms[1..];
    }
  }

  lemma {:induction false} ArrangedIsAmong(ms: seq<Member>, before: (Key, Key) -> bool)
    ensures multiset(Arrange(ms, before)) == multiset(ms)
  {
    if ms != [] {
      ArrangedIsAmong(ms[1..], before);
      InsertedIsAmong(ms[0], Arrange(ms[1..], before), before);
      assert ms == [ms[0]] + ms[1..];
    }
  }

  lemma {:induction false} DefinedIsAmong(ms: seq<Member>, m: Member)
    ensures m in Defined(ms) <==> m in ms && m.value != UNDEFINED
  {
    if ms != [] {
      DefinedIsAmong(ms[1..], m);
      assert ms == [ms[0]] + ms[1..];
    }
  }

  /** The members in the order `toSorted` gives them. */
  function Entries(ms: seq<Member>): seq<Member> {
    Arrange(Defined(ms), Less)
  }

  lemma EntryIsMember(ms: seq<Member>, m: Member)
    ensures m in Entries(ms) <==> m in ms && m.value != UNDEFINED
  {
    ArrangedIsAmong(Defined(ms), Less);
    assert m in Entries(ms) <==> m in multiset(Entries(ms));
    assert m in Defined(ms) <==> m in multiset(Defined(ms));
    DefinedIsAmong(ms, m);
  }

  lemma EntryIsSmaller(ms: seq<Member>, i: nat)
    requires i < |Entries(ms)|
    ensures Entries(ms)[i].value < Object(ms)
  {
    EntryIsMember(ms, Entries(ms)[i]);
    var j :| 0 <= j < |ms| && ms[j] == Entries(ms)[i];
    assert ms[j].value < Object(ms);
  }

  /** `Object.fromEntries`: what the new object enumerates. */
  function FromEntries(ms: seq<Member>): seq<Member> {
    Arrange(ms, Precedes)
  }

  function Normal(v: Value): Value
    decreases v
  {
    match v
    case Leaf(_) => v
    case Array(items) => Array(seq(|items|, i requires 0 <= i < |items| => Normal(items[i])))
    case Object(ms) => Object(FromEntries(NormalEntries(ms, v)))
  }

  function NormalEntries(ms: seq<Member>, v: Value): seq<Member>
    requires v == Object(ms)
    decreases v, 0
  {
    seq(|Entries(ms)|, i requires 0 <= i < |Entries(ms)| =>
      EntryIsSmaller(ms, i);
      Member(Entries(ms)[i].key, Normal(Entries(ms)[i].value)))
  }

  // ---- equality up to member order and undefined members ----

  predicate DistinctKeys(ms: seq<Member>) {
    forall i, j :: 0 <= i < j < |ms| ==> ms[i].key != ms[j].key
  }

  /** Every object in the value has one member per key. */
  predicate Proper(v: Value) {
    match v
    case Leaf(_) => true
    case Array(items) => forall i :: 0 <= i < |items| ==> Proper(items[i])
    case Object(ms) => DistinctKeys(ms) && forall i :: 0 <= i < |ms| ==> Proper(ms[i].value)
  }

  predicate IsDefined(ms: seq<Member>, i: int) {
    0 <= i < |ms| && ms[i].value != UNDEFINED
  }

  /** Equal up to the order of object members and undefined-valued members, at every depth. */
  ghost predicate Equiv(a: Value, b: Value)
    decreases a
  {
    match a
    case Leaf(_) => a == b
    case Array(items) =>
      b.Array? && |b.items| == |items| && forall i :: 0 <= i < |items| ==> Equiv(items[i], b.items[i])
    case Object(ms) =>
      && b.Object?
      && (forall i {:trigger IsDefined(ms, i)} :: IsDefined(ms, i) ==>
            exists j :: IsDefined(b.members, j) && b.members[j].key == ms[i].key
                        && Equiv(ms[i].value, b.members[j].value))
      && (forall j {:trigger IsDefined(b.members, j)} :: IsDefined(b.members, j) ==>
            exists i :: IsDefined(ms, i) && ms[i].key == b.members[j].key)
  }

  predicate SameMembers(x: seq<Member>, y: seq<Member>) {
    (forall m :: m in x ==> m in y) && (forall m :: m in y ==> m in x)
  }

  predicate Ascending(ms: seq<Member>) {
    forall i, j :: 0 <= i < j < |ms| ==> Less(ms[i].key, ms[j].key)
  }

  // ---- sorted members are determined by which members there are ----

  lemma {:induction false} LessIsIrreflexive(a: Key)
    ensures !Less(a, a)
  {
    if a != [] {
      LessIsIrreflexive(a[1..]);
    }
  }

  lemma {:induction false} LessIsTransitive(a: Key, b: Key, c: Key)
    requires Less(a, b) && Less(b, c)
    ensures Less(a, c)
  {
    if a != [] && a[0] == b[0] && b[0] == c[0] {
      LessIsTransitive(a[1..], b[1..], c[1..]);
    }
  }

  lemma {:induction false} LessIsTotal(a: Key, b: Key)
    requires a != b
    ensures Less(a, b) || Less(b, a)
  {
    if a != [] && b != [] && a[0] == b[0] {
      assert a == [a[0]] + a[1..] && b == [b[0]] + b[1..];
      LessIsTotal(a[1..], b[1..]);
    }
  }

  lemma AmongInserted(m: Member, ms: seq<Member>, before: (Key, Key) -> bool, x: Member)
    ensures x in Insert(m, ms, before) <==> x == m || x in ms
  {
    InsertedIsAmong(m, ms, before);
    assert x in Insert(m, ms, before) <==> x in multiset(Insert(m, ms, before));
    assert x in [m] + ms <==> x in multiset([m] + ms);
  }

  lemma AmongArranged(ms: seq<Member>, before: (Key, Key) -> bool, x: Member)
    ensures x in Arrange(ms, before) <==> x in ms
  {
    ArrangedIsAmong(ms, before);
    assert x in Arrange(ms, before) <==> x in multiset(Arrange(ms, before));
    assert x in ms <==> x in multiset(ms);
  }

  lemma {:induction false} InsertAscends(m: Member, ms: seq<Member>)
    requires Ascending(ms) && forall i :: 0 <= i < |ms| ==> ms[i].key != m.key
    ensures Ascending(Insert(m, ms, Less))
  {
    if ms != [] {
      if Less(m.key, ms[0].key) {
        forall i | 0 < i < |ms| ensures Less(m.key, ms[i].key) {
          LessIsTransitive(m.key, ms[0].key, ms[i].key);
        }
      } else {
        LessIsTotal(m.key, ms[0].key);
        InsertAscends(m, ms[1..]);
        var rest := Insert(m, ms[1..], Less);
        forall i | 0 <= i < |rest| ensures Less(ms[0].key, rest[i].key) {
          AmongInserted(m, ms[1..], Less, rest[i]);
        }
      }
    }
  }

  lemma {:induction false} ArrangeAscends(ms: seq<Member>)
    requires DistinctKeys(ms)
    ensures Ascending(Arrange(ms, Less))
  {
    if ms != [] {
      ArrangeAscends(ms[1..]);
      var rest := Arrange(ms[1..], Less);
      forall i | 0 <= i < |rest| ensures rest[i].key != ms[0].key {
        AmongArranged(ms[1..], Less, rest[i]);
      }
      InsertAscends(ms[0], rest);
    }
  }

  lemma {:induction false} DefinedIsDistinct(ms: seq<Member>)
    requires DistinctKeys(ms)
    ensures DistinctKeys(Defined(ms))
  {
    if ms != [] {
      DefinedIsDistinct(ms[1..]);
      forall i | 0 <= i < |Defined(ms[1..])| ensures Defined(ms[1..])[i].key != ms[0].key {
        DefinedIsAmong(ms[1..], Defined(ms[1..])[i]);
      }
    }
  }

  lemma FirstIsLeast(x: seq<Member>, y: seq<Member>)
    requires Ascending(x) && Ascending(y) && SameMembers(x, y) && x != []
    ensures y != [] && x[0] == y[0]
  {
    assert x[0] in y;
    assert y[0] in x;
    if Less(x[0].key, y[0].key) && Less(y[0].key, x[0].key) {
      LessIsTransitive(x[0].key, y[0].key, x[0].key);
    }
    LessIsIrreflexive(x[0].key);
  }

  lemma {:induction false} AscendingIsUnique(x: seq<Member>, y: seq<Member>)
    requires Ascending(x) && Ascending(y) && SameMembers(x, y)
    ensures x == y
  {
    if x != [] {
      FirstIsLeast(x, y);
      TailsMatch(x, y);
      TailsMatch(y, x);
      AscendingIsUnique(x[1..], y[1..]);
    } else if y != [] {
      FirstIsLeast(y, x);
    }
  }

  lemma TailsMatch(x: seq<Member>, y: seq<Member>)
    requires Ascending(x) && Ascending(y) && SameMembers(x, y) && x != [] && y != [] && x[0] == y[0]
    ensures forall m :: m in x[1..] ==> m in y[1..]
  {
    forall m | m in x[1..] ensures m in y[1..] {
      LessIsIrreflexive(m.key);
      assert m in x && m != x[0];
      assert y == [y[0]] + y[1..];
    }
  }

  // ---- the canonical form ----

  lemma NormalEntriesAscend(ms: seq<Member>)
    requires DistinctKeys(ms)
    ensures Ascending(NormalEntries(ms, Object(ms)))
  {
    DefinedIsDistinct(ms);
    ArrangeAscends(Defined(ms));
  }

  lemma AmongNormalEntries(ms: seq<Member>, i: nat)
    requires IsDefined(ms, i)
    ensures Member(ms[i].key, Normal(ms[i].value)) in NormalEntries(ms, Object(ms))
  {
    EntryIsMember(ms, ms[i]);
    var j :| 0 <= j < |Entries(ms)| && Entries(ms)[j] == ms[i];
    assert NormalEntries(ms, Object(ms))[j] == Member(ms[i].key, Normal(ms[i].value));
  }

  lemma FromMember(ms: seq<Member>, m: Member) returns (i: nat)
    requires m in NormalEntries(ms, Object(ms))
    ensures IsDefined(ms, i) && m == Member(ms[i].key, Normal(ms[i].value))
  {
    var j :| 0 <= j < |Entries(ms)| && NormalEntries(ms, Object(ms))[j] == m;
    EntryIsMember(ms, Entries(ms)[j]);
    i :| 0 <= i < |ms| && ms[i] == Entries(ms)[j];
  }

  /** Objects normalise alike exactly when their normalised entries are the same members. */
  lemma SameObject(p: seq<Member>, q: seq<Member>)
    requires DistinctKeys(p) && DistinctKeys(q)
    ensures Normal(Object(p)) == Normal(Object(q))
      <==> SameMembers(NormalEntries(p, Object(p)), NormalEntries(q, Object(q)))
  {
    var x, y := NormalEntries(p, Object(p)), NormalEntries(q, Object(q));
    if SameMembers(x, y) {
      NormalEntriesAscend(p);
      NormalEntriesAscend(q);
      AscendingIsUnique(x, y);
    }
    if FromEntries(x) == FromEntries(y) {
      forall m ensures m in x <==> m in y {
        AmongArranged(x, Precedes, m);
        AmongArranged(y, Precedes, m);
      }
    }
  }

  lemma {:induction false} EquivMeansSameMembers(p: seq<Member>, q: seq<Member>)
    requires Proper(Object(p)) && Proper(Object(q)) && Equiv(Object(p), Object(q))
    ensures SameMembers(NormalEntries(p, Object(p)), NormalEntries(q, Object(q)))
    decreases Object(p), 0
  {
    var x, y := NormalEntries(p, Object(p)), NormalEntries(q, Object(q));
    forall m | m in x ensures m in y {
      var i := FromMember(p, m);
      var j :| IsDefined(q, j) && q[j].key == p[i].key && Equiv(p[i].value, q[j].value);
      SameNormalForm(p[i].value, q[j].value);
      AmongNormalEntries(q, j);
    }
    forall m | m in y ensures m in x {
      var j := FromMember(q, m);
      var i :| IsDefined(p, i) && p[i].key == q[j].key;
      var k :| IsDefined(q, k) && q[k].key == p[i].key && Equiv(p[i].value, q[k].value);
      assert k == j;
      SameNormalForm(p[i].value, q[j].value);
      AmongNormalEntries(p, i);
    }
  }

  lemma {:induction false} SameMembersMeansEquiv(p: seq<Member>, q: seq<Member>)
    requires Proper(Object(p)) && Proper(Object(q))
    requires SameMembers(NormalEntries(p, Object(p)), NormalEntries(q, Object(q)))
    ensures Equiv(Object(p), Object(q))
    decreases Object(p), 0
  {
    forall i | IsDefined(p, i)
      ensures exists j :: IsDefined(q, j) && q[j].key == p[i].key && Equiv(p[i].value, q[j].value)
    {
      AmongNormalEntries(p, i);
      var j := FromMember(q, Member(p[i].key, Normal(p[i].value)));
      SameNormalForm(p[i].value, q[j].value);
    }
    forall j | IsDefined(q, j) ensures exists i :: IsDefined(p, i) && p[i].key == q[j].key {
      AmongNormalEntries(q, j);
      var i := FromMember(p, Member(q[j].key, Normal(q[j].value)));
    }
  }

  /** Two values have one normal form exactly when they are equal up to member order and
      undefined-valued members. */
  lemma {:induction false} SameNormalForm(a: Value, b: Value)
    requires Proper(a) && Proper(b)
    ensures Normal(a) == Normal(b) <==> Equiv(a, b)
    decreases a, 1
  {
    if a.Array? && b.Array? && |a.items| == |b.items| {
      forall i | 0 <= i < |a.items|
        ensures Normal(a.items[i]) == Normal(b.items[i]) <==> Equiv(a.items[i], b.items[i]) {
        SameNormalForm(a.items[i], b.items[i]);
      }
      if Normal(a) == Normal(b) {
        forall i | 0 <= i < |a.items| ensures Equiv(a.items[i], b.items[i]) {
          assert Normal(a).items[i] == Normal(b).items[i];
        }
      }
    } else if a.Object? && b.Object? {
      SameObject(a.members, b.members);
      if Equiv(a, b) {
        EquivMeansSameMembers(a.members, b.members);
      }
      if Normal(a) == Normal(b) {
        SameMembersMeansEquiv(a.members, b.members);
      }
    } else if a.Array? && b.Array? {
      assert |Normal(a).items| != |Normal(b).items|;
    }
  }

  // ---- normalising twice ----

  lemma {:induction false} InsertIsDistinct(m: Member, ms: seq<Member>, before: (Key, Key) -> bool)
    requires DistinctKeys(ms) && forall i :: 0 <= i < |ms| ==> ms[i].key != m.key
    ensures DistinctKeys(Insert(m, ms, before))
  {
    if ms != [] && !before(m.key, ms[0].key) {
      InsertIsDistinct(m, ms[1..], before);
      var rest := Insert(m, ms[1..], before);
      forall i | 0 <= i < |rest| ensures rest[i].key != ms[0].key {
        AmongInserted(m, ms[1..], before, rest[i]);
      }
    }
  }

  lemma {:induction false} ArrangeIsDistinct(ms: seq<Member>, before: (Key, Key) -> bool)
    requires DistinctKeys(ms)
    ensures DistinctKeys(Arrange(ms, before))
  {
    if ms != [] {
      ArrangeIsDistinct(ms[1..], before);
      var rest := Arrange(ms[1..], before);
      forall i | 0 <= i < |rest| ensures rest[i].key != ms[0].key {
        AmongArranged(ms[1..], before, rest[i]);
      }
      InsertIsDistinct(ms[0], rest, before);
    }
  }

  lemma NormalEntriesDistinct(ms: seq<Member>)
    requires DistinctKeys(ms)
    ensures DistinctKeys(NormalEntries(ms, Object(ms)))
  {
    NormalEntriesAscend(ms);
    var x := NormalEntries(ms, Object(ms));
    forall i, j | 0 <= i < j < |x| ensures x[i].key != x[j].key {
      LessIsIrreflexive(x[i].key);
    }
  }

  lemma NormalIsDefined(v: Value)
    ensures Normal(v) == UNDEFINED <==> v == UNDEFINED
  {}

  /** The member of the normal form that a defined member becomes. */
  lemma InNormalObject(ms: seq<Member>, i: nat) returns (j: nat)
    requires IsDefined(ms, i)
    ensures var r := Normal(Object(ms)).members;
      j < |r| && r[j] == Member(ms[i].key, Normal(ms[i].value)) && IsDefined(r, j)
  {
    var m := Member(ms[i].key, Normal(ms[i].value));
    AmongNormalEntries(ms, i);
    AmongArranged(NormalEntries(ms, Object(ms)), Precedes, m);
    NormalIsDefined(ms[i].value);
    j :| 0 <= j < |Normal(Object(ms)).members| && Normal(Object(ms)).members[j] == m;
  }

  lemma FromNormalObject(ms: seq<Member>, j: nat) returns (i: nat)
    requires j < |Normal(Object(ms)).members|
    ensures IsDefined(ms, i) && Normal(Object(ms)).members[j] == Member(ms[i].key, Normal(ms[i].value))
  {
    AmongArranged(NormalEntries(ms, Object(ms)), Precedes, Normal(Object(ms)).members[j]);
    i := FromMember(ms, Normal(Object(ms)).members[j]);
  }

  lemma {:induction false} NormalObjectIsEquiv(ms: seq<Member>)
    requires Proper(Object(ms))
    ensures Proper(Normal(Object(ms))) && Equiv(Normal(Object(ms)), Object(ms))
    decreases Object(ms), 0
  {
    var r := Normal(Object(ms)).members;
    NormalEntriesDistinct(ms);
    ArrangeIsDistinct(NormalEntries(ms, Object(ms)), Precedes);
    forall j | 0 <= j < |r|
      ensures Proper(r[j].value)
      ensures exists i :: IsDefined(ms, i) && ms[i].key == r[j].key && Equiv(r[j].value, ms[i].value)
    {
      var i := FromNormalObject(ms, j);
      NormalIsEquiv(ms[i].value);
    }
    forall i | IsDefined(ms, i) ensures exists j :: IsDefined(r, j) && r[j].key == ms[i].key {
      var j := InNormalObject(ms, i);
    }
  }

  /** A normal form is equal to what it was made from, up to order and undefined members. */
  lemma {:induction false} NormalIsEquiv(v: Value)
    requires Proper(v)
    ensures Proper(Normal(v)) && Equiv(Normal(v), v)
    decreases v, 1
  {
    if v.Array? {
      forall i | 0 <= i < |v.items| ensures Proper(Normal(v.items[i])) && Equiv(Normal(v.items[i]), v.items[i]) {
        NormalIsEquiv(v.items[i]);
      }
    } else if v.Object? {
      NormalObjectIsEquiv(v.members);
    }
  }

  lemma Idempotent(v: Value)
    requires Proper(v)
    ensures Normal(Normal(v)) == Normal(v)
  {
    NormalIsEquiv(v);
    SameNormalForm(Normal(v), v);
  }
}
