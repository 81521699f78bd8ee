/** The order in which the members of a canonical object stand. */
module CanonicalOrder {
  import opened Prelude
  import opened CanonicalForm

  /** The decimal numeral of a number. */
  function Numeral(n: nat): (k: Key)
    ensures k != []
  {
    if n < 10 then [0x30 + n] else Numeral(n / 10) + [0x30 + n % 10]
  }

  /** The key is an array index: the numeral of a number below 2^32 - 1. */
  predicate Indexes(k: Key, n: nat) {
    n < 0xFFFF_FFFF && k == Numeral(n)
  }

  lemma {:induction false} NumeralIsCanonical(n: nat)
    ensures var k := Numeral(n);
      AllDigits(k) && Decimal(k) == n && (k[0] != 0x30 || |k| == 1) && (n > 0 ==> k[0] != 0x30)
  {
    if n < 10 {
      assert Numeral(n)[..0] == [];
    } else {
      NumeralIsCanonical(n / 10);
      var k := Numeral(n);
      assert k[..|k| - 1] == Numeral(n / 10) && k[0] == Numeral(n / 10)[0];
    }
  }

  lemma {:induction false} CanonicalIsNumeral(k: Key)
    requires k != [] && AllDigits(k) && (k[0] != 0x30 || |k| == 1)
    ensures k == Numeral(Decimal(k)) && (k[0] != 0x30 ==> Decimal(k) > 0)
  {
    var n := |k| - 1;
    if n == 0 {
      assert k[..0] == [];
    } else {
      var front := k[..n];
      CanonicalIsNumeral(front);
      assert k == front + [k[n]];
      TenTimes(Decimal(front), k[n] - 0x30);
    }
  }

  lemma TenTimes(high: nat, low: nat)
    requires low < 10 && high > 0
    ensures Numeral(high * 10 + low) == Numeral(high) + [0x30 + low]
  {
    assert (high * 10 + low) / 10 == high && (high * 10 + low) % 10 == low;
  }

  /** The keys that count as indices are just these. */
  lemma IndexExactly(k: Key, n: nat)
    ensures Indexes(k, n) <==> IsIndex(k) && Decimal(k) == n
  {
    if Indexes(k, n) {
      NumeralIsCanonical(n);
    }
    if IsIndex(k) {
      CanonicalIsNumeral(k);
    }
  }

  /** Indices come first, by number; the other keys follow, code unit by code unit. */
  ghost predicate KeyBefore(a: Key, b: Key) {
    || (exists n :: Indexes(a, n) && forall m :: Indexes(b, m) ==> n < m)
    || ((forall n :: !Indexes(a, n)) && (forall m :: !Indexes(b, m)) && Less(a, b))
  }

  lemma BeforeExactly(a: Key, b: Key)
    ensures KeyBefore(a, b) <==>
      if IsIndex(a) then !IsIndex(b) || Decimal(a) < Decimal(b) else !IsIndex(b) && Less(a, b)
  {
    forall n: nat ensures Indexes(a, n) <==> IsIndex(a) && Decimal(a) == n {
      IndexExactly(a, n);
    }
    forall n: nat ensures Indexes(b, n) <==> IsIndex(b) && Decimal(b) == n {
      IndexExactly(b, n);
    }
    if IsIndex(a) {
      assert Indexes(a, Decimal(a));
    }
    if IsIndex(b) {
      assert Indexes(b, Decimal(b));
    }
  }

  lemma SameNumberSameKey(a: Key, b: Key)
    requires IsIndex(a) && IsIndex(b) && Decimal(a) == Decimal(b)
    ensures a == b
  {
    CanonicalIsNumeral(a);
    CanonicalIsNumeral(b);
  }

  ghost predicate InOrder(ms: seq<Member>) {
    forall i, j :: 0 <= i < j < |ms| ==> KeyBefore(ms[i].key, ms[j].key)
  }

  lemma BeforeIsTransitive(a: Key, b: Key, c: Key)
    requires KeyBefore(a, b) && KeyBefore(b, c)
    ensures KeyBefore(a, c)
  {
    BeforeExactly(a, b);
    BeforeExactly(b, c);
    BeforeExactly(a, c);
    if Less(a, b) && Less(b, c) {
      LessIsTransitive(a, b, c);
    }
  }

  /** The place `Object.fromEntries` finds for a key that is smaller than all the others. */
  lemma PlaceIsRight(a: Key, b: Key)
    requires a != b && Less(a, b)
    ensures Precedes(a, b) ==> KeyBefore(a, b)
    ensures !Precedes(a, b) ==> KeyBefore(b, a)
  {
    BeforeExactly(a, b);
    BeforeExactly(b, a);
    if IsIndex(a) && IsIndex(b) && Decimal(a) == Decimal(b) {
      SameNumberSameKey(a, b);
    }
  }

  lemma {:induction false} InsertKeepsOrder(m: Member, ms: seq<Member>)
    requires InOrder(ms) && forall i :: 0 <= i < |ms| ==> m.key != ms[i].key && Less(m.key, ms[i].key)
    ensures InOrder(Insert(m, ms, Precedes))
  {
    if ms == [] {
      return;
    }
    PlaceIsRight(m.key, ms[0].key);
    if Precedes(m.key, ms[0].key) {
      forall i | 0 < i < |ms| ensures KeyBefore(m.key, ms[i].key) {
        BeforeIsTransitive(m.key, ms[0].key, ms[i].key);
      }
      FirstInOrder(m, ms);
    } else {
      InsertKeepsOrder(m, ms[1..]);
      var rest := Insert(m, ms[1..], Precedes);
      forall i | 0 <= i < |rest| ensures KeyBefore(ms[0].key, rest[i].key) {
        AmongInserted(m, ms[1..], Precedes, rest[i]);
      }
      FirstInOrder(ms[0], rest);
    }
  }

  lemma FirstInOrder(first: Member, rest: seq<Member>)
    requires InOrder(rest) && forall i :: 0 <= i < |rest| ==> KeyBefore(first.key, rest[i].key)
    ensures InOrder([first] + rest)
  {}

  lemma {:induction false} ArrangeOrders(ms: seq<Member>)
    requires Ascending(ms)
    ensures InOrder(Arrange(ms, Precedes))
  {
    if ms != [] {
      ArrangeOrders(ms[1..]);
      var rest := Arrange(ms[1..], Precedes);
      forall i | 0 <= i < |rest| ensures ms[0].key != rest[i].key && Less(ms[0].key, rest[i].key) {
        AmongArranged(ms[1..], Precedes, rest[i]);
        LessIsIrreflexive(ms[0].key);
      }
      InsertKeepsOrder(ms[0], rest);
    }
  }

  /** So the members of a normalised object enumerate, and serialise, in that order. */
  lemma NormalIsInOrder(ms: seq<Member>)
    requires DistinctKeys(ms)
    ensures InOrder(Normal(Object(ms)).members)
  {
    NormalEntriesAscend(ms);
    ArrangeOrders(NormalEntries(ms, Object(ms)));
  }
}
