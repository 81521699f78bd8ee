/** What the plugin store's reader makes of archives from any writer, told in terms of the fields of
    the format: what the fields of a header hold, and what follows it. */
module UstarReader {
  import opened Prelude
  import opened Ustar
  import opened UstarRoundTrip

  // ---- text fields ----

  /** The field holds this text: it fills the field or ends at a NUL. */
  predicate Field(h: Bytes, start: nat, length: nat, s: Bytes) {
    && start + length <= |h| && |s| <= length && NulFree(s)
    && h[start..start + |s|] == s && (|s| < length ==> h[start + |s|] == 0)
  }

  lemma {:induction false} NulIsAt(t: Bytes, n: nat)
    requires n <= |t| && NulFree(t[..n]) && (n < |t| ==> t[n] == 0)
    ensures NulAt(t) == n
  {
    if n > 0 {
      assert t[..n][0] != 0;
      assert t[1..][..n - 1] == t[..n][1..];
      NulIsAt(t[1..], n - 1);
    }
  }

  lemma {:induction false} NulIsFound(t: Bytes)
    ensures NulFree(t[..NulAt(t)]) && (NulAt(t) < |t| ==> t[NulAt(t)] == 0)
  {
    if t != [] && t[0] != 0 {
      NulIsFound(t[1..]);
      var n := NulAt(t[1..]);
      var found := t[..n + 1];
      forall k | 0 <= k < |found| ensures found[k] != 0 {
        assert k > 0 ==> t[k] == t[1..][..n][k - 1];
      }
    }
  }

  lemma FieldReads(h: Bytes, start: nat, length: nat, s: Bytes)
    requires Field(h, start, length, s)
    ensures ReadString(h, start, length) == s
  {
    var t := h[start..start + length];
    assert t[..|s|] == s;
    NulIsAt(t, |s|);
  }

  lemma ReadIsField(h: Bytes, start: nat, length: nat)
    requires start + length <= |h|
    ensures Field(h, start, length, ReadString(h, start, length))
  {
    var t := h[start..start + length];
    NulIsFound(t);
    assert h[start..start + NulAt(t)] == t[..NulAt(t)];
  }

  // ---- number fields ----

  /** Tabs, line feeds, vertical tabs, form feeds, carriage returns and blanks. */
  predicate White(s: Bytes) {
    forall i :: 0 <= i < |s| ==> s[i] in {0x09, 0x0A, 0x0B, 0x0C, 0x0D, 0x20}
  }

  lemma WhiteExactly(b: Byte)
    ensures IsWhite(b) <==> b in {0x09, 0x0A, 0x0B, 0x0C, 0x0D, 0x20}
  {}

  /** The field holds the number in octal digits, with zeros before them and white space around. */
  predicate Shows(h: Bytes, start: nat, length: nat, n: nat, before: Bytes, width: nat, behind: Bytes) {
    White(before) && White(behind) && Field(h, start, length, before + (PadStart(OctalDigits(n), width) + behind))
  }

  ghost predicate Number(h: Bytes, start: nat, length: nat, n: nat) {
    n <= MAX_SAFE_INTEGER && exists before, width, behind :: Shows(h, start, length, n, before, width, behind)
  }

  lemma {:induction false} TrimsStart(before: Bytes, s: Bytes)
    requires White(before) && s != [] && !IsWhite(s[0])
    ensures TrimStart(before + s) == s
  {
    if before == [] {
      assert before + s == s;
    } else {
      assert (before + s)[1..] == before[1..] + s;
      TrimsStart(before[1..], s);
    }
  }

  lemma {:induction false} TrimsEnd(s: Bytes, behind: Bytes)
    requires White(behind) && s != [] && !IsWhite(s[|s| - 1])
    ensures TrimEnd(s + behind) == s
  {
    if behind == [] {
      assert s + behind == s;
    } else {
      var n := |behind| - 1;
      assert (s + behind)[..|s + behind| - 1] == s + behind[..n];
      TrimsEnd(s, behind[..n]);
    }
  }

  lemma {:induction false} StartIsTrimmed(s: Bytes) returns (before: Bytes)
    ensures White(before) && s == before + TrimStart(s)
  {
    if s != [] && IsWhite(s[0]) {
      before := StartIsTrimmed(s[1..]);
      before := [s[0]] + before;
    } else {
      before := [];
    }
  }

  lemma {:induction false} EndIsTrimmed(s: Bytes) returns (behind: Bytes)
    ensures White(behind) && s == TrimEnd(s) + behind
  {
    if s != [] && IsWhite(s[|s| - 1]) {
      behind := EndIsTrimmed(s[..|s| - 1]);
      behind := behind + [s[|s| - 1]];
    } else {
      behind := [];
    }
  }

  /** Octal digits are the digits of their value, with zeros before them. */
  lemma {:induction false} DigitsOfValue(d: Bytes)
    requires d != [] && AllOctal(d)
    ensures PadStart(OctalDigits(ParseOctal(d)), |d|) == d
  {
    var n := |d| - 1;
    var init, last := d[..n], d[n];
    assert d == init + [last] && AllOctal(init);
    if n == 0 {
      assert ParseOctal(d) == last - ZERO_DIGIT;
    } else {
      DigitsOfValue(init);
      OneMoreDigit(init, ParseOctal(init), last);
    }
  }

  lemma {:induction false} OneMoreDigit(init: Bytes, high: nat, last: Byte)
    requires init != [] && PadStart(OctalDigits(high), |init|) == init && ZERO_DIGIT <= last < ZERO_DIGIT + 8
    ensures PadStart(OctalDigits(8 * high + (last - ZERO_DIGIT)), |init| + 1) == init + [last]
  {
    DigitsSplit(high, last - ZERO_DIGIT);
    PadsLonger(OctalDigits(high), |init|, last);
  }

  lemma PadsLonger(digits: Bytes, width: nat, last: Byte)
    requires width > 0
    ensures PadStart(digits + [last], width + 1) == PadStart(digits, width) + [last]
    ensures digits == [ZERO_DIGIT] ==> PadStart([last], width + 1) == PadStart(digits, width) + [last]
  {
    if digits == [ZERO_DIGIT] {
      var p := PadStart(digits, width);
      assert p == seq(width, _ => ZERO_DIGIT);
    }
  }

  lemma {:induction false} DigitsSplit(high: nat, low: nat)
    requires low < 8
    ensures high > 0 ==> OctalDigits(8 * high + low) == OctalDigits(high) + [ZERO_DIGIT + low]
    ensures high == 0 ==> OctalDigits(8 * high + low) == [ZERO_DIGIT + low] && OctalDigits(high) == [ZERO_DIGIT]
  {
    assert (8 * high + low) / 8 == high && (8 * high + low) % 8 == low;
  }

  lemma {:induction false} PaddedValue(n: nat, width: nat)
    ensures var d := PadStart(OctalDigits(n), width); d != [] && AllOctal(d) && ParseOctal(d) == n
  {
    OctalRoundTrip(n);
    ParseLeadingZeros(if |OctalDigits(n)| < width then width - |OctalDigits(n)| else 0, OctalDigits(n));
  }

  lemma NumberReads(h: Bytes, start: nat, length: nat, n: nat)
    requires Number(h, start, length, n)
    ensures start + length <= |h| && ReadOctal(h, start, length) == Some(n)
  {
    var before, width, behind :| Shows(h, start, length, n, before, width, behind);
    var d := PadStart(OctalDigits(n), width);
    PaddedValue(n, width);
    FieldReads(h, start, length, before + (d + behind));
    TrimsStart(before, d + behind);
    TrimsEnd(d, behind);
  }

  lemma ReadIsNumber(h: Bytes, start: nat, length: nat)
    requires start + length <= |h| && ReadOctal(h, start, length).Some?
    ensures Number(h, start, length, ReadOctal(h, start, length).value)
  {
    var s := ReadString(h, start, length);
    var before := StartIsTrimmed(s);
    var behind := EndIsTrimmed(TrimStart(s));
    var d := TrimEnd(TrimStart(s));
    ReadIsField(h, start, length);
    DigitsOfValue(d);
    assert Shows(h, start, length, ParseOctal(d), before, |d|, behind);
  }

  /** A field is read as a number exactly when it holds that number. */
  lemma NumberExactly(h: Bytes, start: nat, length: nat, n: nat)
    requires start + length <= |h|
    ensures ReadOctal(h, start, length) == Some(n) <==> Number(h, start, length, n)
  {
    if ReadOctal(h, start, length) == Some(n) {
      ReadIsNumber(h, start, length);
    }
    if Number(h, start, length, n) {
      NumberReads(h, start, length, n);
    }
  }

  // ---- the checksum ----

  /** The sum of the bytes of a header, those of its checksum field counted as blanks. */
  function SumOf(h: Bytes): nat
    requires |h| == BLOCK
  {
    ByteSum(h[..148]) + 8 * 0x20 + ByteSum(h[156..])
  }

  lemma {:induction false} SumOfParts(a: Bytes, b: Bytes)
    ensures ByteSum(a + b) == ByteSum(a) + ByteSum(b)
  {
    if b == [] {
      assert a + b == a;
    } else {
      var n := |b| - 1;
      assert (a + b)[..|a + b| - 1] == a + b[..n];
      SumOfParts(a, b[..n]);
    }
  }

  lemma {:induction false} SumOfSame(b: Byte, n: nat)
    ensures ByteSum(seq(n, _ => b)) == n * b
  {
    if n > 0 {
      assert seq(n, _ => b)[..n - 1] == seq(n - 1, _ => b);
      SumOfSame(b, n - 1);
    }
  }

  lemma MaskedSum(h: Bytes)
    requires |h| == BLOCK
    ensures ByteSum(Masked(h)) == SumOf(h)
  {
    var blanks: Bytes := seq(8, _ => SPACE);
    assert Masked(h) == (h[..148] + blanks) + h[156..];
    SumOfParts(h[..148] + blanks, h[156..]);
    SumOfParts(h[..148], blanks);
    SumOfSame(SPACE, 8);
  }

  // ---- headers ----

  /** The kinds the type flag of the format names: '0' or NUL a file, '5' a directory, '2' a symbolic
      link, '3', '4' and '6' a device. */
  predicate Names(flag: Byte, kind: Kind) {
    match kind
    case Regular => flag == 0x30 || flag == 0
    case Directory => flag == 0x35
    case Symlink => flag == 0x32
    case Device => flag == 0x33 || flag == 0x34 || flag == 0x36
    case Other => flag != 0 && flag != 0x30 && !(0x32 <= flag <= 0x36)
  }

  /** One entry of an archive, in the terms of the format. */
  datatype Member = Member(name: Bytes, prefix: Bytes, flag: Byte, kind: Kind, contents: Bytes)

  function PathOf(m: Member): Bytes {
    if m.prefix == [] then m.name else m.prefix + [SLASH] + m.name
  }

  /** The block is a header of the entry: whoever wrote it, its fields say so, and its checksum is
      its own sum. */
  ghost predicate IsHeader(h: Bytes, m: Member) {
    && |h| == BLOCK && Field(h, 0, 100, m.name) && Field(h, 345, 155, m.prefix)
    && h[156] == m.flag && Names(m.flag, m.kind)
    && Number(h, 124, 12, |m.contents|) && Number(h, 148, 8, SumOf(h))
  }

  lemma HeaderIsRead(h: Bytes, m: Member)
    requires IsHeader(h, m)
    ensures ReadHeader(h) == Ok((PathOf(m), m.kind, |m.contents|))
  {
    FieldReads(h, 0, 100, m.name);
    FieldReads(h, 345, 155, m.prefix);
    NumberReads(h, 124, 12, |m.contents|);
    NumberReads(h, 148, 8, SumOf(h));
    MaskedSum(h);
    FieldsMakeHeader(h, m.name, m.prefix, m.kind, |m.contents|, SumOf(h));
  }

  lemma FieldsMakeHeader(h: Bytes, name: Bytes, prefix: Bytes, kind: Kind, size: nat, sum: nat)
    requires |h| == BLOCK && ReadString(h, 0, NAME_LENGTH) == name && ReadString(h, 345, 155) == prefix
    requires ReadOctal(h, 148, 8) == Some(sum) && ChecksumHolds(h, sum)
    requires ReadOctal(h, 124, 12) == Some(size) && KindOf(h[156]) == kind
    ensures ReadHeader(h) == Ok((if prefix != [] then prefix + [SLASH] + name else name, kind, size))
  {}

  /** A header that holds a number is no zero block. */
  lemma NumberIsNotZero(h: Bytes, start: nat, length: nat, n: nat)
    requires Number(h, start, length, n)
    ensures !AllZero(h)
  {
    var before, width, behind :| Shows(h, start, length, n, before, width, behind);
    var s := before + (PadStart(OctalDigits(n), width) + behind);
    PaddedValue(n, width);
    assert s[0] != 0 && h[start] == h[start..start + |s|][0];
  }

  /** A header with these fields and nothing else but its own checksum. */
  function Unsummed(m: Member): (h: Bytes)
    requires |m.name| <= 100 && |m.prefix| <= 155
    ensures |h| == BLOCK
  {
    Set(Set(Set(Set(Zeros(BLOCK), 0, m.name), 124, OctalField(|m.contents|, 12)), 156, [m.flag]), 345, m.prefix)
  }

  function HeaderOf(m: Member): (h: Bytes)
    requires |m.name| <= 100 && |m.prefix| <= 155
    ensures |h| == BLOCK
  {
    Set(Unsummed(m), 148, ChecksumField(SumOf(Unsummed(m))))
  }

  /** Where a value has been set into zeros the field holds it. */
  lemma SetField(h: Bytes, start: nat, length: nat, s: Bytes, padded: Bytes)
    requires start + length <= |h| && |s| <= length && NulFree(s) && s <= padded && |padded| <= length
    requires |s| < |padded| ==> padded[|s|] == 0
    requires forall k :: start <= k < start + length ==> h[k] == 0
    ensures Field(Set(h, start, padded), start, length, s)
  {
    var r := Set(h, start, padded);
    assert r[start..start + |s|] == s;
  }

  lemma FieldKept(h: Bytes, offset: nat, value: Bytes, start: nat, length: nat, s: Bytes)
    requires Field(h, start, length, s) && offset + |value| <= |h|
    requires start + length <= offset || offset + |value| <= start
    ensures Field(Set(h, offset, value), start, length, s)
  {
    SetOutside(h, offset, value, start, start + |s|);
  }

  lemma SumUnaffected(h: Bytes, field: Bytes)
    requires |h| == BLOCK && |field| <= 8
    ensures SumOf(Set(h, 148, field)) == SumOf(h)
  {
    SetOutside(h, 148, field, 0, 148);
    SetOutside(h, 148, field, 156, BLOCK);
    assert Set(h, 148, field)[..148] == h[..148] && Set(h, 148, field)[156..] == h[156..];
  }

  lemma SumIsSmall(h: Bytes)
    requires |h| == BLOCK
    ensures SumOf(h) < Power8(6)
  {
    SumBound(h[..148]);
    SumBound(h[156..]);
    PowersOfEight();
  }

  lemma DigitsShow(h: Bytes, start: nat, length: nat, n: nat, width: nat)
    requires n <= MAX_SAFE_INTEGER && Field(h, start, length, PadStart(OctalDigits(n), width))
    ensures Number(h, start, length, n)
  {
    var d := PadStart(OctalDigits(n), width);
    assert [] + (d + []) == d;
    assert Shows(h, start, length, n, [], width, []);
  }

  lemma DigitsAreNulFree(n: nat, width: nat)
    ensures NulFree(PadStart(OctalDigits(n), width))
  {
    PaddedValue(n, width);
  }

  lemma NameShown(m: Member)
    requires |m.name| <= 100 && |m.prefix| <= 155 && NulFree(m.name) && |OctalField(|m.contents|, 12)| == 11
    ensures Field(Unsummed(m), 0, 100, m.name)
  {
    var digits := OctalField(|m.contents|, 12);
    var h1 := Set(Zeros(BLOCK), 0, m.name);
    var h2 := Set(h1, 124, digits);
    SetField(Zeros(BLOCK), 0, 100, m.name, m.name);
    FieldKept(h1, 124, digits, 0, 100, m.name);
    FieldKept(h2, 156, [m.flag], 0, 100, m.name);
    FieldKept(Set(h2, 156, [m.flag]), 345, m.prefix, 0, 100, m.name);
  }

  lemma SizeShown(m: Member)
    requires |m.name| <= 100 && |m.prefix| <= 155
    requires |OctalField(|m.contents|, 12)| == 11 && NulFree(OctalField(|m.contents|, 12))
    ensures Field(Unsummed(m), 124, 12, OctalField(|m.contents|, 12))
  {
    var digits := OctalField(|m.contents|, 12);
    var h1 := Set(Zeros(BLOCK), 0, m.name);
    var h2 := Set(h1, 124, digits);
    SetField(h1, 124, 12, digits, digits);
    FieldKept(h2, 156, [m.flag], 124, 12, digits);
    FieldKept(Set(h2, 156, [m.flag]), 345, m.prefix, 124, 12, digits);
  }

  lemma RestShown(m: Member)
    requires |m.name| <= 100 && |m.prefix| <= 155 && NulFree(m.prefix) && |OctalField(|m.contents|, 12)| == 11
    ensures var h := Unsummed(m);
      Field(h, 345, 155, m.prefix) && h[156] == m.flag && forall k :: 148 <= k < 156 ==> h[k] == 0
  {
    var h2 := Set(Set(Zeros(BLOCK), 0, m.name), 124, OctalField(|m.contents|, 12));
    SetField(Set(h2, 156, [m.flag]), 345, 155, m.prefix, m.prefix);
  }

  /** The fields of the unsummed header; a size of at most eleven octal digits fits its field. */
  lemma UnsummedFields(m: Member)
    requires |m.name| <= 100 && |m.prefix| <= 155 && NulFree(m.name) && NulFree(m.prefix)
    requires |m.contents| < Power8(11)
    ensures var h := Unsummed(m);
      && Field(h, 0, 100, m.name) && Field(h, 345, 155, m.prefix) && h[156] == m.flag
      && Field(h, 124, 12, PadStart(OctalDigits(|m.contents|), 11))
      && forall k :: 148 <= k < 156 ==> h[k] == 0
  {
    PaddedRoundTrip(|m.contents|, 11);
    DigitsAreNulFree(|m.contents|, 11);
    assert OctalField(|m.contents|, 12) == PadStart(OctalDigits(|m.contents|), 11);
    NameShown(m);
    SizeShown(m);
    RestShown(m);
  }

  /** So for all names and prefixes without NUL that fit, every flag and every size of up to eleven
      octal digits there is a header, and the reader takes the prefix, a slash and the name. */
  lemma HeaderOfIsRead(m: Member)
    requires |m.name| <= 100 && |m.prefix| <= 155 && NulFree(m.name) && NulFree(m.prefix)
    requires |m.contents| < Power8(11) && Names(m.flag, m.kind)
    ensures IsHeader(HeaderOf(m), m) && ReadHeader(HeaderOf(m)) == Ok((PathOf(m), m.kind, |m.contents|))
  {
    var b, h, size := Unsummed(m), HeaderOf(m), |m.contents|;
    var sum := SumOf(b);
    var field, digits := ChecksumField(sum), PadStart(OctalDigits(sum), 6);
    UnsummedFields(m);
    FieldKept(b, 148, field, 0, 100, m.name);
    FieldKept(b, 148, field, 345, 155, m.prefix);
    FieldKept(b, 148, field, 124, 12, PadStart(OctalDigits(size), 11));
    PowersOfEight();
    DigitsShow(h, 124, 12, size, 11);
    SumIsSmall(b);
    SumUnaffected(b, field);
    PaddedRoundTrip(sum, 6);
    DigitsAreNulFree(sum, 6);
    assert field == digits + [0, SPACE];
    SetField(b, 148, 8, digits, field);
    DigitsShow(h, 148, 8, sum, 6);
    HeaderIsRead(h, m);
  }

  /** Why a block is refused: its checksum field or its size field is no number, or the checksum is
      not its own sum; nothing else matters. */
  lemma RefusedExactly(h: Bytes)
    requires |h| == BLOCK
    ensures ReadHeader(h) == Err(InvalidChecksum) <==> exists n: nat :: Number(h, 148, 8, n) && n != SumOf(h)
    ensures ReadHeader(h) == Err(InvalidNumber) <==>
      || !(exists n: nat :: Number(h, 148, 8, n))
      || (Number(h, 148, 8, SumOf(h)) && !(exists n: nat :: Number(h, 124, 12, n)))
    ensures ReadHeader(h).Err? ==> ReadHeader(h).failure in {InvalidChecksum, InvalidNumber}
  {
    MaskedSum(h);
    forall n: nat ensures ReadOctal(h, 148, 8) == Some(n) <==> Number(h, 148, 8, n) {
      NumberExactly(h, 148, 8, n);
    }
    forall n: nat ensures ReadOctal(h, 124, 12) == Some(n) <==> Number(h, 124, 12, n) {
      NumberExactly(h, 124, 12, n);
    }
  }

  // ---- archives ----

  /** The bytes of one entry: a header, the contents, and whatever fills the last block. */
  ghost predicate Encodes(bytes: Bytes, m: Member) {
    && |bytes| == BLOCK + |m.contents| + Padding(|m.contents|)
    && IsHeader(bytes[..BLOCK], m) && bytes[BLOCK..BLOCK + |m.contents|] == m.contents
  }

  /** The bytes are those of the entries, one behind the other. */
  ghost predicate Lays(parts: seq<Bytes>, ms: seq<Member>) {
    |parts| == |ms| && forall i :: 0 <= i < |ms| ==> Encodes(parts[i], ms[i])
  }

  function Joined(parts: seq<Bytes>): Bytes {
    if parts == [] then [] else Joined(parts[..|parts| - 1]) + parts[|parts| - 1]
  }

  function EntryFor(m: Member): Entry {
    Entry(PathOf(m), m.kind, m.contents)
  }

  function EntriesFor(ms: seq<Member>): seq<Entry> {
    seq(|ms|, i requires 0 <= i < |ms| => EntryFor(ms[i]))
  }

  lemma MemberLeads(bytes: Bytes, m: Member, tail: Bytes)
    requires Encodes(bytes, m)
    ensures Leads(bytes + tail, EntryFor(m), |m.contents|, tail)
  {
    var h, rest := bytes[..BLOCK], bytes + tail;
    HeaderIsRead(h, m);
    NumberIsNotZero(h, 148, 8, SumOf(h));
    PaddedSize(|m.contents|);
    assert rest[..BLOCK] == h && rest[BLOCK..BLOCK + |m.contents|] == m.contents;
    assert rest[|bytes|..] == tail;
  }

  lemma PrependTwice(first: seq<Entry>, entry: Entry, more: Result<seq<Entry>>)
    ensures Prepend(first, Prepend([entry], more)) == Prepend(first + [entry], more)
  {
    if more.Ok? {
      assert first + ([entry] + more.value) == first + [entry] + more.value;
    }
  }

  /** The bytes are read as these entries, whatever follows them. */
  ghost predicate ReadAs(bytes: Bytes, entries: seq<Entry>) {
    forall tail :: Entries(bytes + tail) == Prepend(entries, Entries(tail))
  }

  lemma {:induction false} BothAreRead(a: Bytes, x: seq<Entry>, b: Bytes, e: Entry, c: Bytes, z: seq<Entry>)
    requires ReadAs(a, x) && ReadAs(b, [e]) && c == a + b && z == x + [e]
    ensures ReadAs(c, z)
  {
    forall tail ensures Entries(c + tail) == Prepend(z, Entries(tail)) {
      BothBefore(a, x, b, e, tail, Entries(a + b + tail), Entries(b + tail), Entries(tail));
    }
  }

  lemma {:induction false} BothBefore(a: Bytes, x: seq<Entry>, b: Bytes, e: Entry, tail: Bytes,
                                      all: Result<seq<Entry>>, some: Result<seq<Entry>>, more: Result<seq<Entry>>)
    requires ReadAs(a, x) && ReadAs(b, [e])
    requires all == Entries(a + b + tail) && some == Entries(b + tail) && more == Entries(tail)
    ensures all == Prepend(x + [e], more)
  {
    Concat3(a, b, tail);
    assert all == Prepend(x, some) && some == Prepend([e], more);
    PrependTwice(x, e, more);
  }

  lemma {:induction false} MembersAreRead(parts: seq<Bytes>, ms: seq<Member>)
    requires Lays(parts, ms)
    ensures ReadAs(Joined(parts), EntriesFor(ms))
    decreases |ms|
  {
    if ms == [] {
      NothingIsRead();
    } else {
      var n := |ms| - 1;
      MembersAreRead(parts[..n], ms[..n]);
      MemberIsReadAs(parts[n], ms[n]);
      LastEntry(ms);
      BothAreRead(Joined(parts[..n]), EntriesFor(ms[..n]), parts[n], EntryFor(ms[n]), Joined(parts), EntriesFor(ms));
    }
  }

  lemma NothingIsRead()
    ensures EntriesFor([]) == [] && ReadAs(Joined([]), [])
  {
    forall tail ensures Entries(Joined([]) + tail) == Prepend([], Entries(tail)) {
      NothingBefore(tail);
    }
  }

  lemma MemberIsReadAs(bytes: Bytes, m: Member)
    requires Encodes(bytes, m)
    ensures ReadAs(bytes, [EntryFor(m)])
  {
    forall tail ensures Entries(bytes + tail) == Prepend([EntryFor(m)], Entries(tail)) {
      MemberIsRead(bytes, m, tail);
    }
  }

  lemma MemberIsRead(bytes: Bytes, m: Member, tail: Bytes)
    requires Encodes(bytes, m)
    ensures Entries(bytes + tail) == Prepend([EntryFor(m)], Entries(tail))
  {
    MemberLeads(bytes, m, tail);
    ReadsOne(bytes + tail, EntryFor(m), |m.contents|, tail);
  }

  lemma LastEntry(ms: seq<Member>)
    requires ms != []
    ensures EntriesFor(ms) == EntriesFor(ms[..|ms| - 1]) + [EntryFor(ms[|ms| - 1])]
  {}

  lemma NothingBefore(tail: Bytes)
    ensures Joined([]) + tail == tail && EntriesFor([]) == []
    ensures Prepend([], Entries(tail)) == Entries(tail)
  {
    if Entries(tail).Ok? {
      assert [] + Entries(tail).value == Entries(tail).value;
    }
  }

  /** An archive may end where its last entry does, or with at least one block of zeros. */
  predicate Terminates(end: Bytes) {
    end == [] || (|end| >= BLOCK && AllZero(end))
  }

  lemma TerminatorIsRead(end: Bytes)
    requires Terminates(end)
    ensures Entries(end) == Ok([])
  {
    if end != [] {
      assert AllZero(end[..BLOCK]);
    }
  }

  /** What the policy gets to see. */
  function ListingOf(ms: seq<Member>): seq<(Bytes, Kind, nat)> {
    seq(|ms|, i requires 0 <= i < |ms| => (PathOf(ms[i]), ms[i].kind, |ms[i].contents|))
  }

  predicate Acceptable(m: Member, safe: Safety) {
    m.kind.Directory? || (m.kind.Regular? && safe(PathOf(m)))
  }

  /** The files under their full paths; of two files with one path the later counts, and
      directories add nothing. */
  ghost predicate IsFileMap(ms: seq<Member>, files: map<Bytes, Bytes>) {
    && (forall path :: path in files <==> exists i :: 0 <= i < |ms| && HasPath(ms, i, path))
    && (forall i :: 0 <= i < |ms| && !ms[i].kind.Directory? && IsLast(ms, i) ==>
          PathOf(ms[i]) in files && files[PathOf(ms[i])] == ms[i].contents)
  }

  predicate IsLast(ms: seq<Member>, i: nat)
    requires i < |ms|
  {
    forall j :: i < j < |ms| && !ms[j].kind.Directory? ==> PathOf(ms[j]) != PathOf(ms[i])
  }

  lemma {:induction false} FilesAreCollected(ms: seq<Member>, safe: Safety)
    requires forall i :: 0 <= i < |ms| ==> Acceptable(ms[i], safe)
    ensures Collect(EntriesFor(ms), safe).Ok? && IsFileMap(ms, Collect(EntriesFor(ms), safe).value)
  {
    if ms != [] {
      var n := |ms| - 1;
      FilesAreCollected(ms[..n], safe);
      assert EntriesFor(ms)[..n] == EntriesFor(ms[..n]);
      FileMapGrows(ms, Collect(EntriesFor(ms[..n]), safe).value);
    }
  }

  predicate HasPath(ms: seq<Member>, i: nat, path: Bytes)
    requires i < |ms|
  {
    !ms[i].kind.Directory? && PathOf(ms[i]) == path
  }

  lemma PathsGrow(less: seq<Member>, last: Member, ms: seq<Member>, path: Bytes)
    requires ms == less + [last]
    ensures (exists i :: 0 <= i < |ms| && HasPath(ms, i, path))
      <==> (exists i :: 0 <= i < |less| && HasPath(less, i, path)) || (!last.kind.Directory? && PathOf(last) == path)
  {
    if i :| 0 <= i < |less| && HasPath(less, i, path) {
      assert HasPath(ms, i, path);
    }
    if i :| 0 <= i < |ms| && HasPath(ms, i, path) {
      assert i < |less| ==> HasPath(less, i, path);
    }
    assert HasPath(ms, |less|, path) <==> !last.kind.Directory? && PathOf(last) == path;
  }

  lemma LastOfLess(ms: seq<Member>, i: nat)
    requires i < |ms| - 1 && IsLast(ms, i)
    ensures IsLast(ms[..|ms| - 1], i)
    ensures !ms[|ms| - 1].kind.Directory? ==> PathOf(ms[|ms| - 1]) != PathOf(ms[i])
  {
    var less := ms[..|ms| - 1];
    forall j | i < j < |less| && !less[j].kind.Directory? ensures PathOf(less[j]) != PathOf(less[i]) {
      assert less[j] == ms[j];
    }
  }

  lemma FileMapGrows(ms: seq<Member>, files: map<Bytes, Bytes>)
    requires ms != [] && IsFileMap(ms[..|ms| - 1], files)
    ensures var last := ms[|ms| - 1];
      IsFileMap(ms, if last.kind.Directory? then files else files[PathOf(last) := last.contents])
  {
    var n := |ms| - 1;
    var less, last := ms[..n], ms[n];
    var more := if last.kind.Directory? then files else files[PathOf(last) := last.contents];
    forall path ensures path in more <==> exists i :: 0 <= i < |ms| && HasPath(ms, i, path) {
      PathsGrow(less, last, ms, path);
    }
    forall i | 0 <= i < |ms| && !ms[i].kind.Directory? && IsLast(ms, i)
      ensures PathOf(ms[i]) in more && more[PathOf(ms[i])] == ms[i].contents
    {
      LastIsFound(ms, files, more, i);
    }
  }

  lemma LastIsFound(ms: seq<Member>, files: map<Bytes, Bytes>, more: map<Bytes, Bytes>, i: nat)
    requires i < |ms| && IsFileMap(ms[..|ms| - 1], files) && !ms[i].kind.Directory? && IsLast(ms, i)
    requires var last := ms[|ms| - 1];
      more == if last.kind.Directory? then files else files[PathOf(last) := last.contents]
    ensures PathOf(ms[i]) in more && more[PathOf(ms[i])] == ms[i].contents
  {
    if i < |ms| - 1 {
      LastOfLess(ms, i);
      assert ms[..|ms| - 1][i] == ms[i];
    }
  }

  lemma {:induction false} UnsafeIsRefused(ms: seq<Member>, safe: Safety)
    requires exists i :: 0 <= i < |ms| && !Acceptable(ms[i], safe)
    ensures Collect(EntriesFor(ms), safe) == Err(UnsafeEntry)
  {
    var n := |ms| - 1;
    var less := ms[..n];
    assert EntriesFor(ms)[..n] == EntriesFor(less);
    if forall i :: 0 <= i < n ==> Acceptable(less[i], safe) {
      FilesAreCollected(less, safe);
    } else {
      UnsafeIsRefused(less, safe);
    }
  }

  /** Any well-formed archive is read as its files under their full paths, if the policy accepts its
      listing and every entry is a directory or a safe file; else it is refused. */
  lemma ArchiveIsRead(parts: seq<Bytes>, ms: seq<Member>, end: Bytes, policy: Policy, safe: Safety)
    requires Lays(parts, ms) && Terminates(end)
    ensures var r := ReadArchive(Joined(parts) + end, policy, safe);
      if !policy(ListingOf(ms)) then r == Err(RefusedByPolicy)
      else if forall i :: 0 <= i < |ms| ==> Acceptable(ms[i], safe) then r.Ok? && IsFileMap(ms, r.value)
      else r == Err(UnsafeEntry)
  {
    MembersAreRead(parts, ms);
    TerminatorIsRead(end);
    assert EntriesFor(ms) + [] == EntriesFor(ms);
    assert Listing(EntriesFor(ms)) == ListingOf(ms);
    if forall i :: 0 <= i < |ms| ==> Acceptable(ms[i], safe) {
      FilesAreCollected(ms, safe);
    } else {
      UnsafeIsRefused(ms, safe);
    }
  }

  // ---- damaged archives ----

  /** The reading of what follows some entries decides whether the archive fails. */
  lemma FailureIsPassedOn(parts: seq<Bytes>, ms: seq<Member>, tail: Bytes, policy: Policy, safe: Safety)
    requires Lays(parts, ms) && Entries(tail).Err?
    ensures ReadArchive(Joined(parts) + tail, policy, safe) == Err(Entries(tail).failure)
  {
    MembersAreRead(parts, ms);
  }

  /** Behind any entries, a block whose checksum is not its own sum is refused. */
  lemma WrongChecksumIsRefused(
      parts: seq<Bytes>, ms: seq<Member>, h: Bytes, n: nat, rest: Bytes, policy: Policy, safe: Safety)
    requires Lays(parts, ms) && |h| == BLOCK && Number(h, 148, 8, n) && n != SumOf(h)
    ensures ReadArchive(Joined(parts) + (h + rest), policy, safe) == Err(InvalidChecksum)
  {
    RefusedExactly(h);
    NumberIsNotZero(h, 148, 8, n);
    BadBlock(h, rest);
    FailureIsPassedOn(parts, ms, h + rest, policy, safe);
  }

  lemma {:induction false} BadBlock(h: Bytes, rest: Bytes)
    requires |h| == BLOCK && !AllZero(h) && ReadHeader(h).Err?
    ensures Entries(h + rest) == Err(ReadHeader(h).failure)
  {
    assert (h + rest)[..BLOCK] == h;
  }

  /** So is a block other than the zero block whose checksum or size field holds no number. */
  lemma NoNumberIsRefused(
      parts: seq<Bytes>, ms: seq<Member>, h: Bytes, rest: Bytes, policy: Policy, safe: Safety)
    requires Lays(parts, ms) && |h| == BLOCK && !AllZero(h)
    requires !(exists n: nat :: Number(h, 148, 8, n))
      || (Number(h, 148, 8, SumOf(h)) && !(exists n: nat :: Number(h, 124, 12, n)))
    ensures ReadArchive(Joined(parts) + (h + rest), policy, safe) == Err(InvalidNumber)
  {
    RefusedExactly(h);
    BadBlock(h, rest);
    FailureIsPassedOn(parts, ms, h + rest, policy, safe);
  }

  /** Data behind a block of zeros is refused. */
  lemma DataBehindZerosIsRefused(parts: seq<Bytes>, ms: seq<Member>, rest: Bytes, policy: Policy, safe: Safety)
    requires Lays(parts, ms) && !AllZero(rest)
    ensures ReadArchive(Joined(parts) + (Zeros(BLOCK) + rest), policy, safe) == Err(DataAfterTerminator)
  {
    var tail := Zeros(BLOCK) + rest;
    assert tail[..BLOCK] == Zeros(BLOCK);
    var i :| 0 <= i < |rest| && rest[i] != 0;
    assert tail[BLOCK + i] != 0;
    FailureIsPassedOn(parts, ms, tail, policy, safe);
  }

  /** An archive cut off within its last entry is refused, unless only the filling of the last
      block is missing. */
  lemma CutOffExactly(parts: seq<Bytes>, ms: seq<Member>, last: Bytes, m: Member, n: nat, policy: Policy, safe: Safety)
    requires Lays(parts, ms) && Encodes(last, m) && 0 < n <= |last|
    ensures n < BLOCK ==> ReadArchive(Joined(parts) + last[..n], policy, safe) == Err(TruncatedHeader)
    ensures BLOCK <= n < BLOCK + |m.contents| ==>
      ReadArchive(Joined(parts) + last[..n], policy, safe) == Err(TruncatedEntry)
    ensures n >= BLOCK + |m.contents| ==>
      ReadArchive(Joined(parts) + last[..n], policy, safe) == ReadArchive(Joined(parts) + last, policy, safe)
  {
    if n < BLOCK + |m.contents| {
      CutFails(last, m, n);
      FailureIsPassedOn(parts, ms, last[..n], policy, safe);
    } else {
      FillingDoesNotMatter(last, m, n);
      SameTailSameArchive(parts, ms, last[..n], last, policy, safe);
    }
  }

  lemma SameTailSameArchive(parts: seq<Bytes>, ms: seq<Member>, a: Bytes, b: Bytes, policy: Policy, safe: Safety)
    requires Lays(parts, ms) && Entries(a) == Entries(b)
    ensures ReadArchive(Joined(parts) + a, policy, safe) == ReadArchive(Joined(parts) + b, policy, safe)
  {
    MembersAreRead(parts, ms);
  }

  lemma CutFails(last: Bytes, m: Member, n: nat)
    requires Encodes(last, m) && 0 < n < BLOCK + |m.contents|
    ensures Entries(last[..n]) == Err(if n < BLOCK then TruncatedHeader else TruncatedEntry)
  {
    var h := last[..BLOCK];
    HeaderIsRead(h, m);
    NumberIsNotZero(h, 148, 8, SumOf(h));
    assert n >= BLOCK ==> last[..n][..BLOCK] == h;
    CutEntry(last[..n], h, m);
  }

  lemma {:induction false} CutEntry(cut: Bytes, h: Bytes, m: Member)
    requires IsHeader(h, m) && ReadHeader(h) == Ok((PathOf(m), m.kind, |m.contents|)) && !AllZero(h)
    requires cut != [] && |cut| < BLOCK + |m.contents| && (|cut| >= BLOCK ==> cut[..BLOCK] == h)
    ensures Entries(cut) == Err(if |cut| < BLOCK then TruncatedHeader else TruncatedEntry)
  {}

  lemma FillingDoesNotMatter(last: Bytes, m: Member, n: nat)
    requires Encodes(last, m) && BLOCK + |m.contents| <= n <= |last|
    ensures Entries(last[..n]) == Entries(last)
  {
    var cut, size := last[..n], |m.contents|;
    MemberLeads(last, m, []);
    assert last + [] == last;
    PaddedSize(size);
    assert cut[..BLOCK] == last[..BLOCK] && cut[BLOCK..BLOCK + size] == last[BLOCK..BLOCK + size];
    assert n == |last| ==> cut[|last|..] == [];
    ReadsOne(last, EntryFor(m), size, []);
    ReadsOne(cut, EntryFor(m), size, []);
  }
}
