/** Reading back what the exporter writes. */
module UstarRoundTrip {
  import opened Prelude
  import opened Ustar

  // ---- octal fields ----

  lemma {:induction false} OctalRoundTrip(n: nat)
    ensures ParseOctal(OctalDigits(n)) == n
  {
    if n >= 8 {
      OctalRoundTrip(n / 8);
      var d := OctalDigits(n);
      assert d[..|d| - 1] == OctalDigits(n / 8);
    } else {
      assert OctalDigits(n)[..0] == [];
    }
  }

  lemma {:induction false} ParseLeadingZeros(k: nat, d: Bytes)
    requires AllOctal(d)
    ensures AllOctal(seq(k, _ => ZERO_DIGIT) + d)
    ensures ParseOctal(seq(k, _ => ZERO_DIGIT) + d) == ParseOctal(d)
    decreases k + |d|
  {
    var z := seq(k, _ => ZERO_DIGIT);
    if d != [] {
      ParseLeadingZeros(k, d[..|d| - 1]);
      assert (z + d)[..|z + d| - 1] == z + d[..|d| - 1];
    } else if k > 0 {
      ParseLeadingZeros(k - 1, []);
      assert (z + [])[..k - 1] == seq(k - 1, _ => ZERO_DIGIT) + [];
    }
  }

  lemma {:induction false} OctalLength(n: nat, k: nat)
    requires k >= 1 && n < Power8(k)
    ensures |OctalDigits(n)| <= k
    decreases k
  {
    if n >= 8 {
      OctalLength(n / 8, k - 1);
    }
  }

  /** A padded octal number of at most `width` digits, read back. */
  lemma {:induction false} PaddedRoundTrip(n: nat, width: nat)
    requires width >= 1 && n < Power8(width)
    ensures var p := PadStart(OctalDigits(n), width);
            |p| == width && AllOctal(p) && ParseOctal(p) == n
  {
    OctalRoundTrip(n);
    OctalLength(n, width);
    ParseLeadingZeros(width - |OctalDigits(n)|, OctalDigits(n));
  }

  lemma {:induction false} SumBound(s: Bytes)
    ensures ByteSum(s) <= 255 * |s|
  {
    if s != [] {
      SumBound(s[..|s| - 1]);
    }
  }

  // ---- strings ----

  predicate NulFree(s: Bytes) {
    forall i :: 0 <= i < |s| ==> s[i] != 0
  }

  /** Zeros after a string do not change what is read. */
  lemma {:induction false} NulPadded(s: Bytes, zeros: Bytes)
    requires AllZero(zeros)
    ensures NulAt(s + zeros) == NulAt(s)
  {
    if s == [] {
      assert s + zeros == zeros;
    } else {
      assert (s + zeros)[1..] == s[1..] + zeros;
      NulPadded(s[1..], zeros);
    }
  }

  lemma CutPadded(s: Bytes, zeros: Bytes)
    requires AllZero(zeros)
    ensures CutAtNul(s + zeros) == CutAtNul(s)
  {
    NulPadded(s, zeros);
  }

  lemma {:induction false} NoNul(s: Bytes)
    requires NulFree(s)
    ensures NulAt(s) == |s|
  {
    if s != [] {
      NoNul(s[1..]);
    }
  }

  lemma CutNulFree(s: Bytes)
    requires NulFree(s)
    ensures CutAtNul(s) == s
  {
    NoNul(s);
  }

  lemma NoTrim(s: Bytes)
    requires s != [] && AllOctal(s)
    ensures TrimEnd(TrimStart(s)) == s
  {}

  /** A field that holds octal digits followed by a NUL reads as their value. */
  lemma ReadsNumber(header: Bytes, start: nat, length: nat, digits: Bytes, rest: Bytes)
    requires start + length <= |header| && header[start..start + length] == digits + [0] + rest
    requires digits != [] && AllOctal(digits) && ParseOctal(digits) <= MAX_SAFE_INTEGER
    ensures ReadOctal(header, start, length) == Some(ParseOctal(digits))
  {
    CutStops(digits, rest);
    NoTrim(digits);
  }

  lemma {:induction false} NulStops(s: Bytes, rest: Bytes)
    requires NulFree(s)
    ensures NulAt(s + [0] + rest) == |s|
  {
    if s == [] {
      assert s + [0] + rest == [0] + rest;
    } else {
      assert (s + [0] + rest)[1..] == s[1..] + [0] + rest;
      NulStops(s[1..], rest);
    }
  }

  lemma CutStops(s: Bytes, rest: Bytes)
    requires NulFree(s)
    ensures CutAtNul(s + [0] + rest) == s
  {
    NulStops(s, rest);
    assert (s + [0] + rest)[..|s|] == s;
  }

  // ---- the header ----

  lemma SetOutside(t: Bytes, offset: nat, value: Bytes, a: nat, b: nat)
    requires offset + |value| <= |t| && a <= b <= |t| && (b <= offset || offset + |value| <= a)
    ensures Set(t, offset, value)[a..b] == t[a..b]
  {}

  lemma SetTwice(t: Bytes, offset: nat, v: Bytes, w: Bytes)
    requires |v| <= |w| && offset + |w| <= |t| && t[offset..offset + |w|] == w
    ensures Set(Set(t, offset, v), offset, w) == t
  {
    var r := Set(Set(t, offset, v), offset, w);
    forall i | 0 <= i < |t| ensures r[i] == t[i] {
      if offset <= i < offset + |w| {
        assert t[offset..offset + |w|][i - offset] == w[i - offset];
      }
    }
  }

  lemma FrontSlices(name: Bytes, size: nat)
    requires |name| <= NAME_LENGTH
    ensures var h := FrontFields(Zeros(BLOCK), name, size);
            && h[0..NAME_LENGTH] == name + Zeros(NAME_LENGTH - |name|)
            && h[124..136] == OctalField(size, 12) + Zeros(12 - |OctalField(size, 12)|)
            && h[345..500] == Zeros(155)
  {
    var h1 := Set(Zeros(BLOCK), 0, name);
    var h2 := Set(h1, 100, OctalField(0x1A4, 8));
    var h3 := Set(h2, 108, OctalField(0, 8));
    var h4 := Set(h3, 116, OctalField(0, 8));
    var h5 := Set(h4, 124, OctalField(size, 12));
    assert h1[0..NAME_LENGTH] == name + Zeros(NAME_LENGTH - |name|);
    SetOutside(h1, 100, OctalField(0x1A4, 8), 0, NAME_LENGTH);
    SetOutside(h2, 108, OctalField(0, 8), 0, NAME_LENGTH);
    SetOutside(h3, 116, OctalField(0, 8), 0, NAME_LENGTH);
    SetOutside(h4, 124, OctalField(size, 12), 0, NAME_LENGTH);
    assert h5[124..136] == OctalField(size, 12) + Zeros(12 - |OctalField(size, 12)|);
    assert h5[345..500] == Zeros(155);
  }

  lemma BackSlices(header: Bytes, a: nat, b: nat)
    requires |header| == BLOCK && a <= b <= BLOCK && (b <= 136 || (265 <= a))
    ensures BackFields(header)[a..b] == header[a..b]
    ensures BackFields(header)[148..156] == seq(8, _ => SPACE)
    ensures BackFields(header)[156] == ZERO_DIGIT
  {
    var h1 := Set(header, 136, OctalField(0, 12));
    var h2 := Set(h1, 148, seq(8, _ => SPACE));
    var h3 := Set(h2, 156, [ZERO_DIGIT]);
    var h4 := Set(h3, 257, USTAR);
    SetOutside(header, 136, OctalField(0, 12), a, b);
    SetOutside(h1, 148, seq(8, _ => SPACE), a, b);
    SetOutside(h2, 156, [ZERO_DIGIT], a, b);
    SetOutside(h3, 257, USTAR, a, b);
    SetOutside(h4, 263, VERSION, a, b);
    assert h2[148..156] == seq(8, _ => SPACE);
    SetOutside(h2, 156, [ZERO_DIGIT], 148, 156);
    SetOutside(h3, 257, USTAR, 148, 156);
    SetOutside(h4, 263, VERSION, 148, 156);
  }

  /** What the reader finds in a finished header. */
  lemma HeaderSlices(name: Bytes, size: nat)
    requires |name| <= NAME_LENGTH
    ensures var h := Header(name, size);
            && h[0..NAME_LENGTH] == name + Zeros(NAME_LENGTH - |name|)
            && h[124..136] == OctalField(size, 12) + Zeros(12 - |OctalField(size, 12)|)
            && h[345..500] == Zeros(155)
            && h[156] == ZERO_DIGIT
    ensures BlankHeader(name, size)[148..156] == seq(8, _ => SPACE)
  {
    var front := FrontFields(Zeros(BLOCK), name, size);
    var blank := BackFields(front);
    var field := ChecksumField(ByteSum(blank));
    FrontSlices(name, size);
    BackSlices(front, 0, NAME_LENGTH);
    BackSlices(front, 124, 136);
    BackSlices(front, 345, 500);
    SetOutside(blank, 148, field, 0, NAME_LENGTH);
    SetOutside(blank, 148, field, 124, 136);
    SetOutside(blank, 148, field, 345, 500);
  }

  lemma ReadsName(header: Bytes, name: Bytes)
    requires |header| == BLOCK && |name| <= NAME_LENGTH
    requires header[0..NAME_LENGTH] == name + Zeros(NAME_LENGTH - |name|)
    ensures ReadString(header, 0, NAME_LENGTH) == CutAtNul(name)
  {
    CutPadded(name, Zeros(NAME_LENGTH - |name|));
  }

  lemma ReadsNoPrefix(header: Bytes)
    requires |header| == BLOCK && header[345..500] == Zeros(155)
    ensures ReadString(header, 345, 155) == []
  {
    assert header[345..500][0] == 0;
  }

  lemma PowersOfEight()
    ensures Power8(6) == 0x4_0000 && Power8(11) == 0x2_0000_0000
  {
    assert Power8(2) == 64;
    assert Power8(4) == 0x1000;
    assert Power8(6) == 0x4_0000;
    assert Power8(8) == 0x100_0000;
    assert Power8(10) == 0x4000_0000;
  }

  lemma ReadsSize(header: Bytes, size: nat)
    requires |header| == BLOCK && size < Power8(11)
    requires header[124..136] == OctalField(size, 12) + Zeros(12 - |OctalField(size, 12)|)
    ensures ReadOctal(header, 124, 12) == Some(size)
  {
    var digits := PadStart(OctalDigits(size), 11);
    PaddedRoundTrip(size, 11);
    assert OctalField(size, 12) == digits;
    assert Zeros(1) == [0] + [];
    assert header[124..136] == digits + [0] + [];
    PowersOfEight();
    ReadsNumber(header, 124, 12, digits, []);
  }

  /** A header's sum always fits into six octal digits: it is at most 512 * 255. */
  lemma ChecksumDigits(blank: Bytes) returns (digits: Bytes)
    requires |blank| == BLOCK
    ensures ChecksumField(ByteSum(blank)) == digits + [0] + [SPACE]
    ensures |digits| == 6 && AllOctal(digits) && ParseOctal(digits) == ByteSum(blank) <= MAX_SAFE_INTEGER
  {
    SumBound(blank);
    PowersOfEight();
    PaddedRoundTrip(ByteSum(blank), 6);
    digits := PadStart(OctalDigits(ByteSum(blank)), 6);
  }

  lemma ReadsChecksum(blank: Bytes, header: Bytes)
    requires |blank| == BLOCK == |header| && header[148..156] == ChecksumField(ByteSum(blank))
    ensures ReadOctal(header, 148, 8) == Some(ByteSum(blank))
  {
    var digits := ChecksumDigits(blank);
    ReadsNumber(header, 148, 8, digits, [SPACE]);
  }

  /** The writer sums the header with a blank checksum field; masking the field of the finished
      header gives the very same bytes. */
  lemma ChecksumAgrees(blank: Bytes, header: Bytes)
    requires |blank| == BLOCK && blank[148..156] == seq(8, _ => SPACE)
    requires header == Set(blank, 148, ChecksumField(ByteSum(blank)))
    ensures ReadOctal(header, 148, 8) == Some(ByteSum(blank)) && ChecksumHolds(header, ByteSum(blank))
  {
    var digits := ChecksumDigits(blank);
    assert header[148..156] == ChecksumField(ByteSum(blank));
    ReadsChecksum(blank, header);
    SetTwice(blank, 148, ChecksumField(ByteSum(blank)), seq(8, _ => SPACE));
  }

  lemma HeaderReads(header: Bytes, name: Bytes, size: nat, checksum: nat)
    requires |header| == BLOCK && |name| <= NAME_LENGTH && size < Power8(11)
    requires header[0..NAME_LENGTH] == name + Zeros(NAME_LENGTH - |name|)
    requires header[124..136] == OctalField(size, 12) + Zeros(12 - |OctalField(size, 12)|)
    requires header[345..500] == Zeros(155) && header[156] == ZERO_DIGIT
    requires ReadOctal(header, 148, 8) == Some(checksum) && ChecksumHolds(header, checksum)
    ensures ReadHeader(header) == Ok((CutAtNul(name), Regular, size))
  {
    ReadsName(header, name);
    ReadsNoPrefix(header);
    ReadsSize(header, size);
  }

  lemma HeaderRoundTrip(name: Bytes, size: nat)
    requires |name| <= NAME_LENGTH && size < Power8(11)
    ensures ReadHeader(Header(name, size)) == Ok((CutAtNul(name), Regular, size))
    ensures !AllZero(Header(name, size))
  {
    var blank, h := BlankHeader(name, size), Header(name, size);
    HeaderSlices(name, size);
    ChecksumAgrees(blank, h);
    HeaderReads(h, name, size, ByteSum(blank));
  }

  // ---- the archive ----

  predicate SizesFit(files: seq<File>) {
    forall i :: 0 <= i < |files| ==> |files[i].contents| < Power8(11)
  }

  /** Rounding up by blocks is the ceiling the reader computes. */
  lemma {:induction false} BlocksIsCeiling(size: nat)
    ensures Blocks(size) == (size + BLOCK - 1) / BLOCK * BLOCK
  {
    if size > BLOCK {
      BlocksIsCeiling(size - BLOCK);
    }
  }

  lemma PaddingRepeats(size: nat)
    requires size > BLOCK
    ensures Padding(size) == Padding(size - BLOCK)
  {
    assert size % BLOCK == (size - BLOCK) % BLOCK;
  }

  lemma PaddingOfOne(size: nat)
    requires size <= BLOCK
    ensures Padding(size) == if size == 0 then 0 else BLOCK - size
  {}

  /** The padding completes the contents to the number of blocks the reader steps over. */
  lemma {:induction false} PaddedSize(size: nat)
    ensures size + Padding(size) == Blocks(size)
  {
    if size > BLOCK {
      PaddedSize(size - BLOCK);
      PaddingRepeats(size);
    } else {
      PaddingOfOne(size);
    }
  }

  function EntryOf(f: File): Entry {
    Entry(CutAtNul(f.name), Regular, f.contents)
  }

  function EntriesOf(files: seq<File>): seq<Entry> {
    seq(|files|, i requires 0 <= i < |files| => EntryOf(files[i]))
  }

  lemma EntryLayout(f: File, tail: Bytes)
    requires |f.name| <= NAME_LENGTH
    ensures var rest, size := EntryBytes(f) + tail, |f.contents|;
            && |rest| >= BLOCK + size && rest[..BLOCK] == Header(f.name, size)
            && rest[BLOCK..BLOCK + size] == f.contents
            && BLOCK + Blocks(size) <= |rest| && rest[BLOCK + Blocks(size)..] == tail
  {
    PaddedSize(|f.contents|);
    Glue(Header(f.name, |f.contents|), f.contents, Zeros(Padding(|f.contents|)), tail);
  }

  lemma Glue(a: Bytes, b: Bytes, c: Bytes, d: Bytes)
    ensures var t := a + b + c + d;
            t[..|a|] == a && t[|a|..|a| + |b|] == b && t[|a| + |b| + |c|..] == d
  {}

  /** The unread text begins with a complete entry and goes on with `tail`. */
  predicate Leads(rest: Bytes, entry: Entry, size: nat, tail: Bytes) {
    && BLOCK + size <= |rest| && !AllZero(rest[..BLOCK])
    && ReadHeader(rest[..BLOCK]) == Ok((entry.path, entry.kind, size))
    && entry.contents == rest[BLOCK..BLOCK + size]
    && tail == if BLOCK + Blocks(size) <= |rest| then rest[BLOCK + Blocks(size)..] else []
  }

  lemma {:induction false} ReadsOneOfMany(rest: Bytes, entry: Entry, size: nat, tail: Bytes)
    requires Leads(rest, entry, size, tail) && Entries(tail).Ok?
    ensures Entries(rest) == Ok([entry] + Entries(tail).value)
  {}

  lemma {:induction false} ReadsOneThenFails(rest: Bytes, entry: Entry, size: nat, tail: Bytes)
    requires Leads(rest, entry, size, tail) && Entries(tail).Err?
    ensures Entries(rest) == Entries(tail)
  {}

  lemma {:induction false} ReadsOne(rest: Bytes, entry: Entry, size: nat, tail: Bytes)
    requires Leads(rest, entry, size, tail)
    ensures Entries(rest) == Prepend([entry], Entries(tail))
  {
    if Entries(tail).Ok? {
      ReadsOneOfMany(rest, entry, size, tail);
    } else {
      ReadsOneThenFails(rest, entry, size, tail);
    }
  }

  /** One written entry is read as one entry, whatever follows it. */
  lemma {:induction false} EntryReads(f: File, tail: Bytes)
    requires |f.name| <= NAME_LENGTH && |f.contents| < Power8(11) && Entries(tail).Ok?
    ensures Entries(EntryBytes(f) + tail) == Ok([EntryOf(f)] + Entries(tail).value)
  {
    EntryLeads(f, tail);
    ReadsOneOfMany(EntryBytes(f) + tail, EntryOf(f), |f.contents|, tail);
  }

  lemma EntryLeads(f: File, tail: Bytes)
    requires |f.name| <= NAME_LENGTH && |f.contents| < Power8(11)
    ensures Leads(EntryBytes(f) + tail, EntryOf(f), |f.contents|, tail)
  {
    EntryLayout(f, tail);
    HeaderRoundTrip(f.name, |f.contents|);
  }

  lemma TerminatorReads()
    ensures Entries(Zeros(2 * BLOCK)) == Ok([])
  {
    var z := Zeros(2 * BLOCK);
    assert AllZero(z) && AllZero(z[..BLOCK]);
  }

  lemma Concat3(a: Bytes, b: Bytes, c: Bytes)
    ensures a + b + c == a + (b + c)
  {}

  lemma EntriesOfLast(files: seq<File>, more: seq<Entry>)
    requires files != []
    ensures var n := |files| - 1;
            EntriesOf(files[..n]) + ([EntryOf(files[n])] + more) == EntriesOf(files) + more
  {
    var n := |files| - 1;
    assert EntriesOf(files) == EntriesOf(files[..n]) + [EntryOf(files[n])];
  }

  /** Files in front of something that reads as `more`. */
  lemma {:induction false} EntriesRead(files: seq<File>, bytes: Bytes, tail: Bytes, more: seq<Entry>)
    requires NamesFit(files) && SizesFit(files) && bytes == EntriesBytes(files) && Entries(tail) == Ok(more)
    ensures Entries(bytes + tail) == Ok(EntriesOf(files) + more)
    decreases files
  {
    if files == [] {
      assert bytes + tail == tail && EntriesOf([]) + more == more;
    } else {
      var n := |files| - 1;
      var last, init := EntryBytes(files[n]), EntriesBytes(files[..n]);
      EntryReads(files[n], tail);
      var read := [EntryOf(files[n])] + more;
      assert bytes + tail == init + (last + tail) by {
        Concat3(init, last, tail);
      }
      EntriesOfLast(files, more);
      EntriesRead(files[..n], init, last + tail, read);
    }
  }

  lemma EntriesRoundTrip(files: seq<File>)
    requires NamesFit(files) && SizesFit(files)
    ensures Entries(ArchiveBytes(files)) == Ok(EntriesOf(files))
  {
    TerminatorReads();
    EntriesRead(files, EntriesBytes(files), Zeros(2 * BLOCK), []);
    assert EntriesOf(files) + [] == EntriesOf(files);
  }

  /** The map a list of files stands for; names end at their first NUL and later files win. */
  function FileMap(files: seq<File>): map<Bytes, Bytes> {
    if files == [] then map[]
    else FileMap(files[..|files| - 1])[CutAtNul(files[|files| - 1].name) := files[|files| - 1].contents]
  }

  lemma {:induction false} CollectsFiles(files: seq<File>, safe: Safety)
    requires forall i :: 0 <= i < |files| ==> safe(CutAtNul(files[i].name))
    ensures Collect(EntriesOf(files), safe) == Ok(FileMap(files))
  {
    if files != [] {
      CollectsFiles(files[..|files| - 1], safe);
      assert EntriesOf(files)[..|files| - 1] == EntriesOf(files[..|files| - 1]);
    }
  }

  /** Reading back any archive the exporter can write, for entries the policy accepts. */
  lemma ReadAfterWrite(files: seq<File>, policy: Policy, safe: Safety)
    requires NamesFit(files) && SizesFit(files)
    requires policy(Listing(EntriesOf(files)))
    requires forall i :: 0 <= i < |files| ==> safe(CutAtNul(files[i].name))
    ensures ReadArchive(ArchiveBytes(files), policy, safe) == Ok(FileMap(files))
  {
    EntriesRoundTrip(files);
    CollectsFiles(files, safe);
  }

  lemma {:induction false} CutIsNulFree(s: Bytes)
    ensures NulFree(CutAtNul(s))
  {
    if s != [] && s[0] != 0 {
      CutIsNulFree(s[1..]);
      assert CutAtNul(s)[1..] == CutAtNul(s[1..]);
      forall k | 0 <= k < |CutAtNul(s)| ensures CutAtNul(s)[k] != 0 {
        assert k > 0 ==> CutAtNul(s)[k] == CutAtNul(s[1..])[k - 1];
      }
    }
  }

  /** A map entry is the last file of that cut name, and there is an entry for every file. */
  lemma {:induction false} FileMapIsLast(files: seq<File>)
    ensures forall i :: 0 <= i < |files| ==> CutAtNul(files[i].name) in FileMap(files)
    ensures forall name :: name in FileMap(files) ==>
              exists i ::
                0 <= i < |files| && name == CutAtNul(files[i].name) && FileMap(files)[name] == files[i].contents
  {
    if files != [] {
      var n := |files| - 1;
      FileMapIsLast(files[..n]);
      forall i | 0 <= i < |files| ensures CutAtNul(files[i].name) in FileMap(files) {
        assert i < n ==> files[..n][i] == files[i];
      }
      forall name | name in FileMap(files)
        ensures exists i ::
                  0 <= i < |files| && name == CutAtNul(files[i].name) && FileMap(files)[name] == files[i].contents
      {
        if name == CutAtNul(files[n].name) {
          assert FileMap(files)[name] == files[n].contents;
        } else {
          assert name in FileMap(files[..n]);
          var i :| 0 <= i < n && name == CutAtNul(files[..n][i].name)
            && FileMap(files[..n])[name] == files[..n][i].contents;
          assert files[..n][i] == files[i];
        }
      }
    }
  }

  /** What a caller expects of an archive: every file is found under its own name, unchanged. */
  ghost predicate Faithful(files: seq<File>, m: map<Bytes, Bytes>) {
    forall i :: 0 <= i < |files| ==> files[i].name in m && m[files[i].name] == files[i].contents
  }

  predicate NamesNulFree(files: seq<File>) {
    forall i :: 0 <= i < |files| ==> NulFree(files[i].name)
  }

  predicate SameNameAgrees(files: seq<File>) {
    forall i, j :: 0 <= i < |files| && 0 <= j < |files| && files[i].name == files[j].name ==>
      files[i].contents == files[j].contents
  }

  lemma FaithfulNeeds(files: seq<File>)
    requires Faithful(files, FileMap(files))
    ensures NamesNulFree(files) && SameNameAgrees(files)
  {
    FileMapIsLast(files);
    forall i | 0 <= i < |files| ensures NulFree(files[i].name) {
      var k :| 0 <= k < |files| && files[i].name == CutAtNul(files[k].name);
      CutIsNulFree(files[k].name);
    }
  }

  lemma FaithfulAt(files: seq<File>, i: nat)
    requires NamesNulFree(files) && SameNameAgrees(files) && i < |files|
    ensures files[i].name in FileMap(files) && FileMap(files)[files[i].name] == files[i].contents
  {
    var m, name := FileMap(files), files[i].name;
    FileMapIsLast(files);
    CutNulFree(name);
    assert CutAtNul(files[i].name) in m;
    var k :| 0 <= k < |files| && name == CutAtNul(files[k].name) && m[name] == files[k].contents;
    CutNulFree(files[k].name);
  }

  /** The archive is faithful exactly when no name contains a NUL and files of one name agree. */
  lemma FaithfulExactlyWhen(files: seq<File>)
    ensures Faithful(files, FileMap(files)) <==> NamesNulFree(files) && SameNameAgrees(files)
  {
    if Faithful(files, FileMap(files)) {
      FaithfulNeeds(files);
    }
    if NamesNulFree(files) && SameNameAgrees(files) {
      forall i | 0 <= i < |files|
        ensures files[i].name in FileMap(files) && FileMap(files)[files[i].name] == files[i].contents {
        FaithfulAt(files, i);
      }
    }
  }

  function Given(files: seq<File>): map<Bytes, Bytes>
    requires forall i, j :: 0 <= i < j < |files| ==> files[i].name != files[j].name
  {
    map i | 0 <= i < |files| :: files[i].name := files[i].contents
  }

  lemma GivenIsFound(files: seq<File>, name: Bytes)
    requires NamesNulFree(files)
    requires forall i, j :: 0 <= i < j < |files| ==> files[i].name != files[j].name
    requires name in Given(files)
    ensures name in FileMap(files) && FileMap(files)[name] == Given(files)[name]
  {
    var i :| 0 <= i < |files| && name == files[i].name;
    FaithfulAt(files, i);
  }

  lemma FoundIsGiven(files: seq<File>, name: Bytes)
    requires NamesNulFree(files)
    requires forall i, j :: 0 <= i < j < |files| ==> files[i].name != files[j].name
    requires name in FileMap(files)
    ensures name in Given(files)
  {
    FileMapIsLast(files);
    var i :| 0 <= i < |files| && name == CutAtNul(files[i].name);
    CutNulFree(files[i].name);
  }

  lemma FileMapIsGiven(files: seq<File>)
    requires NamesNulFree(files)
    requires forall i, j :: 0 <= i < j < |files| ==> files[i].name != files[j].name
    ensures FileMap(files) == Given(files)
  {
    forall name | name in Given(files) ensures name in FileMap(files) && FileMap(files)[name] == Given(files)[name] {
      GivenIsFound(files, name);
    }
    forall name | name in FileMap(files) ensures name in Given(files) {
      FoundIsGiven(files, name);
    }
  }

  /** For distinct NUL-free names the archive reads back as exactly the given map. */
  lemma RoundTrip(files: seq<File>, policy: Policy, safe: Safety)
    requires NamesFit(files) && SizesFit(files) && NamesNulFree(files)
    requires forall i, j :: 0 <= i < j < |files| ==> files[i].name != files[j].name
    requires forall i :: 0 <= i < |files| ==> safe(files[i].name)
    requires policy(Listing(EntriesOf(files)))
    ensures ReadArchive(ArchiveBytes(files), policy, safe) == Ok(Given(files))
  {
    forall i | 0 <= i < |files| ensures CutAtNul(files[i].name) == files[i].name {
      CutNulFree(files[i].name);
    }
    ReadAfterWrite(files, policy, safe);
    FileMapIsGiven(files);
  }
}
