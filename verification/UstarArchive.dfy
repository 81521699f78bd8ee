/** The two archive files of the repository: the exporter that fills buffers in place and the
    plugin store's reader that steps through an archive with a moving offset. */
module UstarArchive {
  import opened Prelude
  import opened Ustar
  import opened UstarRoundTrip

  /** "workspace-intelligence/" */
  const PREFIX: Bytes := [0x77, 0x6F, 0x72, 0x6B, 0x73, 0x70, 0x61, 0x63, 0x65, 0x2D, 0x69, 0x6E,
                          0x74, 0x65, 0x6C, 0x6C, 0x69, 0x67, 0x65, 0x6E, 0x63, 0x65, 0x2F]

  /** A path and a text, both UTF-8 encoded. */
  datatype Document = Document(path: Bytes, text: Bytes)

  datatype Outcome = Written(archive: Bytes) | PathTooLong | ArchiveTooLong

  function FileOf(d: Document): File {
    File(PREFIX + d.path, d.text)
  }

  function FilesOf(ds: seq<Document>): (files: seq<File>)
    ensures |files| == |ds|
  {
    seq(|ds|, i requires 0 <= i < |ds| => FileOf(ds[i]))
  }

  method WriteString(target: array<Byte>, offset: nat, length: nat, value: Bytes)
    requires offset + Min(length, |value|) <= target.Length
    modifies target
    ensures target[..] == Set(old(target[..]), offset, value[..Min(length, |value|)])
  {
    var cut := value[..Min(length, |value|)];
    forall i | 0 <= i < |cut| {
      target[offset + i] := cut[i];
    }
  }

  method WriteOctal(target: array<Byte>, offset: nat, length: nat, value: nat)
    requires length > 0 && offset + length <= target.Length
    modifies target
    ensures target[..] == Set(old(target[..]), offset, OctalField(value, length))
  {
    WriteString(target, offset, length, PadStart(OctalDigits(value), length - 1));
  }

  method SumBytes(header: array<Byte>) returns (sum: nat)
    ensures sum == ByteSum(header[..])
  {
    sum := 0;
    for i := 0 to header.Length
      invariant sum == ByteSum(header[..i])
    {
      assert header[..i + 1][..i] == header[..i];
      sum := sum + header[i];
    }
    assert header[..header.Length] == header[..];
  }

  method WriteFront(header: array<Byte>, name: Bytes, size: nat)
    requires header.Length == BLOCK && |name| <= NAME_LENGTH
    modifies header
    ensures header[..] == FrontFields(old(header[..]), name, size)
  {
    assert name[..Min(NAME_LENGTH, |name|)] == name;
    WriteString(header, 0, NAME_LENGTH, name);
    WriteOctal(header, 100, 8, 0x1A4);
    WriteOctal(header, 108, 8, 0);
    WriteOctal(header, 116, 8, 0);
    WriteOctal(header, 124, 12, size);
  }

  method WriteBack(header: array<Byte>)
    requires header.Length == BLOCK
    modifies header
    ensures header[..] == BackFields(old(header[..]))
  {
    WriteOctal(header, 136, 12, 0);
    WriteWhole(header, 148, seq(8, _ => SPACE));
    WriteWhole(header, 156, [ZERO_DIGIT]);
    WriteWhole(header, 257, USTAR);
    WriteWhole(header, 263, VERSION);
  }

  /** A value that fits its field. */
  method WriteWhole(target: array<Byte>, offset: nat, value: Bytes)
    requires offset + |value| <= target.Length
    modifies target
    ensures target[..] == Set(old(target[..]), offset, value)
  {
    assert value[..|value|] == value;
    WriteString(target, offset, |value|, value);
  }

  method WriteHeader(name: Bytes, size: nat) returns (header: array<Byte>)
    requires |name| <= NAME_LENGTH
    ensures fresh(header) && header.Length == BLOCK && header[..] == Header(name, size)
  {
    header := new Byte[BLOCK](_ => 0);
    assert header[..] == Zeros(BLOCK);
    WriteFront(header, name, size);
    WriteBack(header);
    var checksum := SumBytes(header);
    WriteString(header, 148, 8, PadStart(OctalDigits(checksum), 6) + [0, SPACE]);
  }

  /** `target.set(value, offset)` into a region that is still zero. */
  method Fill(target: array<Byte>, offset: nat, value: Bytes)
    requires offset + |value| <= target.Length
    modifies target
    ensures target[..] == old(target[..offset]) + value + old(target[offset + |value|..])
  {
    forall i | 0 <= i < |value| {
      target[offset + i] := value[i];
    }
  }

  method TarEntry(d: Document) returns (result: Option<Bytes>)
    ensures |FileOf(d).name| > NAME_LENGTH ==> result == None
    ensures |FileOf(d).name| <= NAME_LENGTH ==> result == Some(EntryBytes(FileOf(d)))
  {
    var name := PREFIX + d.path;
    if |name| > NAME_LENGTH {
      return None;
    }
    var padding := Padding(|d.text|);
    var header := WriteHeader(name, |d.text|);
    var buffer := new Byte[BLOCK + |d.text| + padding](_ => 0);
    assert buffer[..] == Zeros(BLOCK + |d.text| + padding);
    Fill(buffer, 0, header[..]);
    Fill(buffer, BLOCK, d.text);
    LaidOut(header[..], d.text, padding);
    return Some(buffer[..]);
  }

  lemma LaidOut(header: Bytes, text: Bytes, padding: nat)
    requires |header| == BLOCK
    ensures var z := Zeros(BLOCK + |text| + padding);
            var first := z[..0] + header + z[0 + BLOCK..];
            first[..BLOCK] + text + first[BLOCK + |text|..] == header + text + Zeros(padding)
  {}

  /** The entries of the archive, one buffer each, and the length of the whole. */
  method BuildEntries(ds: seq<Document>) returns (files: Option<seq<Bytes>>, length: nat)
    ensures files.None? <==> !NamesFit(FilesOf(ds))
    ensures files.Some? ==>
      Concat(files.value) == EntriesBytes(FilesOf(ds)) && length == |Concat(files.value)| + 2 * BLOCK
  {
    var built: seq<Bytes> := [];
    length := 2 * BLOCK;
    for i := 0 to |ds|
      invariant NamesFit(FilesOf(ds[..i]))
      invariant Concat(built) == EntriesBytes(FilesOf(ds[..i])) && length == |Concat(built)| + 2 * BLOCK
    {
      var entry := TarEntry(ds[i]);
      if entry.None? {
        assert FilesOf(ds)[i] == FileOf(ds[i]);
        return None, length;
      }
      FilesGrow(ds, i);
      ConcatAppend(built, entry.value);
      built := built + [entry.value];
      length := length + |entry.value|;
    }
    assert ds[..|ds|] == ds;
    files := Some(built);
  }

  /** One buffer for all entries, the two zero blocks at its end left as allocated. */
  method Assemble(files: seq<Bytes>, length: nat) returns (archive: array<Byte>)
    requires length == |Concat(files)| + 2 * BLOCK
    ensures fresh(archive) && archive[..] == Concat(files) + Zeros(2 * BLOCK)
  {
    archive := new Byte[length](_ => 0);
    var offset := 0;
    for i := 0 to |files|
      invariant offset == |Concat(files[..i])| && offset + 2 * BLOCK <= length
      invariant archive[..offset] == Concat(files[..i])
      invariant forall k :: offset <= k < length ==> archive[k] == 0
    {
      ConcatAppend(files[..i], files[i]);
      assert files[..i + 1] == files[..i] + [files[i]];
      ConcatLength(files, i + 1);
      ghost var before := archive[..offset];
      forall k | 0 <= k < |files[i]| {
        archive[offset + k] := files[i][k];
      }
      assert archive[..offset + |files[i]|] == before + files[i];
      offset := offset + |files[i]|;
    }
    assert files[..|files|] == files;
    assert archive[..] == archive[..offset] + Zeros(2 * BLOCK);
  }

  /** The exporter, on documents in the order its locale-aware sort gives them. */
  method WriteArchive(ds: seq<Document>) returns (outcome: Outcome)
    ensures outcome.PathTooLong? <==> !NamesFit(FilesOf(ds))
    ensures NamesFit(FilesOf(ds)) ==>
              if |ArchiveBytes(FilesOf(ds))| > MAX_ARCHIVE_BYTES then outcome == ArchiveTooLong
              else outcome == Written(ArchiveBytes(FilesOf(ds)))
  {
    var files, length := BuildEntries(ds);
    if files.None? {
      return PathTooLong;
    }
    if length > MAX_ARCHIVE_BYTES {
      return ArchiveTooLong;
    }
    var archive := Assemble(files.value, length);
    return Written(archive[..]);
  }

  function Concat(files: seq<Bytes>): Bytes {
    if files == [] then [] else Concat(files[..|files| - 1]) + files[|files| - 1]
  }

  lemma ConcatAppend(files: seq<Bytes>, file: Bytes)
    ensures Concat(files + [file]) == Concat(files) + file
  {
    assert (files + [file])[..|files|] == files;
  }

  lemma {:induction false} ConcatLength(files: seq<Bytes>, i: nat)
    requires i <= |files|
    ensures |Concat(files[..i])| <= |Concat(files)|
    decreases |files| - i
  {
    if i < |files| {
      ConcatLength(files, i + 1);
      assert files[..i + 1][..i] == files[..i];
    } else {
      assert files[..i] == files;
    }
  }

  lemma EntriesBytesAppend(files: seq<File>, f: File)
    requires NamesFit(files) && |f.name| <= NAME_LENGTH
    ensures NamesFit(files + [f]) && EntriesBytes(files + [f]) == EntriesBytes(files) + EntryBytes(f)
  {
    assert (files + [f])[..|files|] == files;
  }

  lemma FilesOfLast(ds: seq<Document>, i: nat)
    requires i < |ds|
    ensures FilesOf(ds[..i + 1]) == FilesOf(ds[..i]) + [FileOf(ds[i])]
  {}

  lemma FilesGrow(ds: seq<Document>, i: nat)
    requires i < |ds| && NamesFit(FilesOf(ds[..i])) && |FileOf(ds[i]).name| <= NAME_LENGTH
    ensures NamesFit(FilesOf(ds[..i + 1]))
    ensures EntriesBytes(FilesOf(ds[..i + 1])) == EntriesBytes(FilesOf(ds[..i])) + EntryBytes(FileOf(ds[i]))
  {
    FilesOfLast(ds, i);
    EntriesBytesAppend(FilesOf(ds[..i]), FileOf(ds[i]));
  }

  /** What one turn of the reader's loop decides: the outcome, or an entry and where to go on. */
  datatype Turn = Stop(outcome: Result<seq<Entry>>) | Step(entry: Entry, next: nat)

  ghost predicate TurnOk(archive: Bytes, offset: nat, t: Turn)
    requires offset < |archive|
  {
    match t
    case Stop(outcome) => Entries(archive[offset..]) == outcome && (outcome.Ok? ==> outcome.value == [])
    case Step(entry, next) =>
      next > offset && Entries(archive[offset..]) == Prepend([entry], Entries(Rest(archive, next)))
  }

  /** The contents behind a header that is all right. */
  method ReadContents(archive: Bytes, offset: nat, path: Bytes, kind: Kind, size: nat) returns (t: Turn)
    requires offset + BLOCK <= |archive| && !AllZero(archive[offset..offset + BLOCK])
    requires ReadHeader(archive[offset..offset + BLOCK]) == Ok((path, kind, size))
    ensures TurnOk(archive, offset, t)
  {
    var contentsStart := offset + BLOCK;
    var contentsEnd := contentsStart + size;
    if contentsEnd > |archive| {
      EndsInside(archive, offset, path, kind, size);
      return Stop(Err(TruncatedEntry));
    }
    var entry := Entry(path, kind, archive[contentsStart..contentsEnd]);
    StepOver(archive, offset, entry, size);
    t := Step(entry, contentsStart + Blocks(size));
  }

  /** The archive ends before the contents do. */
  lemma {:induction false} EndsInside(archive: Bytes, offset: nat, path: Bytes, kind: Kind, size: nat)
    requires offset + BLOCK <= |archive| < offset + BLOCK + size
    requires !AllZero(archive[offset..offset + BLOCK])
    requires ReadHeader(archive[offset..offset + BLOCK]) == Ok((path, kind, size))
    ensures Entries(archive[offset..]) == Err(TruncatedEntry)
  {
    assert archive[offset..][..BLOCK] == archive[offset..offset + BLOCK];
  }

  method ReadTurn(archive: Bytes, offset: nat) returns (t: Turn)
    requires offset < |archive|
    ensures TurnOk(archive, offset, t)
  {
    if offset + BLOCK > |archive| {
      return Stop(Err(TruncatedHeader));
    }
    var header := archive[offset..offset + BLOCK];
    assert header == archive[offset..][..BLOCK];
    if AllZero(header) {
      return Stop(if AllZero(archive[offset..]) then Ok([]) else Err(DataAfterTerminator));
    }
    var fields := ReadHeader(header);
    if fields.Err? {
      return Stop(Err(fields.failure));
    }
    var (path, kind, size) := fields.value;
    t := ReadContents(archive, offset, path, kind, size);
  }

  method ReadEntries(archive: Bytes) returns (r: Result<seq<Entry>>)
    ensures r == Entries(archive)
  {
    ghost var goal := Entries(archive);
    PrependNothing(archive, goal);
    var entries: seq<Entry> := [];
    var offset := 0;
    while offset < |archive|
      invariant goal == Prepend(entries, Entries(Rest(archive, offset)))
      decreases |archive| - offset
    {
      var turn := ReadTurn(archive, offset);
      if turn.Stop? {
        if turn.outcome.Err? {
          return turn.outcome;
        }
        PrependEnd(entries);
        return Ok(entries);
      }
      PrependStep(entries, turn.entry, Entries(Rest(archive, turn.next)));
      entries, offset := entries + [turn.entry], turn.next;
    }
    PrependEnd(entries);
    return Ok(entries);
  }

  lemma PrependEnd(entries: seq<Entry>)
    ensures Prepend(entries, Ok([])) == Ok(entries)
  {
    assert entries + [] == entries;
  }

  /** The entry at `offset` is complete. */
  lemma StepOver(archive: Bytes, offset: nat, entry: Entry, size: nat)
    requires offset + BLOCK + size <= |archive|
    requires !AllZero(archive[offset..offset + BLOCK])
    requires ReadHeader(archive[offset..offset + BLOCK]) == Ok((entry.path, entry.kind, size))
    requires entry.contents == archive[offset + BLOCK..offset + BLOCK + size]
    ensures Entries(archive[offset..]) == Prepend([entry], Entries(Rest(archive, offset + BLOCK + Blocks(size))))
  {
    SlicesFrom(archive, offset, size, Blocks(size));
    ReadsOne(archive[offset..], entry, size, Rest(archive, offset + BLOCK + Blocks(size)));
  }

  lemma SlicesFrom(archive: Bytes, offset: nat, size: nat, padded: nat)
    requires offset + BLOCK + size <= |archive|
    ensures var rest := archive[offset..];
      && rest[..BLOCK] == archive[offset..offset + BLOCK]
      && rest[BLOCK..BLOCK + size] == archive[offset + BLOCK..offset + BLOCK + size]
      && Rest(rest, BLOCK + padded) == Rest(archive, offset + BLOCK + padded)
  {}

  lemma PrependNothing(archive: Bytes, more: Result<seq<Entry>>)
    ensures Rest(archive, 0) == archive && Prepend([], more) == more
  {
    if more.Ok? {
      assert [] + more.value == more.value;
    }
  }

  method CollectFiles(entries: seq<Entry>, safe: Safety) returns (r: Result<map<Bytes, Bytes>>)
    ensures r == Collect(entries, safe)
  {
    var files: map<Bytes, Bytes> := map[];
    for i := 0 to |entries|
      invariant Collect(entries[..i], safe) == Ok(files)
    {
      assert entries[..i + 1][..i] == entries[..i];
      var entry := entries[i];
      if !entry.kind.Directory? {
        if !entry.kind.Regular? || !safe(entry.path) {
          CollectFails(entries, i + 1, safe);
          return Err(UnsafeEntry);
        }
        files := files[entry.path := entry.contents];
      }
    }
    assert entries[..|entries|] == entries;
    return Ok(files);
  }

  method ReadPluginArchive(archive: Bytes, policy: Policy, safe: Safety) returns (r: Result<map<Bytes, Bytes>>)
    ensures r == ReadArchive(archive, policy, safe)
  {
    var entries := ReadEntries(archive);
    if entries.Err? {
      return Err(entries.failure);
    }
    if !policy(Listing(entries.value)) {
      return Err(RefusedByPolicy);
    }
    r := CollectFiles(entries.value, safe);
  }

  lemma PrependStep(entries: seq<Entry>, entry: Entry, more: Result<seq<Entry>>)
    ensures Prepend(entries, Prepend([entry], more)) == Prepend(entries + [entry], more)
  {
    if more.Ok? {
      assert entries + ([entry] + more.value) == entries + [entry] + more.value;
    }
  }

  lemma {:induction false} CollectFails(entries: seq<Entry>, i: nat, safe: Safety)
    requires i <= |entries| && Collect(entries[..i], safe) == Err(UnsafeEntry)
    ensures Collect(entries, safe) == Err(UnsafeEntry)
    decreases |entries| - i
  {
    if i < |entries| {
      assert entries[..i + 1][..i] == entries[..i];
      CollectFails(entries, i + 1, safe);
    } else {
      assert entries[..i] == entries;
    }
  }

  lemma {:induction false} ContentsWithinArchive(files: seq<File>, i: nat)
    requires NamesFit(files) && i < |files|
    ensures |files[i].contents| <= |EntriesBytes(files)|
  {
    if i < |files| - 1 {
      ContentsWithinArchive(files[..|files| - 1], i);
    }
  }

  /** What the exporter writes under distinct NUL-free paths is read back unchanged, path by path;
      the size limit of the exporter keeps every octal field within its width. */
  lemma ExportRoundTrip(ds: seq<Document>, policy: Policy, safe: Safety)
    requires NamesFit(FilesOf(ds)) && |ArchiveBytes(FilesOf(ds))| <= MAX_ARCHIVE_BYTES
    requires forall i :: 0 <= i < |ds| ==> NulFree(ds[i].path) && safe(PREFIX + ds[i].path)
    requires forall i, j :: 0 <= i < j < |ds| ==> ds[i].path != ds[j].path
    requires policy(Listing(EntriesOf(FilesOf(ds))))
    ensures var r := ReadArchive(ArchiveBytes(FilesOf(ds)), policy, safe);
            && r.Ok?
            && (forall i :: 0 <= i < |ds| ==>
                  PREFIX + ds[i].path in r.value && r.value[PREFIX + ds[i].path] == ds[i].text)
            && (forall name :: name in r.value ==> exists i :: 0 <= i < |ds| && name == PREFIX + ds[i].path)
  {
    var files := FilesOf(ds);
    ContentsFit(files);
    NamesDiffer(ds);
    NamesReadable(ds, safe);
    RoundTrip(files, policy, safe);
    GivenByPath(ds);
  }

  lemma ContentsFit(files: seq<File>)
    requires NamesFit(files) && |ArchiveBytes(files)| <= MAX_ARCHIVE_BYTES
    ensures SizesFit(files)
  {
    PowersOfEight();
    forall i | 0 <= i < |files| ensures |files[i].contents| < Power8(11) {
      ContentsWithinArchive(files, i);
    }
  }

  lemma NamesReadable(ds: seq<Document>, safe: Safety)
    requires forall i :: 0 <= i < |ds| ==> NulFree(ds[i].path) && safe(PREFIX + ds[i].path)
    ensures NamesNulFree(FilesOf(ds)) && forall i :: 0 <= i < |ds| ==> safe(FilesOf(ds)[i].name)
  {}

  lemma NamesDiffer(ds: seq<Document>)
    requires forall i, j :: 0 <= i < j < |ds| ==> ds[i].path != ds[j].path
    ensures forall i, j :: 0 <= i < j < |ds| ==> FilesOf(ds)[i].name != FilesOf(ds)[j].name
  {
    forall i, j | 0 <= i < j < |ds| ensures FilesOf(ds)[i].name != FilesOf(ds)[j].name {
      assert FilesOf(ds)[i].name[|PREFIX|..] == ds[i].path && FilesOf(ds)[j].name[|PREFIX|..] == ds[j].path;
    }
  }

  lemma GivenByPath(ds: seq<Document>)
    requires forall i, j :: 0 <= i < j < |FilesOf(ds)| ==> FilesOf(ds)[i].name != FilesOf(ds)[j].name
    ensures var m := Given(FilesOf(ds));
            && (forall i :: 0 <= i < |ds| ==> PREFIX + ds[i].path in m && m[PREFIX + ds[i].path] == ds[i].text)
            && (forall name :: name in m ==> exists i :: 0 <= i < |ds| && name == PREFIX + ds[i].path)
  {
    var files := FilesOf(ds);
    var m := Given(files);
    forall i | 0 <= i < |ds| ensures PREFIX + ds[i].path in m && m[PREFIX + ds[i].path] == ds[i].text {
      assert files[i].name in m;
    }
    forall name | name in m ensures exists i :: 0 <= i < |ds| && name == PREFIX + ds[i].path {
      var i :| 0 <= i < |files| && name == files[i].name;
    }
  }
}
