/** The budgeted walk over a workspace's directories that collects its source files. */
module SourceInventory {
  import opened Prelude

  type Path = string

  datatype Content = Unreadable | Binary | Plain

  /** `size` is absent when `lstat` fails. Entries of a directory come in the order of the walk. */
  datatype Entry =
    | Symlink(name: string)
    | File(name: string, size: Option<nat>, content: Content)
    | Directory(name: string, entries: seq<Entry>)
    | ClosedDirectory(name: string)
    | Special(name: string)

  /** The budgets, and the tests of a path that other parts decide. */
  datatype Settings = Settings(maxFiles: nat, maxFileBytes: nat, maxBytes: nat, ignored: Option<set<Path>>,
                               excludedNames: set<string>, relevant: Path -> bool, included: Path -> bool,
                               excluded: Path -> bool)

  // ---- ignored paths ----

  /** The path itself or a directory above it. */
  predicate AtOrAbove(a: Path, path: Path) {
    a == path || exists k :: 0 <= k < |path| && path[k] == '/' && a == path[..k]
  }

  predicate IsIgnored(s: Settings, path: Path) {
    s.ignored.Some? && exists a :: a in s.ignored.value && AtOrAbove(a, path)
  }

  method LastSlash(path: Path) returns (slash: int)
    ensures -1 <= slash < |path|
    ensures slash >= 0 ==> path[slash] == '/'
    ensures forall k :: slash < k < |path| ==> path[k] != '/'
  {
    slash := |path| - 1;
    while slash >= 0 && path[slash] != '/'
      invariant -1 <= slash < |path|
      invariant forall k :: slash < k < |path| ==> path[k] != '/'
    {
      slash := slash - 1;
    }
  }

  method Ignores(s: Settings, path: Path) returns (ignored: bool)
    ensures ignored <==> IsIgnored(s, path)
  {
    if s.ignored.None? {
      return false;
    }
    var candidate := path;
    while true
      invariant candidate == path
        || (|candidate| < |path| && path[|candidate|] == '/' && candidate == path[..|candidate|])
      invariant forall a :: a in s.ignored.value && AtOrAbove(a, path) ==> AtOrAbove(a, candidate)
      decreases |candidate|
    {
      if candidate in s.ignored.value {
        assert AtOrAbove(candidate, path);
        return true;
      }
      var slash := LastSlash(candidate);
      if slash == -1 {
        return false;
      }
      forall a | a in s.ignored.value && AtOrAbove(a, candidate) ensures AtOrAbove(a, candidate[..slash]) {
        var k :| 0 <= k < |candidate| && candidate[k] == '/' && a == candidate[..k];
        assert k < slash ==> candidate[..slash][k] == '/' && a == candidate[..slash][..k];
      }
      candidate := candidate[..slash];
    }
  }

  // ---- where an entry goes ----

  datatype Bucket =
    | Accepted | Ignored | ExcludedDirectory | SymbolicLink | Irrelevant | NotIncluded | ExcludedByPattern
    | Unread | Oversized | OverBudget | BinaryFile

  datatype Item = Item(path: Path, entry: Entry)

  datatype Note = Note(item: Item, bucket: Bucket)

  predicate IsDirectory(e: Entry) {
    e.Directory? || e.ClosedDirectory?
  }

  predicate Pruned(s: Settings, path: Path, e: Entry) {
    IsDirectory(e) && (IsIgnored(s, path) || e.name in s.excludedNames)
  }

  function SizeBucket(s: Settings, e: Entry, bytes: nat): Bucket
    requires e.File?
  {
    if e.size.None? then Unread
    else if e.size.value > s.maxFileBytes then Oversized
    else if bytes + e.size.value > s.maxBytes then OverBudget
    else if e.content.Unreadable? then Unread
    else if e.content.Binary? then BinaryFile
    else Accepted
  }

  /** The one bucket of an entry, given the bytes accepted before it. */
  function BucketOf(s: Settings, item: Item, bytes: nat): Bucket {
    if item.entry.Symlink? then SymbolicLink
    else if IsIgnored(s, item.path) then Ignored
    else if !item.entry.File? then ExcludedDirectory
    else if !s.relevant(item.path) then Irrelevant
    else if !s.included(item.path) then NotIncluded
    else if s.excluded(item.path) then ExcludedByPattern
    else SizeBucket(s, item.entry, bytes)
  }

  function Size(e: Entry): nat {
    if e.File? && e.size.Some? then e.size.value else 0
  }

  function AcceptedBytes(log: seq<Note>): nat {
    if log == [] then 0 else
      var last := log[|log| - 1];
      AcceptedBytes(log[..|log| - 1]) + (if last.bucket.Accepted? then Size(last.item.entry) else 0)
  }

  function AcceptedPaths(log: seq<Note>): seq<Path> {
    if log == [] then [] else
      var last := log[|log| - 1];
      AcceptedPaths(log[..|log| - 1]) + (if last.bucket.Accepted? then [last.item.path] else [])
  }

  function Count(log: seq<Note>, bucket: Bucket): nat {
    if log == [] then 0 else
      Count(log[..|log| - 1], bucket) + (if log[|log| - 1].bucket == bucket then 1 else 0)
  }

  function Items(log: seq<Note>): seq<Item> {
    seq(|log|, k requires 0 <= k < |log| => log[k].item)
  }

  // ---- what a walk without limits reaches ----

  function Child(directory: Path, name: string): Path {
    if directory == "" then name else directory + "/" + name
  }

  function Reach(s: Settings, directory: Path, entries: seq<Entry>): seq<Item>
    decreases entries
  {
    if entries == [] then [] else ReachEntry(s, directory, entries[0]) + Reach(s, directory, entries[1..])
  }

  /** Links, files and pruned directories; other directories by their entries. */
  function ReachEntry(s: Settings, directory: Path, e: Entry): seq<Item>
    decreases e
  {
    var path := Child(directory, e.name);
    if e.Symlink? || e.File? || Pruned(s, path, e) then [Item(path, e)]
    else if e.Directory? then Reach(s, path, e.entries)
    else []
  }

  /** `a` is `b` with some items left out: `at` gives the places of those kept. */
  predicate PartBy(a: seq<Item>, b: seq<Item>, at: seq<nat>) {
    && |at| == |a|
    && (forall k :: 0 <= k < |at| ==> at[k] < |b| && b[at[k]] == a[k])
    && (forall j, k :: 0 <= j < k < |at| ==> at[j] < at[k])
  }

  ghost predicate Part(a: seq<Item>, b: seq<Item>) {
    exists at :: PartBy(a, b, at)
  }

  lemma PartOfItself(a: seq<Item>)
    ensures Part(a, a)
  {
    assert PartBy(a, a, seq(|a|, k => k));
  }

  lemma PartsJoin(a: seq<Item>, b: seq<Item>, c: seq<Item>, d: seq<Item>)
    requires Part(a, b) && Part(c, d)
    ensures Part(a + c, b + d)
  {
    var f :| PartBy(a, b, f);
    var g :| PartBy(c, d, g);
    var at := f + seq(|g|, k requires 0 <= k < |g| => g[k] + |b|);
    assert PartBy(a + c, b + d, at);
  }

  lemma ItemsOfParts(a: seq<Note>, b: seq<Note>)
    ensures Items(a + b) == Items(a) + Items(b)
  {}

  /** The walk, or the part of it the limits let through. */
  ghost predicate Walked(added: seq<Note>, all: seq<Item>, complete: bool) {
    Part(Items(added), all) && (complete ==> Items(added) == all)
  }

  lemma WalkedOn(a: seq<Note>, b: seq<Note>, all: seq<Item>, more: seq<Item>, completeA: bool, completeB: bool)
    requires Walked(a, all, completeA) && Walked(b, more, completeB)
    ensures Walked(a + b, all + more, completeA && completeB)
  {
    ItemsOfParts(a, b);
    PartsJoin(Items(a), all, Items(b), more);
  }

  lemma WalkedNothing(all: seq<Item>)
    ensures Walked([], all, all == [])
  {
    assert PartBy(Items([]), all, []);
  }

  lemma Regroup(a: seq<Note>, b: seq<Note>, c: seq<Note>)
    ensures (a + b) + c == a + (b + c)
  {}

  lemma WalkedOne(note: Note, complete: bool)
    ensures Walked([note], [note.item], complete)
  {
    PartOfItself([note.item]);
    assert Items([note]) == [note.item];
  }

  lemma WalkGrows(s: Settings, directory: Path, entries: seq<Entry>, i: nat, added: seq<Note>, found: seq<Note>,
                  before: bool, after: bool)
    requires i < |entries| && (after ==> before)
    requires Walked(added, Reach(s, directory, entries[..i]), before)
    requires Walked(found, ReachEntry(s, directory, entries[i]), after)
    ensures Walked(added + found, Reach(s, directory, entries[..i + 1]), after)
  {
    WalkedOn(added, found, Reach(s, directory, entries[..i]), ReachEntry(s, directory, entries[i]), before, after);
    ReachSnoc(s, directory, entries, i);
  }

  lemma WalkStops(s: Settings, directory: Path, entries: seq<Entry>, i: nat, added: seq<Note>, before: bool)
    requires i <= |entries| && Walked(added, Reach(s, directory, entries[..i]), before)
    ensures Walked(added, Reach(s, directory, entries), false)
  {
    var rest := Reach(s, directory, entries[i..]);
    WalkedNothing(rest);
    WalkedOn(added, [], Reach(s, directory, entries[..i]), rest, before, rest == []);
    ReachSplit(s, directory, entries, i);
    assert added + [] == added;
  }

  /** Every note is right for the bytes accepted before it. */
  ghost predicate LogOk(s: Settings, log: seq<Note>) {
    forall k :: 0 <= k < |log| ==> log[k].bucket == BucketOf(s, log[k].item, AcceptedBytes(log[..k]))
  }

  lemma LogGrows(s: Settings, log: seq<Note>, note: Note)
    requires LogOk(s, log) && note.bucket == BucketOf(s, note.item, AcceptedBytes(log))
    ensures LogOk(s, log + [note])
  {
    var grown := log + [note];
    forall k | 0 <= k < |grown| ensures grown[k].bucket == BucketOf(s, grown[k].item, AcceptedBytes(grown[..k])) {
      assert grown[..k] == log[..k];
      assert log[..|log|] == log;
    }
  }

  lemma TalliesGrow(log: seq<Note>, note: Note)
    ensures AcceptedBytes(log + [note])
      == AcceptedBytes(log) + (if note.bucket.Accepted? then Size(note.item.entry) else 0)
    ensures AcceptedPaths(log + [note]) == AcceptedPaths(log) + (if note.bucket.Accepted? then [note.item.path] else [])
    ensures forall bucket ::
      Count(log + [note], bucket) == Count(log, bucket) + (if note.bucket == bucket then 1 else 0)
  {
    assert (log + [note])[..|log + [note]| - 1] == log;
  }

  type Counts = map<Bucket, nat>

  function Number(counts: Counts, bucket: Bucket): nat {
    if bucket in counts then counts[bucket] else 0
  }

  /** Every bucket of excluded entries has its counter. */
  ghost predicate CountsOk(counts: Counts, log: seq<Note>) {
    forall bucket: Bucket :: !bucket.Accepted? ==> Number(counts, bucket) == Count(log, bucket)
  }

  lemma CountsGrow(counts: Counts, log: seq<Note>, note: Note)
    requires CountsOk(counts, log)
    ensures note.bucket.Accepted? ==> CountsOk(counts, log + [note])
    ensures CountsOk(counts[note.bucket := Number(counts, note.bucket) + 1], log + [note])
  {
    TalliesGrow(log, note);
  }

  class Inventory {
    const s: Settings
    var files: seq<Path>
    var sourceBytes: nat
    var counts: Counts
    var fileLimitReached: bool
    var byteLimitReached: bool
    var timeLimitReached: bool
    ghost var log: seq<Note>

    constructor (s: Settings)
      ensures this.s == s && Valid() && log == [] && !fileLimitReached && !timeLimitReached
    {
      this.s := s;
      files, sourceBytes, counts, log := [], 0, map[], [];
      fileLimitReached, byteLimitReached, timeLimitReached := false, false, false;
    }

    function Counted(bucket: Bucket): nat
      reads this
    {
      Number(counts, bucket)
    }

    ghost predicate Valid()
      reads this
    {
      && LogOk(s, log)
      && files == AcceptedPaths(log) && |files| <= s.maxFiles
      && sourceBytes == AcceptedBytes(log) <= s.maxBytes
      && CountsOk(counts, log)
      && (byteLimitReached <==> Count(log, OverBudget) > 0)
    }

    /** The accepted files and all the counters of excluded entries. */
    function Total(): nat
      reads this
    {
      |files| + Counted(Ignored) + Counted(ExcludedDirectory) + Counted(SymbolicLink) + Counted(Irrelevant)
      + Counted(NotIncluded) + Counted(ExcludedByPattern) + Counted(Unread) + Counted(Oversized)
      + Counted(OverBudget) + Counted(BinaryFile)
    }

    predicate Complete()
      reads this
    {
      !fileLimitReached && !timeLimitReached
    }

    method Accept(item: Item)
      requires Valid() && Accepted == BucketOf(s, item, sourceBytes)
      requires |files| < s.maxFiles && sourceBytes + Size(item.entry) <= s.maxBytes
      modifies `files, `sourceBytes, `log
      ensures Valid() && log == old(log) + [Note(item, Accepted)]
    {
      LogGrows(s, log, Note(item, Accepted));
      TalliesGrow(log, Note(item, Accepted));
      CountsGrow(counts, log, Note(item, Accepted));
      files := files + [item.path];
      sourceBytes := sourceBytes + Size(item.entry);
      log := log + [Note(item, Accepted)];
    }

    /** Counts an entry in its bucket. */
    method Exclude(item: Item, bucket: Bucket)
      requires Valid() && !bucket.Accepted? && bucket == BucketOf(s, item, sourceBytes)
      modifies `counts, `byteLimitReached, `log
      ensures Valid() && log == old(log) + [Note(item, bucket)]
    {
      ghost var note := Note(item, bucket);
      LogGrows(s, log, note);
      TalliesGrow(log, note);
      CountsGrow(counts, log, note);
      counts := counts[bucket := Counted(bucket) + 1];
      byteLimitReached := byteLimitReached || bucket.OverBudget?;
      log := log + [note];
    }

    method VisitFile(path: Path, e: Entry)
      requires Valid() && e.File? && |files| < s.maxFiles
      modifies this
      ensures Valid() && log == old(log) + [Note(Item(path, e), BucketOf(s, Item(path, e), old(sourceBytes)))]
      ensures fileLimitReached == old(fileLimitReached) && timeLimitReached == old(timeLimitReached)
    {
      var ignored := Ignores(s, path);
      var bucket: Bucket;
      if ignored {
        bucket := Ignored;
      } else if !s.relevant(path) {
        bucket := Irrelevant;
      } else if !s.included(path) {
        bucket := NotIncluded;
      } else if s.excluded(path) {
        bucket := ExcludedByPattern;
      } else if e.size.None? {
        bucket := Unread;
      } else if e.size.value > s.maxFileBytes {
        bucket := Oversized;
      } else if sourceBytes + e.size.value > s.maxBytes {
        bucket := OverBudget;
      } else if e.content.Unreadable? {
        bucket := Unread;
      } else if e.content.Binary? {
        bucket := BinaryFile;
      } else {
        bucket := Accepted;
      }
      if bucket.Accepted? {
        Accept(Item(path, e));
      } else {
        Exclude(Item(path, e), bucket);
      }
    }

    /** The checks before a directory and before each entry; the clock may say anything. */
    method Stop() returns (stop: bool)
      requires Valid()
      modifies `fileLimitReached, `timeLimitReached
      ensures Valid()
      ensures stop ==> !Complete()
      ensures !stop ==> |files| < s.maxFiles
      ensures !stop ==> fileLimitReached == old(fileLimitReached) && timeLimitReached == old(timeLimitReached)
      ensures old(fileLimitReached) ==> fileLimitReached
      ensures old(timeLimitReached) ==> timeLimitReached
    {
      if * {
        timeLimitReached := true;
        return true;
      }
      if |files| >= s.maxFiles {
        fileLimitReached := true;
        return true;
      }
      return false;
    }

    method NoteExcluded(item: Item, bucket: Bucket) returns (ghost added: seq<Note>)
      requires Valid() && !bucket.Accepted? && bucket == BucketOf(s, item, sourceBytes)
      modifies `counts, `byteLimitReached, `log
      ensures Valid() && log == old(log) + added && Walked(added, [item], Complete())
    {
      added := [Note(item, bucket)];
      WalkedOne(added[0], Complete());
      Exclude(item, bucket);
    }

    method VisitDirectory(directory: Path, e: Entry) returns (ghost added: seq<Note>)
      requires Valid() && IsDirectory(e)
      modifies this
      ensures Valid() && log == old(log) + added
      ensures Walked(added, ReachEntry(s, directory, e), Complete())
      ensures !old(Complete()) ==> !Complete()
      decreases e, 0
    {
      var path := Child(directory, e.name);
      var ignored := Ignores(s, path);
      if ignored || e.name in s.excludedNames {
        var bucket := if ignored then Ignored else ExcludedDirectory;
        added := NoteExcluded(Item(path, e), bucket);
      } else if e.Directory? {
        added := Visit(path, e.entries);
      } else {
        added := [];
        WalkedNothing([]);
      }
    }

    method VisitEntry(directory: Path, e: Entry) returns (ghost added: seq<Note>)
      requires Valid() && |files| < s.maxFiles
      modifies this
      ensures Valid() && log == old(log) + added
      ensures Walked(added, ReachEntry(s, directory, e), Complete())
      ensures !old(Complete()) ==> !Complete()
      decreases e, 1
    {
      var path := Child(directory, e.name);
      if e.Symlink? {
        added := NoteExcluded(Item(path, e), SymbolicLink);
      } else if IsDirectory(e) {
        added := VisitDirectory(directory, e);
      } else if e.File? {
        added := [Note(Item(path, e), BucketOf(s, Item(path, e), sourceBytes))];
        WalkedOne(added[0], Complete());
        VisitFile(path, e);
      } else {
        added := [];
        WalkedNothing([]);
      }
    }

    /** One turn of the loop over the entries of a directory. */
    method VisitNext(directory: Path, entries: seq<Entry>, i: nat, ghost added: seq<Note>)
      returns (stop: bool, ghost more: seq<Note>)
      requires Valid() && i < |entries| && Walked(added, Reach(s, directory, entries[..i]), Complete())
      modifies this
      ensures Valid() && log == old(log) + more
      ensures stop ==> more == [] && Walked(added, Reach(s, directory, entries), Complete())
      ensures !stop ==> Walked(added + more, Reach(s, directory, entries[..i + 1]), Complete())
      ensures !old(Complete()) || stop ==> !Complete()
      decreases entries, 0
    {
      ghost var complete := Complete();
      stop := Stop();
      if stop {
        more := [];
        WalkStops(s, directory, entries, i, added, complete);
      } else {
        more := VisitEntry(directory, entries[i]);
        WalkGrows(s, directory, entries, i, added, more, complete, Complete());
      }
    }

    method Visit(directory: Path, entries: seq<Entry>) returns (ghost added: seq<Note>)
      requires Valid()
      modifies this
      ensures Valid() && log == old(log) + added
      ensures Walked(added, Reach(s, directory, entries), Complete())
      ensures !old(Complete()) ==> !Complete()
      decreases entries, 1
    {
      added := [];
      var stop := Stop();
      if stop {
        WalkedNothing(Reach(s, directory, entries));
        return;
      }
      WalkedNothing([]);
      assert entries[..0] == [];
      var i := 0;
      while i < |entries|
        invariant 0 <= i <= |entries| && Valid()
        invariant log == old(log) + added
        invariant Walked(added, Reach(s, directory, entries[..i]), Complete())
        invariant !old(Complete()) ==> !Complete()
      {
        ghost var more;
        stop, more := VisitNext(directory, entries, i, added);
        Regroup(old(log), added, more);
        if stop {
          return;
        }
        added := added + more;
        i := i + 1;
      }
      assert entries[..i] == entries;
    }
  }

  // ---- what the inventory promises ----

  /** Reads the accepted files of a root. For any tree and any clock the budgets hold, every entry
      the walk reached is counted once, and without a limit it reached all of them. */
  method Collect(s: Settings, entries: seq<Entry>) returns (inventory: Inventory)
    ensures inventory.s == s && inventory.Valid()
    ensures |inventory.files| <= s.maxFiles && inventory.sourceBytes <= s.maxBytes
    ensures Walked(inventory.log, Reach(s, "", entries), inventory.Complete())
    ensures inventory.Total() == |inventory.log|
    ensures inventory.Complete() ==> inventory.Total() == |Reach(s, "", entries)|
  {
    inventory := new Inventory(s);
    ghost var added := inventory.Visit("", entries);
    assert inventory.log == added;
    BucketsAddUp(inventory.log);
  }

  function Excluded(log: seq<Note>): nat {
    Count(log, Ignored) + Count(log, ExcludedDirectory) + Count(log, SymbolicLink) + Count(log, Irrelevant)
    + Count(log, NotIncluded) + Count(log, ExcludedByPattern) + Count(log, Unread) + Count(log, Oversized)
    + Count(log, OverBudget) + Count(log, BinaryFile)
  }

  lemma ExcludedGrows(log: seq<Note>, note: Note)
    ensures Excluded(log + [note]) == Excluded(log) + (if note.bucket.Accepted? then 0 else 1)
  {
    TalliesGrow(log, note);
  }

  lemma {:induction false} BucketsAddUp(log: seq<Note>)
    ensures |AcceptedPaths(log)| + Excluded(log) == |log|
  {
    if log != [] {
      var n := |log| - 1;
      BucketsAddUp(log[..n]);
      TalliesGrow(log[..n], log[n]);
      ExcludedGrows(log[..n], log[n]);
      assert log == log[..n] + [log[n]];
    }
  }

  /** An accepted file passed every test and fits every budget together with those before it. */
  lemma AcceptedFits(s: Settings, log: seq<Note>, k: nat)
    requires LogOk(s, log) && k < |log| && log[k].bucket.Accepted?
    ensures var item := log[k].item;
      && item.entry.File? && item.entry.size.Some? && item.entry.size.value <= s.maxFileBytes
      && AcceptedBytes(log[..k + 1]) <= s.maxBytes
      && !IsIgnored(s, item.path) && s.relevant(item.path) && s.included(item.path) && !s.excluded(item.path)
  {
    assert log[..k + 1] == log[..k] + [log[k]];
    TalliesGrow(log[..k], log[k]);
  }

  // ---- no entry is counted twice ----

  predicate ProperName(name: string) {
    name != "" && '/' !in name
  }

  /** What a file system guarantees: proper names, no two alike in a directory. */
  predicate Tidy(entries: seq<Entry>)
    decreases entries
  {
    && (forall i, j :: 0 <= i < j < |entries| ==> entries[i].name != entries[j].name)
    && (forall i :: 0 <= i < |entries| ==> ProperName(entries[i].name))
    && (forall i :: 0 <= i < |entries| && entries[i].Directory? ==> Tidy(entries[i].entries))
  }

  predicate Under(path: Path, root: Path) {
    path == root || root + "/" <= path
  }

  function FirstSegment(t: string): string {
    if t == "" || t[0] == '/' then "" else [t[0]] + FirstSegment(t[1..])
  }

  lemma {:induction false} SegmentOf(t: string, name: string)
    requires '/' !in name && Under(t, name)
    ensures FirstSegment(t) == name
  {
    if name != "" {
      assert (name + "/")[1..] == name[1..] + "/";
      SegmentOf(t[1..], name[1..]);
    }
  }

  /** The name below a directory is read off the path. */
  lemma UnderChild(path: Path, directory: Path, name: string)
    requires ProperName(name) && Under(path, Child(directory, name))
    ensures var p := if directory == "" then "" else directory + "/";
      |p| <= |path| && FirstSegment(path[|p|..]) == name
  {
    var p := if directory == "" then "" else directory + "/";
    assert Child(directory, name) == p + name;
    assert path[|p|..][..|name|] == name;
    if path != p + name {
      assert (p + name) + "/" == p + (name + "/");
      assert path[|p|..][..|name| + 1] == name + "/";
    }
    SegmentOf(path[|p|..], name);
  }

  lemma UnderParent(path: Path, directory: Path, name: string)
    requires directory != "" && Under(path, Child(directory, name))
    ensures Under(path, directory)
  {
    assert directory + "/" <= Child(directory, name);
  }

  lemma {:induction false} ReachEntryUnder(s: Settings, directory: Path, e: Entry, k: nat)
    requires ProperName(e.name) && (e.Directory? ==> Tidy(e.entries)) && k < |ReachEntry(s, directory, e)|
    ensures Under(ReachEntry(s, directory, e)[k].path, Child(directory, e.name))
    decreases e
  {
    var path := Child(directory, e.name);
    if e.Directory? && !Pruned(s, path, e) {
      var j := ReachUnder(s, path, e.entries, k);
      UnderParent(Reach(s, path, e.entries)[k].path, path, e.entries[j].name);
    }
  }

  lemma {:induction false} ReachAt(s: Settings, directory: Path, entries: seq<Entry>, k: nat)
    requires entries != [] && k < |Reach(s, directory, entries)|
    ensures var first := ReachEntry(s, directory, entries[0]);
      if k < |first| then Reach(s, directory, entries)[k] == first[k]
      else k - |first| < |Reach(s, directory, entries[1..])|
           && Reach(s, directory, entries)[k] == Reach(s, directory, entries[1..])[k - |first|]
  {}

  lemma {:induction false} ReachUnder(s: Settings, directory: Path, entries: seq<Entry>, k: nat) returns (j: nat)
    requires Tidy(entries) && k < |Reach(s, directory, entries)|
    ensures j < |entries| && Under(Reach(s, directory, entries)[k].path, Child(directory, entries[j].name))
    decreases entries
  {
    var n := |ReachEntry(s, directory, entries[0])|;
    ReachAt(s, directory, entries, k);
    if k < n {
      ReachEntryUnder(s, directory, entries[0], k);
      j := 0;
    } else {
      j := ReachUnder(s, directory, entries[1..], k - n);
      j := j + 1;
    }
  }

  predicate DistinctPaths(items: seq<Item>) {
    forall i, j :: 0 <= i < j < |items| ==> items[i].path != items[j].path
  }

  lemma {:induction false} ReachEntryDistinct(s: Settings, directory: Path, e: Entry)
    requires e.Directory? ==> Tidy(e.entries)
    ensures DistinctPaths(ReachEntry(s, directory, e))
    decreases e
  {
    if e.Directory? {
      ReachDistinct(s, Child(directory, e.name), e.entries);
    }
  }

  lemma {:induction false} ReachDistinct(s: Settings, directory: Path, entries: seq<Entry>)
    requires Tidy(entries)
    ensures DistinctPaths(Reach(s, directory, entries))
    decreases entries
  {
    if entries != [] {
      var first, rest := ReachEntry(s, directory, entries[0]), Reach(s, directory, entries[1..]);
      ReachEntryDistinct(s, directory, entries[0]);
      ReachDistinct(s, directory, entries[1..]);
      forall i, j | 0 <= i < |first| && 0 <= j < |rest| ensures first[i].path != rest[j].path {
        ReachEntryUnder(s, directory, entries[0], i);
        var m := ReachUnder(s, directory, entries[1..], j);
        if first[i].path == rest[j].path {
          UnderChild(first[i].path, directory, entries[0].name);
          UnderChild(rest[j].path, directory, entries[1..][m].name);
        }
      }
    }
  }

  /** Whatever the limits and the clock did, no path is noted twice: each has exactly one bucket. */
  lemma OneBucketEach(s: Settings, entries: seq<Entry>, log: seq<Note>, complete: bool, i: nat, j: nat)
    requires Tidy(entries) && Walked(log, Reach(s, "", entries), complete) && i < j < |log|
    ensures log[i].item.path != log[j].item.path
  {
    ReachDistinct(s, "", entries);
    var at :| PartBy(Items(log), Reach(s, "", entries), at);
    assert Items(log)[i] == log[i].item && Items(log)[j] == log[j].item;
  }

  lemma {:induction false} ReachSplit(s: Settings, directory: Path, entries: seq<Entry>, i: nat)
    requires i <= |entries|
    ensures Reach(s, directory, entries) == Reach(s, directory, entries[..i]) + Reach(s, directory, entries[i..])
    decreases i
  {
    if i == 0 {
      assert entries[..0] == [] && entries[0..] == entries;
    } else {
      ReachSplit(s, directory, entries[1..], i - 1);
      assert entries[..i][0] == entries[0] && entries[..i][1..] == entries[1..][..i - 1];
      assert entries[1..][i - 1..] == entries[i..];
    }
  }

  lemma ReachSnoc(s: Settings, directory: Path, entries: seq<Entry>, i: nat)
    requires i < |entries|
    ensures Reach(s, directory, entries[..i + 1])
      == Reach(s, directory, entries[..i]) + ReachEntry(s, directory, entries[i])
  {
    ReachSplit(s, directory, entries[..i + 1], i);
    assert entries[..i + 1][..i] == entries[..i] && entries[..i + 1][i..] == [entries[i]];
    assert [entries[i]][1..] == [];
    assert Reach(s, directory, [entries[i]]) == ReachEntry(s, directory, entries[i]) + [];
  }
}
