/** The ustar interchange format as the two archive files of the repository use it: the header
    the workspace-intelligence exporter lays out, and the fields the plugin store reads back. */
module Ustar {
  import opened Prelude

  const BLOCK := 512
  const NAME_LENGTH := 100
  const MAX_ARCHIVE_BYTES := 64 * 1024 * 1024
  const MAX_SAFE_INTEGER := 0x1F_FFFF_FFFF_FFFF
  const SPACE: Byte := 0x20
  const ZERO_DIGIT: Byte := 0x30
  const SLASH: Byte := 0x2F
  const USTAR: Bytes := [0x75, 0x73, 0x74, 0x61, 0x72]
  const VERSION: Bytes := [0x30, 0x30]

  // ---- octal numbers ----

  function OctalDigits(n: nat): (d: Bytes)
    ensures d != [] && AllOctal(d)
  {
    if n < 8 then [ZERO_DIGIT + n] else OctalDigits(n / 8) + [ZERO_DIGIT + n % 8]
  }

  predicate AllOctal(d: Bytes) {
    forall i :: 0 <= i < |d| ==> 0x30 <= d[i] <= 0x37
  }

  function ParseOctal(d: Bytes): nat
    requires AllOctal(d)
  {
    if d == [] then 0 else 8 * ParseOctal(d[..|d| - 1]) + (d[|d| - 1] - ZERO_DIGIT)
  }

  function Zeros(n: nat): (z: Bytes)
    ensures |z| == n
  {
    seq(n, _ => 0)
  }

  function PadStart(d: Bytes, width: nat): (p: Bytes)
    ensures |p| == if |d| < width then width else |d|
  {
    seq(if |d| < width then width - |d| else 0, _ => ZERO_DIGIT) + d
  }

  function Power8(k: nat): (p: nat)
    ensures p > 0
  {
    if k == 0 then 1 else 8 * Power8(k - 1)
  }

  // ---- the writer's layout ----

  /** `target.set(value, offset)`. */
  function Set(target: Bytes, offset: nat, value: Bytes): (t: Bytes)
    requires offset + |value| <= |target|
    ensures |t| == |target|
    ensures forall i :: 0 <= i < |t| ==> t[i] == if offset <= i < offset + |value| then value[i - offset] else target[i]
  {
    target[..offset] + value + target[offset + |value|..]
  }

  function OctalField(n: nat, length: nat): (f: Bytes)
    requires length > 0
    ensures |f| <= length
  {
    var p := PadStart(OctalDigits(n), length - 1);
    p[..Min(length, |p|)]
  }

  /** Name, mode, owner, group and size. */
  function FrontFields(header: Bytes, name: Bytes, size: nat): (h: Bytes)
    requires |header| == BLOCK && |name| <= NAME_LENGTH
    ensures |h| == BLOCK
  {
    var h1 := Set(header, 0, name);
    var h2 := Set(h1, 100, OctalField(0x1A4, 8));
    var h3 := Set(h2, 108, OctalField(0, 8));
    var h4 := Set(h3, 116, OctalField(0, 8));
    Set(h4, 124, OctalField(size, 12))
  }

  /** Time, blank checksum, type, magic and version. */
  function BackFields(header: Bytes): (h: Bytes)
    requires |header| == BLOCK
    ensures |h| == BLOCK
  {
    var h1 := Set(header, 136, OctalField(0, 12));
    var h2 := Set(h1, 148, seq(8, _ => SPACE));
    var h3 := Set(h2, 156, [ZERO_DIGIT]);
    var h4 := Set(h3, 257, USTAR);
    Set(h4, 263, VERSION)
  }

  /** The header with blanks where the checksum goes. */
  function BlankHeader(name: Bytes, size: nat): (h: Bytes)
    requires |name| <= NAME_LENGTH
    ensures |h| == BLOCK
  {
    BackFields(FrontFields(Zeros(BLOCK), name, size))
  }

  function ByteSum(s: Bytes): nat {
    if s == [] then 0 else ByteSum(s[..|s| - 1]) + s[|s| - 1]
  }

  function ChecksumField(sum: nat): (f: Bytes)
    ensures |f| <= 8
  {
    var f := PadStart(OctalDigits(sum), 6) + [0, SPACE];
    f[..Min(8, |f|)]
  }

  function Header(name: Bytes, size: nat): (h: Bytes)
    requires |name| <= NAME_LENGTH
    ensures |h| == BLOCK
  {
    var h := BlankHeader(name, size);
    Set(h, 148, ChecksumField(ByteSum(h)))
  }

  function Padding(size: nat): nat {
    (BLOCK - size % BLOCK) % BLOCK
  }

  datatype File = File(name: Bytes, contents: Bytes)

  function EntryBytes(f: File): Bytes
    requires |f.name| <= NAME_LENGTH
  {
    Header(f.name, |f.contents|) + f.contents + Zeros(Padding(|f.contents|))
  }

  predicate NamesFit(files: seq<File>) {
    forall i :: 0 <= i < |files| ==> |files[i].name| <= NAME_LENGTH
  }

  function EntriesBytes(files: seq<File>): Bytes
    requires NamesFit(files)
  {
    if files == [] then [] else EntriesBytes(files[..|files| - 1]) + EntryBytes(files[|files| - 1])
  }

  function ArchiveBytes(files: seq<File>): Bytes
    requires NamesFit(files)
  {
    EntriesBytes(files) + Zeros(2 * BLOCK)
  }

  // ---- the reader ----

  datatype Kind = Regular | Directory | Symlink | Device | Other

  datatype Entry = Entry(path: Bytes, kind: Kind, contents: Bytes)

  datatype Failure =
    | TruncatedHeader
    | DataAfterTerminator
    | InvalidNumber
    | InvalidChecksum
    | TruncatedEntry
    | RefusedByPolicy
    | UnsafeEntry

  datatype Result<+T> = Ok(value: T) | Err(failure: Failure)

  /** Where the first NUL stands, or the length. */
  function NulAt(s: Bytes): (n: nat)
    ensures n <= |s|
  {
    if s == [] || s[0] == 0 then 0 else 1 + NulAt(s[1..])
  }

  function CutAtNul(s: Bytes): Bytes {
    s[..NulAt(s)]
  }

  function ReadString(header: Bytes, start: nat, length: nat): Bytes
    requires start + length <= |header|
  {
    CutAtNul(header[start..start + length])
  }

  predicate IsWhite(b: Byte) {
    b == SPACE || 0x09 <= b <= 0x0D
  }

  function TrimStart(s: Bytes): (t: Bytes) {
    if s != [] && IsWhite(s[0]) then TrimStart(s[1..]) else s
  }

  function TrimEnd(s: Bytes): (t: Bytes) {
    if s != [] && IsWhite(s[|s| - 1]) then TrimEnd(s[..|s| - 1]) else s
  }

  function ReadOctal(header: Bytes, start: nat, length: nat): Option<nat>
    requires start + length <= |header|
  {
    var text := TrimEnd(TrimStart(ReadString(header, start, length)));
    if text == [] || !AllOctal(text) || ParseOctal(text) > MAX_SAFE_INTEGER then None
    else Some(ParseOctal(text))
  }

  /** The header with its checksum field counted as blanks. */
  function Masked(header: Bytes): (m: Bytes)
    requires |header| == BLOCK
  {
    Set(header, 148, seq(8, _ => SPACE))
  }

  predicate ChecksumHolds(header: Bytes, expected: nat)
    requires |header| == BLOCK
  {
    expected == ByteSum(Masked(header))
  }

  function KindOf(flag: Byte): Kind {
    if flag == 0 || flag == 48 then Regular
    else if flag == 53 then Directory
    else if flag == 50 then Symlink
    else if flag == 51 || flag == 52 || flag == 54 then Device
    else Other
  }

  predicate AllZero(s: Bytes) {
    forall i :: 0 <= i < |s| ==> s[i] == 0
  }

  /** The path, kind and size of one header block. */
  function ReadHeader(header: Bytes): Result<(Bytes, Kind, nat)>
    requires |header| == BLOCK
  {
    var checksum := ReadOctal(header, 148, 8);
    if checksum.None? then Err(InvalidNumber)
    else if !ChecksumHolds(header, checksum.value) then Err(InvalidChecksum)
    else
      var path := ReadString(header, 0, NAME_LENGTH);
      var prefix := ReadString(header, 345, 155);
      var size := ReadOctal(header, 124, 12);
      if size.None? then Err(InvalidNumber)
      else Ok((if prefix != [] then prefix + [SLASH] + path else path, KindOf(header[156]), size.value))
  }

  /** The size rounded up to whole blocks. */
  function Blocks(size: nat): nat {
    if size == 0 then 0 else if size <= BLOCK then BLOCK else BLOCK + Blocks(size - BLOCK)
  }

  /** The entries of the part of an archive that is still unread. */
  function Entries(rest: Bytes): Result<seq<Entry>>
    decreases |rest|
  {
    if rest == [] then Ok([])
    else if |rest| < BLOCK then Err(TruncatedHeader)
    else if AllZero(rest[..BLOCK]) then (if AllZero(rest) then Ok([]) else Err(DataAfterTerminator))
    else
      match ReadHeader(rest[..BLOCK])
      case Err(failure) => Err(failure)
      case Ok((path, kind, size)) =>
        if BLOCK + size > |rest| then Err(TruncatedEntry)
        else
          var next := BLOCK + Blocks(size);
          match Entries(if next <= |rest| then rest[next..] else [])
          case Err(failure) => Err(failure)
          case Ok(more) => Ok([Entry(path, kind, rest[BLOCK..BLOCK + size])] + more)
  }

  /** What is left of an archive from an offset on; the offset may lie behind its end. */
  function Rest(archive: Bytes, offset: nat): Bytes {
    if offset <= |archive| then archive[offset..] else []
  }

  function Prepend(entries: seq<Entry>, more: Result<seq<Entry>>): Result<seq<Entry>> {
    match more
    case Ok(tail) => Ok(entries + tail)
    case Err(failure) => Err(failure)
  }

  /** The archive policy judges paths, kinds and sizes. */
  type Policy = seq<(Bytes, Kind, nat)> -> bool

  type Safety = Bytes -> bool

  function Listing(entries: seq<Entry>): seq<(Bytes, Kind, nat)> {
    seq(|entries|, i requires 0 <= i < |entries| => (entries[i].path, entries[i].kind, |entries[i].contents|))
  }

  /** The files of the accepted entries; a later entry of the same path replaces an earlier one. */
  function Collect(entries: seq<Entry>, safe: Safety): Result<map<Bytes, Bytes>> {
    if entries == [] then Ok(map[])
    else
      var n := |entries| - 1;
      match Collect(entries[..n], safe)
      case Err(failure) => Err(failure)
      case Ok(files) =>
        if entries[n].kind.Directory? then Ok(files)
        else if !entries[n].kind.Regular? || !safe(entries[n].path) then Err(UnsafeEntry)
        else Ok(files[entries[n].path := entries[n].contents])
  }

  function ReadArchive(archive: Bytes, policy: Policy, safe: Safety): Result<map<Bytes, Bytes>> {
    match Entries(archive)
    case Err(failure) => Err(failure)
    case Ok(entries) => if policy(Listing(entries)) then Collect(entries, safe) else Err(RefusedByPolicy)
  }
}
