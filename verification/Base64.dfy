/** Base64 (section 4 of RFC 4648) as the repository store uses it to keep root metadata. */
module Base64 {
  import opened Prelude

  type Sextet = v: int | 0 <= v < 64

  const PAD: CodeUnit := 0x3D

  function Letter(v: Sextet): CodeUnit {
    if v < 26 then 0x41 + v
    else if v < 52 then 0x61 + (v - 26)
    else if v < 62 then 0x30 + (v - 52)
    else if v == 62 then 0x2B
    else 0x2F
  }

  function ValueOf(u: CodeUnit): Option<Sextet> {
    if 0x41 <= u <= 0x5A then Some(u - 0x41)
    else if 0x61 <= u <= 0x7A then Some(u - 0x61 + 26)
    else if 0x30 <= u <= 0x39 then Some(u - 0x30 + 52)
    else if u == 0x2B then Some(62)
    else if u == 0x2F then Some(63)
    else None
  }

  /** The four letters' values of three bytes, 0 standing in for a missing one. */
  function Split(x: Byte, y: Byte, z: Byte): (Sextet, Sextet, Sextet, Sextet) {
    (x / 4, x % 4 * 16 + y / 16, y % 16 * 4 + z / 64, z % 64)
  }

  function Unsplit(a: Sextet, b: Sextet, c: Sextet, d: Sextet): (Byte, Byte, Byte) {
    var i: int, j: int, k: int, l: int := a, b, c, d;
    (i * 4 + j / 16, j % 16 * 16 + k / 4, k % 4 * 64 + l)
  }

  lemma UnsplitUndoesSplit(x: Byte, y: Byte, z: Byte)
    ensures var (a, b, c, d) := Split(x, y, z); Unsplit(a, b, c, d) == (x, y, z)
  {
    SixteenApart(x % 4, y / 16);
    FourApart(y % 16, z / 64);
  }

  lemma SixteenApart(high: nat, low: nat)
    requires low < 16
    ensures (high * 16 + low) / 16 == high && (high * 16 + low) % 16 == low
  {}

  lemma FourApart(high: nat, low: nat)
    requires low < 4
    ensures (high * 4 + low) / 4 == high && (high * 4 + low) % 4 == low
  {}

  /** Three bytes become four letters; a shorter rest is padded. */
  function Encode(bytes: Bytes): Text {
    if bytes == [] then []
    else if |bytes| == 1 then
      var (a, b, _, _) := Split(bytes[0], 0, 0);
      [Letter(a), Letter(b), PAD, PAD]
    else if |bytes| == 2 then
      var (a, b, c, _) := Split(bytes[0], bytes[1], 0);
      [Letter(a), Letter(b), Letter(c), PAD]
    else
      var (a, b, c, d) := Split(bytes[0], bytes[1], bytes[2]);
      [Letter(a), Letter(b), Letter(c), Letter(d)] + Encode(bytes[3..])
  }

  /** The letters up to the first unit that is none. */
  function Sextets(t: Text): seq<Sextet> {
    if t == [] || ValueOf(t[0]).None? then [] else [ValueOf(t[0]).value] + Sextets(t[1..])
  }

  /** Whole bytes of the bits; what is left over is dropped. */
  function Gather(s: seq<Sextet>): Bytes {
    if |s| < 2 then []
    else if |s| == 2 then [Unsplit(s[0], s[1], 0, 0).0]
    else if |s| == 3 then
      var (x, y, _) := Unsplit(s[0], s[1], s[2], 0);
      [x, y]
    else
      var (x, y, z) := Unsplit(s[0], s[1], s[2], s[3]);
      [x, y, z] + Gather(s[4..])
  }

  function Decode(t: Text): Bytes {
    Gather(Sextets(t))
  }

  lemma LetterValue(v: Sextet)
    ensures ValueOf(Letter(v)) == Some(v)
  {}

  lemma ReadLetter(v: Sextet, t: Text)
    ensures Sextets([Letter(v)] + t) == [v] + Sextets(t)
  {
    LetterValue(v);
    assert ([Letter(v)] + t)[1..] == t;
  }

  lemma {:induction false} ReadFour(a: Sextet, b: Sextet, c: Sextet, d: Sextet, t: Text)
    ensures Sextets([Letter(a), Letter(b), Letter(c), Letter(d)] + t) == [a, b, c, d] + Sextets(t)
  {
    var t2 := [Letter(c), Letter(d)] + t;
    ReadPair(c, d, t);
    ReadPair(a, b, t2);
    assert [Letter(a), Letter(b), Letter(c), Letter(d)] + t == [Letter(a), Letter(b)] + t2;
    assert [a, b] + ([c, d] + Sextets(t)) == [a, b, c, d] + Sextets(t);
  }

  lemma {:induction false} ReadPair(a: Sextet, b: Sextet, t: Text)
    ensures Sextets([Letter(a), Letter(b)] + t) == [a, b] + Sextets(t)
  {
    var t1 := [Letter(b)] + t;
    ReadLetter(b, t);
    ReadLetter(a, t1);
    assert [Letter(a), Letter(b)] + t == [Letter(a)] + t1;
  }

  lemma ReadPadding(t: Text)
    ensures Sextets([PAD] + t) == []
  {}

  lemma ReadTwo(a: Sextet, b: Sextet)
    ensures Sextets([Letter(a), Letter(b), PAD, PAD]) == [a, b]
  {
    ReadPadding([PAD]);
    ReadLetter(b, [PAD] + [PAD]);
    ReadLetter(a, [Letter(b)] + ([PAD] + [PAD]));
    assert [Letter(a), Letter(b), PAD, PAD] == [Letter(a)] + ([Letter(b)] + ([PAD] + [PAD]));
  }

  lemma ReadThree(a: Sextet, b: Sextet, c: Sextet)
    ensures Sextets([Letter(a), Letter(b), Letter(c), PAD]) == [a, b, c]
  {
    ReadPadding([]);
    ReadLetter(c, [PAD] + []);
    ReadLetter(b, [Letter(c)] + ([PAD] + []));
    ReadLetter(a, [Letter(b)] + ([Letter(c)] + ([PAD] + [])));
    assert [Letter(a), Letter(b), Letter(c), PAD] == [Letter(a)] + ([Letter(b)] + ([Letter(c)] + ([PAD] + [])));
  }

  lemma ReadRest(bytes: Bytes)
    requires |bytes| == 1 || |bytes| == 2
    ensures Decode(Encode(bytes)) == bytes
  {
    var y := if |bytes| == 2 then bytes[1] else 0;
    var (a, b, c, _) := Split(bytes[0], y, 0);
    UnsplitUndoesSplit(bytes[0], y, 0);
    ReadTwo(a, b);
    ReadThree(a, b, c);
  }

  lemma {:induction false} DecodeUndoesEncode(bytes: Bytes)
    ensures Decode(Encode(bytes)) == bytes
  {
    if |bytes| >= 3 {
      var (a, b, c, d) := Split(bytes[0], bytes[1], bytes[2]);
      UnsplitUndoesSplit(bytes[0], bytes[1], bytes[2]);
      var more := Encode(bytes[3..]);
      ReadFour(a, b, c, d, more);
      var s := [a, b, c, d] + Sextets(more);
      assert s[4..] == Sextets(more);
      DecodeUndoesEncode(bytes[3..]);
    } else if bytes != [] {
      ReadRest(bytes);
    }
  }
}
