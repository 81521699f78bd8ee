/** The header the exporter writes, field by field as the format lays it out. */
module UstarLayout {
  import opened Prelude
  import opened Ustar
  import opened UstarRoundTrip
  import opened UstarReader

  /** The octal digits of a number, filled with zeros to a width. */
  function Digits(n: nat, width: nat): Bytes {
    PadStart(OctalDigits(n), width)
  }

  lemma FieldOfDigits(n: nat, length: nat)
    requires length >= 2 && n < Power8(length - 1)
    ensures OctalField(n, length) == Digits(n, length - 1) && |Digits(n, length - 1)| == length - 1
    ensures NulFree(Digits(n, length - 1))
  {
    PaddedRoundTrip(n, length - 1);
    DigitsAreNulFree(n, length - 1);
  }

  lemma SmallNumbers()
    ensures 0x1A4 < Power8(7) && 0 < Power8(7) && 0 < Power8(11)
  {
    PowersOfEight();
    assert Power8(7) == 8 * Power8(6);
  }

  /** The byte at `k` that the name, the mode, the owner, the group and the size put there. */
  function FrontByte(name: Bytes, size: nat, k: nat): Byte
    requires |name| <= 100 && |Digits(0x1A4, 7)| == 7 && |Digits(0, 7)| == 7 && |Digits(size, 11)| == 11
  {
    if k < |name| then name[k]
    else if 100 <= k < 107 then Digits(0x1A4, 7)[k - 100]
    else if 108 <= k < 115 then Digits(0, 7)[k - 108]
    else if 116 <= k < 123 then Digits(0, 7)[k - 116]
    else if 124 <= k < 135 then Digits(size, 11)[k - 124]
    else 0
  }

  lemma FrontIsLaidOut(name: Bytes, size: nat, k: nat)
    requires |name| <= 100 && size < Power8(11) && k < BLOCK
    ensures |Digits(0x1A4, 7)| == 7 && |Digits(0, 7)| == 7 && |Digits(size, 11)| == 11
    ensures FrontFields(Zeros(BLOCK), name, size)[k] == FrontByte(name, size, k)
  {
    SmallNumbers();
    FieldOfDigits(0x1A4, 8);
    FieldOfDigits(0, 8);
    FieldOfDigits(size, 12);
  }

  /** Behind them come the time, the checksum, the type and the magic with its version. */
  lemma BackIsLaidOut(front: Bytes, field: Bytes, k: nat)
    requires |front| == BLOCK && |field| == 8 && k < BLOCK
    ensures |Digits(0, 11)| == 11
    ensures Set(BackFields(front), 148, field)[k] ==
      if 136 <= k < 147 then Digits(0, 11)[k - 136]
      else if 148 <= k < 156 then field[k - 148]
      else if k == 156 then 0x30
      else if 257 <= k < 262 then USTAR[k - 257]
      else if 263 <= k < 265 then 0x30
      else front[k]
  {
    SmallNumbers();
    FieldOfDigits(0, 12);
  }

  /** What a header of the format holds. */
  predicate FollowsFormat(h: Bytes, name: Bytes, size: nat, sum: nat) {
    && |h| == BLOCK
    && Field(h, 0, 100, name)
    && Field(h, 100, 8, Digits(0x1A4, 7)) // mode 0644
    && Field(h, 108, 8, Digits(0, 7)) && Field(h, 116, 8, Digits(0, 7)) // owner and group
    && Field(h, 124, 12, Digits(size, 11))
    && Field(h, 136, 12, Digits(0, 11)) // time
    && Field(h, 148, 7, Digits(sum, 6)) && h[155] == 0x20
    && h[156] == 0x30 // a regular file
    && Field(h, 157, 100, []) // no link
    && Field(h, 257, 6, USTAR) && h[263] == 0x30 && h[264] == 0x30
    && forall k :: 265 <= k < BLOCK ==> h[k] == 0 // no owner names, devices or prefix
  }

  lemma FieldByBytes(h: Bytes, start: nat, length: nat, s: Bytes)
    requires start + length <= |h| && |s| <= length && NulFree(s)
    requires forall k :: start <= k < start + |s| ==> h[k] == s[k - start]
    requires |s| < length ==> h[start + |s|] == 0
    ensures Field(h, start, length, s)
  {}

  lemma ChecksumIsDigits(blank: Bytes)
    requires |blank| == BLOCK && blank[148..156] == seq(8, _ => SPACE)
    ensures ByteSum(blank) == SumOf(blank) < Power8(6)
    ensures ChecksumField(ByteSum(blank)) == Digits(SumOf(blank), 6) + [0, SPACE]
    ensures |Digits(SumOf(blank), 6)| == 6 && NulFree(Digits(SumOf(blank), 6))
  {
    assert Masked(blank) == blank;
    MaskedSum(blank);
    SumIsSmall(blank);
    PaddedRoundTrip(SumOf(blank), 6);
    DigitsAreNulFree(SumOf(blank), 6);
  }

  /** The header written for a name and a size follows the format, with its own sum. */
  lemma HeaderFollowsFormat(name: Bytes, size: nat)
    requires |name| <= 100 && NulFree(name) && size < Power8(11)
    ensures var h := Header(name, size); |h| == BLOCK && FollowsFormat(h, name, size, SumOf(h))
  {
    var front, blank, h := FrontFields(Zeros(BLOCK), name, size), BlankHeader(name, size), Header(name, size);
    HeaderSlices(name, size);
    ChecksumIsDigits(blank);
    SumUnaffected(blank, ChecksumField(ByteSum(blank)));
    var digits := Digits(SumOf(blank), 6);
    DigitsFit(name, size, digits);
    BytesAreLaidOut(name, size, front, h, digits);
    FrontFollows(h, name, size, digits);
    BackFollows(h, name, size, digits);
  }

  /** The byte at `k` of the finished header. */
  function HeaderByte(name: Bytes, size: nat, digits: Bytes, k: nat): Byte
    requires |name| <= 100 && |Digits(0x1A4, 7)| == 7 && |Digits(0, 7)| == 7 && |Digits(size, 11)| == 11
    requires |Digits(0, 11)| == 11 && |digits| == 6
  {
    if 136 <= k < 147 then Digits(0, 11)[k - 136]
    else if 148 <= k < 154 then digits[k - 148]
    else if k == 154 then 0
    else if k == 155 then 0x20
    else if k == 156 then 0x30
    else if 257 <= k < 262 then USTAR[k - 257]
    else if 263 <= k < 265 then 0x30
    else FrontByte(name, size, k)
  }

  /** The digits have the widths of their fields. */
  predicate Fit(name: Bytes, size: nat, digits: Bytes) {
    && |name| <= 100 && NulFree(name)
    && |Digits(0x1A4, 7)| == 7 && |Digits(0, 7)| == 7 && |Digits(size, 11)| == 11
    && |Digits(0, 11)| == 11 && |digits| == 6
    && NulFree(Digits(0x1A4, 7)) && NulFree(Digits(0, 7)) && NulFree(Digits(size, 11))
    && NulFree(Digits(0, 11)) && NulFree(digits)
  }

  predicate LaidOut(h: Bytes, name: Bytes, size: nat, digits: Bytes)
    requires Fit(name, size, digits)
  {
    |h| == BLOCK && forall k :: 0 <= k < BLOCK ==> h[k] == HeaderByte(name, size, digits, k)
  }

  lemma DigitsFit(name: Bytes, size: nat, digits: Bytes)
    requires |name| <= 100 && NulFree(name) && size < Power8(11) && |digits| == 6 && NulFree(digits)
    ensures Fit(name, size, digits)
  {
    SmallNumbers();
    FieldOfDigits(0x1A4, 8);
    FieldOfDigits(0, 8);
    FieldOfDigits(0, 12);
    FieldOfDigits(size, 12);
  }

  lemma BytesAreLaidOut(name: Bytes, size: nat, front: Bytes, h: Bytes, digits: Bytes)
    requires Fit(name, size, digits) && size < Power8(11) && front == FrontFields(Zeros(BLOCK), name, size)
    requires h == Set(BackFields(front), 148, digits + [0, SPACE])
    ensures LaidOut(h, name, size, digits)
  {
    forall k | 0 <= k < BLOCK ensures h[k] == HeaderByte(name, size, digits, k) {
      FrontIsLaidOut(name, size, k);
      BackIsLaidOut(front, digits + [0, SPACE], k);
    }
  }

  lemma FrontFollows(h: Bytes, name: Bytes, size: nat, digits: Bytes)
    requires Fit(name, size, digits) && LaidOut(h, name, size, digits)
    ensures Field(h, 0, 100, name) && Field(h, 100, 8, Digits(0x1A4, 7)) && Field(h, 108, 8, Digits(0, 7))
    ensures Field(h, 116, 8, Digits(0, 7)) && Field(h, 124, 12, Digits(size, 11))
  {
    FieldByBytes(h, 0, 100, name);
    FieldByBytes(h, 100, 8, Digits(0x1A4, 7));
    FieldByBytes(h, 108, 8, Digits(0, 7));
    FieldByBytes(h, 116, 8, Digits(0, 7));
    FieldByBytes(h, 124, 12, Digits(size, 11));
  }

  lemma BackFollows(h: Bytes, name: Bytes, size: nat, digits: Bytes)
    requires Fit(name, size, digits) && LaidOut(h, name, size, digits)
    ensures Field(h, 136, 12, Digits(0, 11)) && Field(h, 148, 7, digits) && h[155] == 0x20 && h[156] == 0x30
    ensures Field(h, 157, 100, []) && Field(h, 257, 6, USTAR) && h[263] == 0x30 && h[264] == 0x30
    ensures forall k :: 265 <= k < BLOCK ==> h[k] == 0
  {
    FieldByBytes(h, 136, 12, Digits(0, 11));
    FieldByBytes(h, 148, 7, digits);
    FieldByBytes(h, 157, 100, []);
    FieldByBytes(h, 257, 6, USTAR);
  }
}
