/** The characters of JSON texts, written as characters (sections 2 to 7 of RFC 8259). */
module GoalPlanJsonCharacters {
  import opened Prelude
  import GoalPlanInfo
  import opened GoalPlanJson

  /** The unit is the one of some character of the text. */
  predicate Among(u: CodeUnit, s: string) {
    exists i :: 0 <= i < |s| && s[i] as int == u
  }

  lemma TokensExactly()
    ensures QUOTE == '"' as int && BACKSLASH == '\\' as int && LETTER_U == 'u' as int
    ensures COMMA == ',' as int && COLON == ':' as int && MINUS == '-' as int && DOT == '.' as int
    ensures OPEN_BRACKET == '[' as int && CLOSE_BRACKET == ']' as int
    ensures OPEN_BRACE == '{' as int && CLOSE_BRACE == '}' as int
    ensures TRUE == GoalPlanInfo.Units("true") && FALSE == GoalPlanInfo.Units("false")
    ensures NULL == GoalPlanInfo.Units("null")
  {}

  lemma BlankExactly(u: CodeUnit)
    ensures IsBlank(u) <==> Among(u, " \t\n\r")
  {
    var s := " \t\n\r";
    assert s[0] as int == 0x20 && s[1] as int == 0x09 && s[2] as int == 0x0A && s[3] as int == 0x0D;
  }

  lemma SignExactly(u: CodeUnit)
    ensures IsSign(u) <==> Among(u, "+-")
  {
    var s := "+-";
    assert s[0] as int == 0x2B && s[1] as int == 0x2D;
  }

  const DIGITS := "0123456789abcdef"

  lemma DigitAt(i: nat)
    requires i < 16
    ensures DIGITS[i] as int == if i < 10 then 0x30 + i else 0x57 + i
  {
    assert DIGITS[0] == '0' && DIGITS[1] == '1' && DIGITS[2] == '2' && DIGITS[3] == '3' && DIGITS[4] == '4';
    assert DIGITS[5] == '5' && DIGITS[6] == '6' && DIGITS[7] == '7' && DIGITS[8] == '8' && DIGITS[9] == '9';
    assert DIGITS[10] == 'a' && DIGITS[11] == 'b' && DIGITS[12] == 'c';
    assert DIGITS[13] == 'd' && DIGITS[14] == 'e' && DIGITS[15] == 'f';
  }

  /** The unit is the hexadecimal digit of this value, in either case. */
  predicate IsDigitOf(u: CodeUnit, n: nat) {
    n < 16 && (u == DIGITS[n] as int || (n >= 10 && u == DIGITS[n] as int - 0x20))
  }

  lemma HexExactly(u: CodeUnit)
    ensures IsHex(u) <==> exists n: nat :: IsDigitOf(u, n)
    ensures IsHex(u) ==> IsDigitOf(u, HexValue(u))
    ensures IsDigit(u) <==> exists n: nat :: n < 10 && IsDigitOf(u, n)
  {
    if IsHex(u) {
      DigitAt(HexValue(u));
      assert IsDigitOf(u, HexValue(u));
      assert IsDigit(u) ==> HexValue(u) < 10;
    }
    forall n: nat | IsDigitOf(u, n) ensures IsHex(u) && HexValue(u) == n {
      DigitAt(n);
    }
  }

  /** A `\u` escape stands for the code unit whose hexadecimal digits it has. */
  lemma HexMeansNumber(a: CodeUnit, b: CodeUnit, c: CodeUnit, d: CodeUnit, n: nat)
    requires n < 0x1_0000
    requires IsDigitOf(a, n / 0x1000) && IsDigitOf(b, n / 0x100 % 0x10) && IsDigitOf(c, n / 0x10 % 0x10)
    requires IsDigitOf(d, n % 0x10)
    ensures IsHex(a) && IsHex(b) && IsHex(c) && IsHex(d) && CharMeaning(Hex(a, b, c, d)) == n
  {
    HexPlaces(n);
    DigitIsValue(a, n / 0x1000);
    DigitIsValue(b, n / 0x100 % 0x10);
    DigitIsValue(c, n / 0x10 % 0x10);
    DigitIsValue(d, n % 0x10);
  }

  lemma HexPlaces(n: nat)
    requires n < 0x1_0000
    ensures n == n / 0x1000 * 0x1000 + n / 0x100 % 0x10 * 0x100 + n / 0x10 % 0x10 * 0x10 + n % 0x10
  {
    var a, b := n / 0x10, n / 0x100;
    assert n == a * 0x10 + n % 0x10 && a == b * 0x10 + a % 0x10;
    assert a / 0x10 == b && b / 0x10 == n / 0x1000;
  }

  lemma DigitIsValue(u: CodeUnit, n: nat)
    requires IsDigitOf(u, n)
    ensures IsHex(u) && HexValue(u) == n
  {
    DigitAt(n);
  }

  /** The other escapes, and what they stand for. */
  lemma EscapesExactly(u: CodeUnit)
    ensures IsEscape(u) <==> Among(u, "\"\\/bfnrt")
  {
    var s := "\"\\/bfnrt";
    assert s[0] as int == 0x22 && s[1] as int == 0x5C && s[2] as int == 0x2F && s[3] as int == 0x62;
    assert s[4] as int == 0x66 && s[5] as int == 0x6E && s[6] as int == 0x72 && s[7] as int == 0x74;
  }

  lemma EscapesMean()
    ensures EscapedUnit('b' as int) == 8 && EscapedUnit('f' as int) == 12
    ensures EscapedUnit('n' as int) == '\n' as int && EscapedUnit('r' as int) == '\r' as int
    ensures EscapedUnit('t' as int) == '\t' as int && EscapedUnit('/' as int) == '/' as int
    ensures EscapedUnit('"' as int) == '"' as int && EscapedUnit('\\' as int) == '\\' as int
  {}
}
