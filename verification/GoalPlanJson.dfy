/** The JSON recogniser of the goal-plan front end: grammar, specification and correctness. */
module GoalPlanJson {
  import opened Prelude

  const MAX_JSON_DEPTH := 64

  const QUOTE: CodeUnit := 0x22
  const COMMA: CodeUnit := 0x2C
  const MINUS: CodeUnit := 0x2D
  const DOT: CodeUnit := 0x2E
  const COLON: CodeUnit := 0x3A
  const OPEN_BRACKET: CodeUnit := 0x5B
  const BACKSLASH: CodeUnit := 0x5C
  const CLOSE_BRACKET: CodeUnit := 0x5D
  const OPEN_BRACE: CodeUnit := 0x7B
  const CLOSE_BRACE: CodeUnit := 0x7D
  const LETTER_U: CodeUnit := 0x75
  const TRUE: Text := [0x74, 0x72, 0x75, 0x65]
  const FALSE: Text := [0x66, 0x61, 0x6C, 0x73, 0x65]
  const NULL: Text := [0x6E, 0x75, 0x6C, 0x6C]

  predicate IsBlank(u: CodeUnit) {
    u == 0x20 || u == 0x09 || u == 0x0A || u == 0x0D
  }

  predicate IsDigit(u: CodeUnit) {
    0x30 <= u <= 0x39
  }

  predicate IsHex(u: CodeUnit) {
    IsDigit(u) || 0x41 <= u <= 0x46 || 0x61 <= u <= 0x66
  }

  function HexValue(u: CodeUnit): (n: nat)
    requires IsHex(u)
    ensures n < 16
  {
    if IsDigit(u) then u - 0x30 else if u <= 0x46 then u - 0x37 else u - 0x57
  }

  /** The single-letter escapes: quote, backslash, slash, b, f, n, r and t. */
  predicate IsEscape(u: CodeUnit) {
    u == QUOTE || u == BACKSLASH || u == 0x2F || u == 0x62 || u == 0x66 || u == 0x6E || u == 0x72 || u == 0x74
  }

  function EscapedUnit(u: CodeUnit): CodeUnit {
    match u
    case 0x62 => 0x08
    case 0x66 => 0x0C
    case 0x6E => 0x0A
    case 0x72 => 0x0D
    case 0x74 => 0x09
    case other => other
  }

  // ---- the grammar of RFC 8259: derivation trees and their yields ----

  datatype StringChar =
    | Plain(unit: CodeUnit)
    | Escaped(letter: CodeUnit)
    | Hex(a: CodeUnit, b: CodeUnit, c: CodeUnit, d: CodeUnit)

  datatype Tree =
    | Literal(word: Text)
    | Number(minus: Text, whole: Text, fraction: Text, exponent: Text)
    | String(chars: seq<StringChar>)
    | Array(blank: Text, items: Items)
    | Object(blank: Text, members: Members)

  /** Values with the white space around each; `Array(blank, NoItems)` is an empty array. */
  datatype Items = NoItems | Item(pre: Text, value: Tree, post: Text, more: Items)

  datatype Members =
    | NoMembers
    | Member(pre: Text, name: seq<StringChar>, mid: Text, lead: Text, value: Tree, post: Text, more: Members)

  predicate Blank(t: Text) {
    forall i :: 0 <= i < |t| ==> IsBlank(t[i])
  }

  predicate Digits(t: Text) {
    forall i :: 0 <= i < |t| ==> IsDigit(t[i])
  }

  predicate WholePart(t: Text) {
    t == [0x30] || (t != [] && Digits(t) && t[0] != 0x30)
  }

  predicate FractionPart(t: Text) {
    t == [] || (|t| >= 2 && t[0] == DOT && Digits(t[1..]))
  }

  predicate IsSign(u: CodeUnit) {
    u == 0x2B || u == MINUS
  }

  predicate ExponentPart(t: Text) {
    || t == []
    || (&& |t| >= 2 && (t[0] == 0x45 || t[0] == 0x65)
        && (Digits(t[1..]) || (|t| >= 3 && IsSign(t[1]) && Digits(t[2..]))))
  }

  predicate CharDerives(c: StringChar) {
    match c
    case Plain(u) => u >= 0x20 && u != QUOTE && u != BACKSLASH
    case Escaped(l) => IsEscape(l)
    case Hex(a, b, c, d) => IsHex(a) && IsHex(b) && IsHex(c) && IsHex(d)
  }

  predicate CharsDerive(cs: seq<StringChar>) {
    forall i :: 0 <= i < |cs| ==> CharDerives(cs[i])
  }

  /** The tree is a derivation of the grammar. */
  predicate Derives(t: Tree) {
    match t
    case Literal(word) => word == TRUE || word == FALSE || word == NULL
    case Number(minus, whole, fraction, exponent) =>
      (minus == [] || minus == [MINUS]) && WholePart(whole) && FractionPart(fraction) && ExponentPart(exponent)
    case String(chars) => CharsDerive(chars)
    case Array(blank, items) => Blank(blank) && ItemsDerive(items)
    case Object(blank, members) => Blank(blank) && MembersDerive(members)
  }

  predicate ItemsDerive(items: Items) {
    items.Item? ==> Blank(items.pre) && Derives(items.value) && Blank(items.post) && ItemsDerive(items.more)
  }

  predicate MembersDerive(members: Members) {
    members.Member? ==>
      && Blank(members.pre) && CharsDerive(members.name) && Blank(members.mid) && Blank(members.lead)
      && Derives(members.value) && Blank(members.post) && MembersDerive(members.more)
  }

  function CharYield(c: StringChar): (t: Text)
    ensures t != []
  {
    match c
    case Plain(u) => [u]
    case Escaped(l) => [BACKSLASH, l]
    case Hex(a, b, c, d) => [BACKSLASH, LETTER_U, a, b, c, d]
  }

  function CharsYield(cs: seq<StringChar>): Text {
    if cs == [] then [] else CharYield(cs[0]) + CharsYield(cs[1..])
  }

  function StringYield(cs: seq<StringChar>): Text {
    [QUOTE] + CharsYield(cs) + [QUOTE]
  }

  /** The text a tree derives. */
  function Yield(t: Tree): Text {
    match t
    case Literal(word) => word
    case Number(minus, whole, fraction, exponent) => minus + whole + fraction + exponent
    case String(chars) => StringYield(chars)
    case Array(blank, items) =>
      [OPEN_BRACKET] + (if items.NoItems? then blank else ItemsYield(items)) + [CLOSE_BRACKET]
    case Object(blank, members) =>
      [OPEN_BRACE] + (if members.NoMembers? then blank else MembersYield(members)) + [CLOSE_BRACE]
  }

  function ItemsYield(items: Items): Text {
    match items
    case NoItems => []
    case Item(pre, value, post, more) =>
      pre + Yield(value) + post + (if more.NoItems? then [] else [COMMA] + ItemsYield(more))
  }

  function MembersYield(members: Members): Text {
    match members
    case NoMembers => []
    case Member(pre, name, mid, lead, value, post, more) =>
      pre + StringYield(name) + mid + [COLON] + lead + Yield(value) + post
      + (if more.NoMembers? then [] else [COMMA] + MembersYield(more))
  }

  /** The character a string element stands for after unescaping. */
  function CharMeaning(c: StringChar): CodeUnit
    requires CharDerives(c)
  {
    match c
    case Plain(u) => u
    case Escaped(l) => EscapedUnit(l)
    case Hex(a, b, c, d) => HexValue(a) * 0x1000 + HexValue(b) * 0x100 + HexValue(c) * 0x10 + HexValue(d)
  }

  function Meaning(cs: seq<StringChar>): Text
    requires CharsDerive(cs)
  {
    seq(|cs|, i requires 0 <= i < |cs| => CharMeaning(cs[i]))
  }

  function Max(a: nat, b: nat): nat {
    if a < b then b else a
  }

  /** The greatest level of a value inside the tree, the tree itself being at level 0. */
  function Depth(t: Tree): nat {
    match t
    case Array(_, items) => ItemsDepth(items)
    case Object(_, members) => MembersDepth(members)
    case _ => 0
  }

  function ItemsDepth(items: Items): nat {
    match items
    case NoItems => 0
    case Item(_, value, _, more) => Max(1 + Depth(value), ItemsDepth(more))
  }

  function MembersDepth(members: Members): nat {
    match members
    case NoMembers => 0
    case Member(_, _, _, _, value, _, more) => Max(1 + Depth(value), MembersDepth(more))
  }

  /** No object of the tree holds two names that are equal after unescaping. */
  predicate NamesDistinct(t: Tree)
    requires Derives(t)
  {
    match t
    case Array(_, items) => ItemsDistinct(items)
    case Object(_, members) => MembersDistinct(members, {})
    case _ => true
  }

  predicate ItemsDistinct(items: Items)
    requires ItemsDerive(items)
  {
    items.Item? ==> NamesDistinct(items.value) && ItemsDistinct(items.more)
  }

  /** The members' names differ from each other and from those in `seen`. */
  predicate MembersDistinct(members: Members, seen: set<Text>)
    requires MembersDerive(members)
  {
    members.Member? ==>
      && Meaning(members.name) !in seen && NamesDistinct(members.value)
      && MembersDistinct(members.more, seen + {Meaning(members.name)})
  }

  /** The language the recogniser is for: a JSON text whose values stay within the depth limit
      and whose objects repeat no name. */
  ghost predicate InLanguage(source: Text) {
    exists pre, t, post ::
      && Blank(pre) && Derives(t) && Blank(post)
      && source == pre + Yield(t) + post
      && Depth(t) <= MAX_JSON_DEPTH && NamesDistinct(t)
  }

  // ---- what the recogniser does, on the text that is still unread ----

  function Skip(t: Text): (rest: Text)
    ensures |rest| <= |t|
  {
    if t != [] && IsBlank(t[0]) then Skip(t[1..]) else t
  }

  predicate Begins(t: Text, u: CodeUnit) {
    t != [] && t[0] == u
  }

  /** The length of the string element at the start of `t`, 0 where the scanner throws. */
  function ElementLength(t: Text): (k: nat)
    requires t != []
    ensures k <= |t|
  {
    if t[0] == BACKSLASH then
      if |t| < 2 then 0
      else if t[1] == LETTER_U then
        if |t| >= 6 && IsHex(t[2]) && IsHex(t[3]) && IsHex(t[4]) && IsHex(t[5]) then 6 else 0
      else if IsEscape(t[1]) then 2
      else 0
    else if t[0] < 0x20 then 0
    else 1
  }

  /** The number of code units before the closing quote, `None` where the scanner throws. */
  function BodyLength(t: Text): (n: Option<nat>)
    ensures n.Some? ==> n.value < |t|
  {
    if t == [] then None
    else if t[0] == QUOTE then Some(0)
    else
      var k := ElementLength(t);
      if k == 0 then None else Further(k, BodyLength(t[k..]))
  }

  function Further(k: nat, n: Option<nat>): Option<nat> {
    if n.None? then None else Some(k + n.value)
  }

  /** The string a scanned body stands for: what `JSON.parse` returns for the quoted slice. */
  function Unescape(body: Text): Text {
    if body == [] then []
    else if body[0] != BACKSLASH || |body| < 2 then [body[0]] + Unescape(body[1..])
    else if body[1] == LETTER_U && |body| >= 6
            && IsHex(body[2]) && IsHex(body[3]) && IsHex(body[4]) && IsHex(body[5]) then
      [CharMeaning(Hex(body[2], body[3], body[4], body[5]))] + Unescape(body[6..])
    else [EscapedUnit(body[1])] + Unescape(body[2..])
  }

  function DigitCount(t: Text): (n: nat)
    ensures n <= |t| && Digits(t[..n]) && (n < |t| ==> !IsDigit(t[n]))
  {
    if t != [] && IsDigit(t[0]) then
      var n := 1 + DigitCount(t[1..]);
      assert forall i :: 1 <= i < n ==> t[i] == t[1..][..n - 1][i - 1];
      n
    else 0
  }

  function WholeLength(t: Text): (n: nat)
    ensures n <= |t| && (n > 0 ==> WholePart(t[..n]))
  {
    if Begins(t, 0x30) then 1 else DigitCount(t)
  }

  function FractionLength(t: Text): (n: nat)
    ensures n <= |t| && FractionPart(t[..n])
  {
    if Begins(t, DOT) && DigitCount(t[1..]) > 0 then
      assert t[..1 + DigitCount(t[1..])][1..] == t[1..][..DigitCount(t[1..])];
      1 + DigitCount(t[1..])
    else 0
  }

  function SignLength(t: Text): nat {
    if t != [] && IsSign(t[0]) then 1 else 0
  }

  function ExponentLength(t: Text): (n: nat)
    ensures n <= |t| && ExponentPart(t[..n])
  {
    if !Begins(t, 0x45) && !Begins(t, 0x65) then 0
    else
      var k := 1 + SignLength(t[1..]);
      var n := DigitCount(t[k..]);
      assert t[..k + n][k..] == t[k..][..n];
      if n > 0 then k + n else 0
  }

  /** The length of the longest match of the number expression, 0 when there is none. */
  function NumberLength(t: Text): (n: nat)
    ensures n <= |t|
  {
    var m := if Begins(t, MINUS) then 1 else 0;
    var afterMinus := t[m..];
    var w := WholeLength(afterMinus);
    if w == 0 then 0
    else
      var afterWhole := afterMinus[w..];
      var f := FractionLength(afterWhole);
      var afterFraction := afterWhole[f..];
      m + w + f + ExponentLength(afterFraction)
  }

  /** A string, a literal or a number, at the first code unit of `u`. */
  function Scalar(u: Text): (rest: Option<Text>)
    requires u != []
    ensures rest.Some? ==> |rest.value| < |u|
  {
    if u[0] == QUOTE then
      var n := BodyLength(u[1..]);
      if n.None? then None else Some(u[n.value + 2..])
    else if TRUE <= u then Some(u[4..])
    else if FALSE <= u then Some(u[5..])
    else if NULL <= u then Some(u[4..])
    else if NumberLength(u) > 0 then Some(u[NumberLength(u)..])
    else None
  }

  /** What is left of the text after one value, or `None` where the recogniser throws. */
  function Value(t: Text, depth: nat): (rest: Option<Text>)
    ensures rest.Some? ==> |rest.value| < |t|
    decreases |t|, 0
  {
    var u := Skip(t);
    if depth > MAX_JSON_DEPTH || u == [] then None
    else if u[0] == OPEN_BRACE then ObjectValue(u[1..], depth)
    else if u[0] == OPEN_BRACKET then ArrayValue(u[1..], depth)
    else Scalar(u)
  }

  /** An object, after its opening brace. */
  function ObjectValue(t: Text, depth: nat): (rest: Option<Text>)
    ensures rest.Some? ==> |rest.value| < |t|
    decreases |t|, 3
  {
    var v := Skip(t);
    if Begins(v, CLOSE_BRACE) then Some(v[1..]) else ObjectRest(v, depth, {})
  }

  /** An array, after its opening bracket. */
  function ArrayValue(t: Text, depth: nat): (rest: Option<Text>)
    ensures rest.Some? ==> |rest.value| < |t|
    decreases |t|, 3
  {
    var v := Skip(t);
    if Begins(v, CLOSE_BRACKET) then Some(v[1..]) else ArrayRest(v, depth)
  }

  /** One `name: value` pair: the unescaped name and the text after the value. */
  function Pair(t: Text, depth: nat): (pair: Option<(Text, Text)>)
    ensures pair.Some? ==> |pair.value.1| < |t|
    decreases |t|, 1
  {
    var u := Skip(t);
    if !Begins(u, QUOTE) then None
    else
      var n := BodyLength(u[1..]);
      if n.None? then None
      else
        var v := Skip(u[n.value + 2..]);
        if !Begins(v, COLON) then None
        else
          var w := Value(v[1..], depth + 1);
          if w.None? then None else Some((Unescape(u[1..n.value + 1]), w.value))
  }

  /** The loop over the members of an object that is not empty. */
  function ObjectRest(t: Text, depth: nat, seen: set<Text>): (rest: Option<Text>)
    ensures rest.Some? ==> |rest.value| < |t|
    decreases |t|, 2
  {
    var pair := Pair(t, depth);
    if pair.None? || pair.value.0 in seen then None
    else
      var x := Skip(pair.value.1);
      if Begins(x, CLOSE_BRACE) then Some(x[1..])
      else if Begins(x, COMMA) then ObjectRest(x[1..], depth, seen + {pair.value.0})
      else None
  }

  /** The loop over the elements of an array that is not empty. */
  function ArrayRest(t: Text, depth: nat): (rest: Option<Text>)
    ensures rest.Some? ==> |rest.value| < |t|
    decreases |t|, 1
  {
    var w := Value(t, depth + 1);
    if w.None? then None
    else
      var x := Skip(w.value);
      if Begins(x, CLOSE_BRACKET) then Some(x[1..])
      else if Begins(x, COMMA) then ArrayRest(x[1..], depth)
      else None
  }

  predicate Accepts(source: Text) {
    var rest := Value(source, 0);
    rest.Some? && Skip(rest.value) == []
  }
}
