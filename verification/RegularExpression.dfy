/** A fragment of JavaScript's regular expressions: how a pattern text is parsed (section 22.2.1
    of ECMA-262) and what the parsed expression matches, without flags. */
module RegularExpression {
  import opened Prelude

  datatype Regex =
    | Nothing
    | Begin
    | End
    | Exactly(unit: CodeUnit)
    | Dot
    | Class(negated: bool, units: seq<CodeUnit>)
    | Then(first: Regex, second: Regex)
    | Either(left: Regex, right: Regex)
    | Many(body: Regex)
    | Maybe(body: Regex)

  const CARET: CodeUnit := 0x5E
  const DOLLAR: CodeUnit := 0x24
  const BACKSLASH: CodeUnit := 0x5C
  const DOT: CodeUnit := 0x2E
  const STAR: CodeUnit := 0x2A
  const PLUS: CodeUnit := 0x2B
  const QUESTION: CodeUnit := 0x3F
  const OPEN_PAREN: CodeUnit := 0x28
  const CLOSE_PAREN: CodeUnit := 0x29
  const OPEN_BRACKET: CodeUnit := 0x5B
  const CLOSE_BRACKET: CodeUnit := 0x5D
  const OPEN_BRACE: CodeUnit := 0x7B
  const CLOSE_BRACE: CodeUnit := 0x7D
  const BAR: CodeUnit := 0x7C
  const COLON: CodeUnit := 0x3A
  const DASH: CodeUnit := 0x2D
  const SLASH: CodeUnit := 0x2F

  /** The units that do not stand for themselves. */
  predicate IsSyntax(u: CodeUnit) {
    u in [BACKSLASH, CARET, DOLLAR, DOT, STAR, PLUS, QUESTION, OPEN_PAREN, CLOSE_PAREN, OPEN_BRACKET, CLOSE_BRACKET,
          OPEN_BRACE, CLOSE_BRACE, BAR]
  }

  // ---- parsing ----

  datatype Parse = Fails | Parsed(regex: Regex, rest: Text)

  predicate Shrinks(p: Parse, t: Text) {
    p.Parsed? ==> |p.rest| <= |t|
  }

  predicate Consumes(p: Parse, t: Text) {
    p.Parsed? ==> |p.rest| < |t|
  }

  /** Members of a class up to its closing bracket; escapes and ranges are outside the fragment. */
  function ClassMembers(t: Text): (m: Option<seq<CodeUnit>>)
    ensures m.Some? ==> |m.value| < |t|
  {
    if t == [] || t[0] == BACKSLASH || t[0] == DASH then None
    else if t[0] == CLOSE_BRACKET then Some([])
    else
      var more := ClassMembers(t[1..]);
      if more.None? then None else Some([t[0]] + more.value)
  }

  function ParseClass(t: Text): (p: Parse)
    requires t != [] && t[0] == OPEN_BRACKET
    ensures Consumes(p, t)
  {
    var negated := |t| > 1 && t[1] == CARET;
    var from := if negated then 2 else 1;
    var members := ClassMembers(t[from..]);
    if members.None? then Fails else Parsed(Class(negated, members.value), t[from + |members.value| + 1..])
  }

  function ParseGroup(t: Text): (p: Parse)
    requires t != [] && t[0] == OPEN_PAREN
    ensures Consumes(p, t)
    decreases |t|, 0
  {
    if |t| < 3 || t[1] != QUESTION || t[2] != COLON then Fails else
      var inner := ParseAlternatives(t[3..]);
      if inner.Fails? || inner.rest == [] || inner.rest[0] != CLOSE_PAREN then Fails
      else Parsed(inner.regex, inner.rest[1..])
  }

  function ParseAtom(t: Text): (p: Parse)
    requires t != []
    ensures Consumes(p, t)
    decreases |t|, 1
  {
    if t[0] == DOT then Parsed(Dot, t[1..])
    else if t[0] == BACKSLASH then
      // Escapes of letters and digits mean something else.
      if |t| > 1 && IsSyntax(t[1]) then Parsed(Exactly(t[1]), t[2..]) else Fails
    else if t[0] == OPEN_BRACKET then ParseClass(t)
    else if t[0] == OPEN_PAREN then ParseGroup(t)
    else if IsSyntax(t[0]) then Fails
    else Parsed(Exactly(t[0]), t[1..])
  }

  predicate IsQuantifier(u: CodeUnit) {
    u == STAR || u == PLUS || u == QUESTION || u == OPEN_BRACE
  }

  /** An atom takes one quantifier; `+`, counted and lazy ones are outside the fragment. */
  function ParseQuantifier(atom: Regex, t: Text): (p: Parse)
    ensures Shrinks(p, t)
  {
    if t == [] || !IsQuantifier(t[0]) then Parsed(atom, t)
    else if t[0] == OPEN_BRACE || t[0] == PLUS || (|t| > 1 && IsQuantifier(t[1])) then Fails
    else Parsed(if t[0] == STAR then Many(atom) else Maybe(atom), t[1..])
  }

  function ParseTerm(t: Text): (p: Parse)
    requires t != []
    ensures Consumes(p, t)
    decreases |t|, 2
  {
    if t[0] == CARET then Parsed(Begin, t[1..])
    else if t[0] == DOLLAR then Parsed(End, t[1..])
    else
      var atom := ParseAtom(t);
      if atom.Fails? then Fails else ParseQuantifier(atom.regex, atom.rest)
  }

  function ParseTerms(t: Text): (p: Parse)
    ensures Shrinks(p, t)
    decreases |t|, 3
  {
    if t == [] || t[0] == BAR || t[0] == CLOSE_PAREN then Parsed(Nothing, t)
    else
      var term := ParseTerm(t);
      if term.Fails? then Fails else
        var more := ParseTerms(term.rest);
        if more.Fails? then Fails else Parsed(Then(term.regex, more.regex), more.rest)
  }

  function ParseAlternatives(t: Text): (p: Parse)
    ensures Shrinks(p, t)
    decreases |t|, 4
  {
    var terms := ParseTerms(t);
    if terms.Fails? || terms.rest == [] || terms.rest[0] != BAR then terms
    else
      var more := ParseAlternatives(terms.rest[1..]);
      if more.Fails? then Fails else Parsed(Either(terms.regex, more.regex), more.rest)
  }

  /** The expression a whole pattern text denotes. */
  function Parsing(t: Text): Option<Regex> {
    var p := ParseAlternatives(t);
    if p.Fails? || p.rest != [] then None else Some(p.regex)
  }

  // ---- matching ----

  predicate OneUnit(r: Regex, u: CodeUnit)
    requires r.Exactly? || r.Dot? || r.Class?
  {
    match r
    case Exactly(v) => u == v
    case Dot => !IsLineTerminator(u)
    case Class(negated, units) => (u in units) != negated
  }

  /** The expression matches `s` from position `i` to position `j`. */
  ghost predicate Matches(r: Regex, s: Text, i: nat, j: nat)
    requires i <= j <= |s|
    decreases r, j - i
  {
    match r
    case Nothing => i == j
    case Begin => i == j == 0
    case End => i == j == |s|
    case Then(a, b) => exists k :: i <= k <= j && Matches(a, s, i, k) && Matches(b, s, k, j)
    case Either(a, b) => Matches(a, s, i, j) || Matches(b, s, i, j)
    case Many(a) => i == j || exists k :: i < k <= j && Matches(a, s, i, k) && Matches(r, s, k, j)
    case Maybe(a) => i == j || Matches(a, s, i, j)
    case _ => j == i + 1 && OneUnit(r, s[i])
  }

  /** `RegExp.prototype.test`: some part of the text matches. */
  ghost predicate Test(r: Regex, s: Text) {
    exists i, j :: 0 <= i <= j <= |s| && Matches(r, s, i, j)
  }

  lemma SplitThen(a: Regex, b: Regex, s: Text, i: nat, j: nat) returns (k: nat)
    requires i <= j <= |s| && Matches(Then(a, b), s, i, j)
    ensures i <= k <= j && Matches(a, s, i, k) && Matches(b, s, k, j)
  {
    k :| i <= k <= j && Matches(a, s, i, k) && Matches(b, s, k, j);
  }

  /** A repeated single unit matches exactly the stretches made of such units. */
  lemma {:induction false} ManyUnits(r: Regex, s: Text, i: nat, j: nat)
    requires i <= j <= |s| && (r.Exactly? || r.Dot? || r.Class?)
    ensures Matches(Many(r), s, i, j) <==> forall k :: i <= k < j ==> OneUnit(r, s[k])
    decreases j - i
  {
    if i < j {
      ManyUnits(r, s, i + 1, j);
      if forall k :: i <= k < j ==> OneUnit(r, s[k]) {
        assert Matches(r, s, i, i + 1);
      }
    }
  }
}
