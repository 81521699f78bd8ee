/** Include and exclude patterns: the glob-to-expression translation and what it denotes. */
module GlobExpression {
  import opened Prelude
  import opened RegularExpression

  /** `*`, `?`, `**` and `**` with a slash behind it; everything else stands for itself. */
  datatype Piece = Literal(unit: CodeUnit) | Segment | One | Cross | Deep

  // ---- what a pattern denotes ----

  predicate Crosses(t: Text, lines: bool) {
    lines || OneLine(t)
  }

  predicate NoSlash(t: Text) {
    forall k :: 0 <= k < |t| ==> t[k] != SLASH
  }

  /** The path has the form the pattern describes: `*` is any stretch without a slash, `?` one unit
      other than a slash, `**` any stretch, `**` with a slash behind it nothing or a stretch that
      ends with a slash, and every other unit itself. `lines` says whether `**` may cross the end
      of a line: a glob says yes. */
  ghost predicate Glob(pattern: Text, path: Text, lines: bool)
    decreases |pattern|
  {
    if pattern == [] then path == []
    else if [STAR, STAR, SLASH] <= pattern then
      || Glob(pattern[3..], path, lines)
      || exists k :: 0 <= k < |path| && path[k] == SLASH && Crosses(path[..k], lines)
                     && Glob(pattern[3..], path[k + 1..], lines)
    else if [STAR, STAR] <= pattern then
      exists k :: 0 <= k <= |path| && Crosses(path[..k], lines) && Glob(pattern[2..], path[k..], lines)
    else if pattern[0] == STAR then
      exists k :: 0 <= k <= |path| && NoSlash(path[..k]) && Glob(pattern[1..], path[k..], lines)
    else if pattern[0] == QUESTION then path != [] && path[0] != SLASH && Glob(pattern[1..], path[1..], lines)
    else path != [] && path[0] == pattern[0] && Glob(pattern[1..], path[1..], lines)
  }

  predicate HasDoubleStar(pattern: Text) {
    exists i :: 0 < i < |pattern| && pattern[i - 1] == STAR && pattern[i] == STAR
  }

  // ---- the translation ----

  /** How the loop reads a pattern. */
  function Pieces(pattern: Text): seq<Piece> {
    if pattern == [] then []
    else if pattern[0] == STAR then
      if |pattern| > 1 && pattern[1] == STAR then
        if |pattern| > 2 && pattern[2] == SLASH then [Deep] + Pieces(pattern[3..]) else [Cross] + Pieces(pattern[2..])
      else [Segment] + Pieces(pattern[1..])
    else if pattern[0] == QUESTION then [One] + Pieces(pattern[1..])
    else [Literal(pattern[0])] + Pieces(pattern[1..])
  }

  const NOT_SLASH: Text := [OPEN_BRACKET, CARET, SLASH, CLOSE_BRACKET]

  /** What the loop appends for one piece. */
  function Emit(piece: Piece): Text {
    match piece
    case Literal(u) => if IsSyntax(u) then [BACKSLASH, u] else [u]
    case Segment => NOT_SLASH + [STAR]
    case One => NOT_SLASH
    case Cross => [DOT, STAR]
    case Deep => [OPEN_PAREN, QUESTION, COLON, DOT, STAR, SLASH, CLOSE_PAREN, QUESTION]
  }

  function EmitAll(pieces: seq<Piece>): Text {
    if pieces == [] then [] else Emit(pieces[0]) + EmitAll(pieces[1..])
  }

  lemma Grown(before: Text, piece: Piece, pieces: seq<Piece>)
    ensures before + EmitAll([piece] + pieces) == (before + Emit(piece)) + EmitAll(pieces)
  {
    assert ([piece] + pieces)[1..] == pieces;
  }

  /** The regular expression built for a pattern matches exactly the paths that have the form the
      pattern describes, where `**` stays on one line. */
  method Compile(pattern: Text) returns (expression: Text)
    ensures expression == [CARET] + EmitAll(Pieces(pattern)) + [DOLLAR]
    ensures forall path :: IsMatch(expression, path) <==> Glob(pattern, path, false)
  {
    expression := [CARET];
    ghost var goal := expression + EmitAll(Pieces(pattern));
    var index := 0;
    while index < |pattern|
      invariant 0 <= index <= |pattern|
      invariant expression + EmitAll(Pieces(pattern[index..])) == goal
    {
      ghost var left := pattern[index..];
      var character := pattern[index];
      var piece;
      if character == STAR {
        if index + 1 < |pattern| && pattern[index + 1] == STAR {
          index := index + 1;
          if index + 1 < |pattern| && pattern[index + 1] == SLASH {
            index := index + 1;
            piece := Deep;
          } else {
            piece := Cross;
          }
        } else {
          piece := Segment;
        }
      } else if character == QUESTION {
        piece := One;
      } else {
        piece := Literal(character);
      }
      index := index + 1;
      Grown(expression, piece, Pieces(pattern[index..]));
      assert Pieces(left) == [piece] + Pieces(pattern[index..]);
      expression := expression + Emit(piece);
    }
    expression := expression + [DOLLAR];
    assert expression == [CARET] + EmitAll(Pieces(pattern)) + [DOLLAR];
    forall path ensures IsMatch(expression, path) <==> Glob(pattern, path, false) {
      AcceptsExactly(pattern, path);
    }
  }

  // ---- the emitted text parses to the intended expression ----

  function PieceRegex(piece: Piece): Regex {
    match piece
    case Literal(u) => Exactly(u)
    case Segment => Many(Class(true, [SLASH]))
    case One => Class(true, [SLASH])
    case Cross => Many(Dot)
    case Deep => Maybe(LEADING)
  }

  function Chain(pieces: seq<Piece>): Regex {
    if pieces == [] then Then(End, Nothing) else Then(PieceRegex(pieces[0]), Chain(pieces[1..]))
  }

  /** What may follow a piece: something that does not modify it. */
  predicate Plain(t: Text) {
    t != [] && !IsQuantifier(t[0])
  }

  lemma EmittedIsPlain(pieces: seq<Piece>)
    ensures Plain(EmitAll(pieces) + [DOLLAR])
  {
    if pieces != [] {
      assert Emit(pieces[0]) != [];
      assert (EmitAll(pieces) + [DOLLAR])[0] == Emit(pieces[0])[0];
    }
  }

  lemma ParseNotSlash(t: Text)
    ensures ParseAtom(NOT_SLASH + t) == Parsed(Class(true, [SLASH]), t)
  {
    var whole := NOT_SLASH + t;
    assert whole[2..] == [SLASH, CLOSE_BRACKET] + t;
    assert whole[2..][1..] == [CLOSE_BRACKET] + t;
    assert ClassMembers(whole[2..][1..]) == Some([]);
    assert ClassMembers(whole[2..]) == Some([SLASH]) by {
      var none: Text := [];
      assert [SLASH] + none == [SLASH];
    }
    assert whole[4..] == t;
  }

  lemma ParseDotStar(t: Text)
    requires Plain(t)
    ensures ParseTerm([DOT, STAR] + t) == Parsed(Many(Dot), t)
  {
    var whole := [DOT, STAR] + t;
    assert whole[1..] == [STAR] + t;
    assert whole[1..][1..] == t;
  }

  const LEADING := Then(Many(Dot), Then(Exactly(SLASH), Nothing))

  lemma ParseLeading(close: Text)
    requires close != [] && close[0] == CLOSE_PAREN
    ensures ParseAlternatives([DOT, STAR, SLASH] + close) == Parsed(LEADING, close)
  {
    var slash := [SLASH] + close;
    assert [DOT, STAR, SLASH] + close == [DOT, STAR] + slash;
    ParseDotStar(slash);
    assert slash[1..] == close;
    assert ParseTerm(slash) == Parsed(Exactly(SLASH), close);
    assert ParseTerms(close) == Parsed(Nothing, close);
    assert ParseTerms(slash) == Parsed(Then(Exactly(SLASH), Nothing), close);
    assert ParseTerms([DOT, STAR] + slash) == Parsed(LEADING, close);
  }

  lemma ParseDeep(t: Text)
    requires Plain(t)
    ensures ParseTerm(Emit(Deep) + t) == Parsed(PieceRegex(Deep), t)
  {
    var whole := Emit(Deep) + t;
    var close := [CLOSE_PAREN, QUESTION] + t;
    assert whole[3..] == [DOT, STAR, SLASH] + close;
    ParseLeading(close);
    assert close[1..] == [QUESTION] + t;
    assert ParseGroup(whole) == Parsed(LEADING, [QUESTION] + t);
    assert ([QUESTION] + t)[1..] == t;
  }

  lemma ParseSegment(t: Text)
    requires Plain(t)
    ensures ParseTerm(Emit(Segment) + t) == Parsed(PieceRegex(Segment), t)
  {
    assert Emit(Segment) + t == NOT_SLASH + ([STAR] + t);
    ParseNotSlash([STAR] + t);
    assert ([STAR] + t)[1..] == t;
  }

  lemma ParsePiece(piece: Piece, t: Text)
    requires Plain(t)
    ensures ParseTerm(Emit(piece) + t) == Parsed(PieceRegex(piece), t)
  {
    var whole := Emit(piece) + t;
    match piece
    case Literal(u) =>
      assert whole[|Emit(piece)|..] == t;
    case Segment => ParseSegment(t);
    case One => ParseNotSlash(t);
    case Cross => ParseDotStar(t);
    case Deep => ParseDeep(t);
  }

  lemma {:induction false} ParseEmitted(pieces: seq<Piece>)
    ensures ParseTerms(EmitAll(pieces) + [DOLLAR]) == Parsed(Chain(pieces), [])
  {
    var whole := EmitAll(pieces) + [DOLLAR];
    if pieces == [] {
      assert whole == [DOLLAR];
      assert ParseTerms([]) == Parsed(Nothing, []);
    } else {
      var t := EmitAll(pieces[1..]) + [DOLLAR];
      assert whole == Emit(pieces[0]) + t;
      EmittedIsPlain(pieces[1..]);
      ParsePiece(pieces[0], t);
      ParseEmitted(pieces[1..]);
      StartsATerm(pieces[0], t);
    }
  }

  lemma StartsATerm(piece: Piece, t: Text)
    ensures var whole := Emit(piece) + t;
      whole != [] && whole[0] != BAR && whole[0] != CLOSE_PAREN
  {}

  /** The emitted text is one anchored sequence of the intended pieces: no unit of the pattern is
      read as an operator, and none changes its neighbours. */
  lemma NoLiteralIsAnOperator(pattern: Text)
    ensures Parsing([CARET] + EmitAll(Pieces(pattern)) + [DOLLAR]) == Some(Then(Begin, Chain(Pieces(pattern))))
  {
    var whole := [CARET] + EmitAll(Pieces(pattern)) + [DOLLAR];
    assert whole[1..] == EmitAll(Pieces(pattern)) + [DOLLAR];
    ParseEmitted(Pieces(pattern));
    assert ParseTerms(whole) == Parsed(Then(Begin, Chain(Pieces(pattern))), []);
  }

  // ---- what the pieces match ----

  /** The stretches of a path a piece stands for. */
  predicate Covers(piece: Piece, t: Text, lines: bool) {
    match piece
    case Literal(u) => t == [u]
    case One => |t| == 1 && t[0] != SLASH
    case Segment => NoSlash(t)
    case Cross => Crosses(t, lines)
    case Deep => t == [] || (t[|t| - 1] == SLASH && Crosses(t[..|t| - 1], lines))
  }

  ghost predicate Denotes(pieces: seq<Piece>, path: Text, lines: bool) {
    if pieces == [] then path == [] else
      exists k :: 0 <= k <= |path| && Covers(pieces[0], path[..k], lines) && Denotes(pieces[1..], path[k..], lines)
  }

  lemma UnitMatches(r: Regex, s: Text, i: nat, j: nat)
    requires i <= j <= |s| && (r.Exactly? || r.Dot? || r.Class?)
    ensures Matches(r, s, i, j) <==> |s[i..j]| == 1 && OneUnit(r, s[i..j][0])
  {}

  lemma SliceUnits(s: Text, i: nat, j: nat)
    requires i <= j <= |s|
    ensures NoSlash(s[i..j]) <==> forall k :: i <= k < j ==> s[k] != SLASH
    ensures OneLine(s[i..j]) <==> forall k :: i <= k < j ==> !IsLineTerminator(s[k])
  {
    var t := s[i..j];
    forall k | i <= k < j ensures s[k] == t[k - i] {}
  }

  lemma DeepMatches(s: Text, i: nat, j: nat)
    requires i <= j <= |s|
    ensures Matches(PieceRegex(Deep), s, i, j) <==> Covers(Deep, s[i..j], false)
  {
    var body := LEADING;
    var slash := Then(Exactly(SLASH), Nothing);
    if i < j {
      ManyUnits(Dot, s, i, j - 1);
      SliceUnits(s, i, j - 1);
      assert s[i..j][..j - 1 - i] == s[i..j - 1];
      assert Matches(slash, s, j - 1, j) <==> s[j - 1] == SLASH by {
        assert s[j - 1] == SLASH ==> Matches(Exactly(SLASH), s, j - 1, j) && Matches(Nothing, s, j, j);
      }
      forall k | i <= k <= j && Matches(slash, s, k, j) ensures k == j - 1 {
        var m := SplitThen(Exactly(SLASH), Nothing, s, k, j);
      }
      if Matches(body, s, i, j) {
        var k := SplitThen(Many(Dot), slash, s, i, j);
      }
      assert Matches(body, s, i, j) <==> Matches(Many(Dot), s, i, j - 1) && Matches(slash, s, j - 1, j);
      assert s[i..j][j - 1 - i] == s[j - 1];
    } else {
      assert s[i..j] == [];
    }
  }

  lemma PieceMatches(piece: Piece, s: Text, i: nat, j: nat)
    requires i <= j <= |s|
    ensures Matches(PieceRegex(piece), s, i, j) <==> Covers(piece, s[i..j], false)
  {
    match piece
    case Literal(u) => UnitMatches(Exactly(u), s, i, j);
    case One => UnitMatches(Class(true, [SLASH]), s, i, j);
    case Segment =>
      ManyUnits(Class(true, [SLASH]), s, i, j);
      SliceUnits(s, i, j);
    case Cross =>
      ManyUnits(Dot, s, i, j);
      SliceUnits(s, i, j);
    case Deep => DeepMatches(s, i, j);
  }

  lemma {:induction false} ChainMatches(pieces: seq<Piece>, s: Text, i: nat, j: nat)
    requires i <= j <= |s|
    ensures Matches(Chain(pieces), s, i, j) <==> j == |s| && Denotes(pieces, s[i..], false)
    decreases |pieces|
  {
    if pieces == [] {
      EndMatches(s, i, j);
    } else {
      forall k | i <= k <= j
        ensures Matches(PieceRegex(pieces[0]), s, i, k) <==> Covers(pieces[0], s[i..][..k - i], false)
        ensures Matches(Chain(pieces[1..]), s, k, j) <==> j == |s| && Denotes(pieces[1..], s[i..][k - i..], false)
      {
        assert s[i..][..k - i] == s[i..k] && s[i..][k - i..] == s[k..];
        PieceMatches(pieces[0], s, i, k);
        ChainMatches(pieces[1..], s, k, j);
      }
      ChainStep(pieces, s, i, j);
    }
  }

  lemma EndMatches(s: Text, i: nat, j: nat)
    requires i <= j <= |s|
    ensures Matches(Then(End, Nothing), s, i, j) <==> i == j == |s|
  {
    if i == j == |s| {
      assert Matches(End, s, i, i) && Matches(Nothing, s, i, i);
    }
  }

  lemma ChainStep(pieces: seq<Piece>, s: Text, i: nat, j: nat)
    requires i <= j <= |s| && pieces != []
    requires forall k :: i <= k <= j ==>
      && (Matches(PieceRegex(pieces[0]), s, i, k) <==> Covers(pieces[0], s[i..][..k - i], false))
      && (Matches(Chain(pieces[1..]), s, k, j) <==> j == |s| && Denotes(pieces[1..], s[i..][k - i..], false))
    ensures Matches(Chain(pieces), s, i, j) <==> j == |s| && Denotes(pieces, s[i..], false)
  {
    var rest := s[i..];
    if Matches(Chain(pieces), s, i, j) {
      var k := SplitThen(PieceRegex(pieces[0]), Chain(pieces[1..]), s, i, j);
      assert Covers(pieces[0], rest[..k - i], false) && Denotes(pieces[1..], rest[k - i..], false);
    }
    if j == |s| && Denotes(pieces, rest, false) {
      var n :| 0 <= n <= |rest| && Covers(pieces[0], rest[..n], false) && Denotes(pieces[1..], rest[n..], false);
      assert Matches(PieceRegex(pieces[0]), s, i, i + n) && Matches(Chain(pieces[1..]), s, i + n, j);
    }
  }

  /** What `new RegExp(expression).test(path)` answers. */
  ghost predicate IsMatch(expression: Text, path: Text) {
    var r := Parsing(expression);
    r.Some? && Test(r.value, path)
  }

  /** The regular expression built for a pattern. */
  ghost predicate Accepts(pattern: Text, path: Text) {
    IsMatch([CARET] + EmitAll(Pieces(pattern)) + [DOLLAR], path)
  }

  /** The expression matches exactly the paths its pieces cover one after the other. */
  lemma AcceptsPieces(pattern: Text, path: Text)
    ensures Accepts(pattern, path) <==> Denotes(Pieces(pattern), path, false)
  {
    NoLiteralIsAnOperator(pattern);
    var chain := Chain(Pieces(pattern));
    var r := Then(Begin, chain);
    assert path[0..] == path;
    if Test(r, path) {
      var i, j :| 0 <= i <= j <= |path| && Matches(r, path, i, j);
      var k := SplitThen(Begin, chain, path, i, j);
      ChainMatches(Pieces(pattern), path, 0, j);
    }
    if Denotes(Pieces(pattern), path, false) {
      ChainMatches(Pieces(pattern), path, 0, |path|);
      assert Matches(Begin, path, 0, 0);
      assert Matches(r, path, 0, |path|);
    }
  }

  // ---- the pieces are read as the pattern describes ----

  lemma OneUnitFirst(piece: Piece, pieces: seq<Piece>, path: Text, lines: bool)
    requires piece.Literal? || piece.One?
    ensures Denotes([piece] + pieces, path, lines)
       <==> path != [] && Covers(piece, path[..1], lines) && Denotes(pieces, path[1..], lines)
  {
    var all := [piece] + pieces;
    assert all[1..] == pieces;
    if Denotes(all, path, lines) {
      var k :| 0 <= k <= |path| && Covers(all[0], path[..k], lines) && Denotes(all[1..], path[k..], lines);
      assert |path[..k]| == 1;
    }
  }

  lemma DeepCovers(path: Text, k: nat, lines: bool)
    requires k < |path|
    ensures Covers(Deep, path[..0], lines) && path[0..] == path
    ensures Covers(Deep, path[..k + 1], lines) <==> path[k] == SLASH && Crosses(path[..k], lines)
  {
    assert path[..k + 1][..k] == path[..k];
  }

  lemma DeepTakes(pieces: seq<Piece>, path: Text, k: nat, lines: bool)
    requires k <= |path| && Covers(Deep, path[..k], lines) && Denotes(pieces, path[k..], lines)
    ensures Denotes(pieces, path, lines) || AfterSlash(pieces, path, lines)
  {
    if k == 0 {
      assert path[0..] == path;
    } else {
      DeepCovers(path, k - 1, lines);
      assert path[k - 1] == SLASH && path[k - 1 + 1..] == path[k..];
    }
  }

  /** The rest may begin behind some slash. */
  ghost predicate AfterSlash(pieces: seq<Piece>, path: Text, lines: bool) {
    exists k :: 0 <= k < |path| && path[k] == SLASH && Crosses(path[..k], lines)
                && Denotes(pieces, path[k + 1..], lines)
  }

  lemma DeepGives(pieces: seq<Piece>, path: Text, lines: bool) returns (k: nat)
    requires Denotes(pieces, path, lines) || AfterSlash(pieces, path, lines)
    ensures k <= |path| && Covers(Deep, path[..k], lines) && Denotes(pieces, path[k..], lines)
  {
    if Denotes(pieces, path, lines) {
      k := 0;
      assert path[0..] == path;
    } else {
      k :| 0 <= k < |path| && path[k] == SLASH && Crosses(path[..k], lines) && Denotes(pieces, path[k + 1..], lines);
      DeepCovers(path, k, lines);
      k := k + 1;
    }
  }

  lemma DeepFirst(pieces: seq<Piece>, path: Text, lines: bool)
    ensures Denotes([Deep] + pieces, path, lines) <==> Denotes(pieces, path, lines) || AfterSlash(pieces, path, lines)
  {
    StretchFirst(Deep, pieces, path, lines);
    if Denotes(pieces, path, lines) || AfterSlash(pieces, path, lines) {
      var k := DeepGives(pieces, path, lines);
    }
    if k :| 0 <= k <= |path| && Covers(Deep, path[..k], lines) && Denotes(pieces, path[k..], lines) {
      DeepTakes(pieces, path, k, lines);
    }
  }

  lemma StretchFirst(piece: Piece, pieces: seq<Piece>, path: Text, lines: bool)
    ensures Denotes([piece] + pieces, path, lines) <==>
            exists k :: 0 <= k <= |path| && Covers(piece, path[..k], lines) && Denotes(pieces, path[k..], lines)
  {
    assert ([piece] + pieces)[1..] == pieces;
  }

  /** The stretches of the path behind `n` units of the pattern agree. */
  ghost predicate RestAgrees(pattern: Text, n: nat, path: Text, lines: bool)
    requires n <= |pattern|
  {
    forall k :: 0 <= k <= |path| ==>
      (Denotes(Pieces(pattern[n..]), path[k..], lines) <==> Glob(pattern[n..], path[k..], lines))
  }

  lemma {:induction false} DeepAgrees(pattern: Text, path: Text, lines: bool)
    requires [STAR, STAR, SLASH] <= pattern && RestAgrees(pattern, 3, path, lines)
    ensures Denotes(Pieces(pattern), path, lines) <==> Glob(pattern, path, lines)
  {
    assert path[0..] == path;
    DeepFirst(Pieces(pattern[3..]), path, lines);
  }

  lemma {:induction false} CrossAgrees(pattern: Text, path: Text, lines: bool)
    requires [STAR, STAR] <= pattern && !([STAR, STAR, SLASH] <= pattern) && RestAgrees(pattern, 2, path, lines)
    ensures Denotes(Pieces(pattern), path, lines) <==> Glob(pattern, path, lines)
  {
    StretchFirst(Cross, Pieces(pattern[2..]), path, lines);
  }

  lemma {:induction false} SegmentAgrees(pattern: Text, path: Text, lines: bool)
    requires pattern != [] && pattern[0] == STAR && !([STAR, STAR] <= pattern) && RestAgrees(pattern, 1, path, lines)
    ensures Denotes(Pieces(pattern), path, lines) <==> Glob(pattern, path, lines)
  {
    StretchFirst(Segment, Pieces(pattern[1..]), path, lines);
  }

  lemma {:induction false} UnitAgrees(pattern: Text, path: Text, lines: bool)
    requires pattern != [] && pattern[0] != STAR
    requires path != [] ==> (Denotes(Pieces(pattern[1..]), path[1..], lines) <==> Glob(pattern[1..], path[1..], lines))
    ensures Denotes(Pieces(pattern), path, lines) <==> Glob(pattern, path, lines)
  {
    var piece := if pattern[0] == QUESTION then One else Literal(pattern[0]);
    OneUnitFirst(piece, Pieces(pattern[1..]), path, lines);
    assert path != [] ==> path[..1][0] == path[0];
  }

  /** The pieces the loop reads cover a path exactly when it has the form the pattern describes. */
  lemma {:induction false} PiecesDenoteTheGlob(pattern: Text, path: Text, lines: bool)
    ensures Denotes(Pieces(pattern), path, lines) <==> Glob(pattern, path, lines)
    decreases |pattern|, 0
  {
    if [STAR, STAR, SLASH] <= pattern {
      StretchesAgree(pattern, 3, path, lines);
      DeepAgrees(pattern, path, lines);
    } else if [STAR, STAR] <= pattern {
      StretchesAgree(pattern, 2, path, lines);
      CrossAgrees(pattern, path, lines);
    } else if pattern != [] && pattern[0] == STAR {
      StretchesAgree(pattern, 1, path, lines);
      SegmentAgrees(pattern, path, lines);
    } else if pattern != [] {
      if path != [] {
        PiecesDenoteTheGlob(pattern[1..], path[1..], lines);
      }
      UnitAgrees(pattern, path, lines);
    }
  }

  lemma {:induction false} StretchesAgree(pattern: Text, n: nat, path: Text, lines: bool)
    requires 0 < n <= |pattern|
    ensures RestAgrees(pattern, n, path, lines)
    decreases |pattern| - n, 1
  {
    forall k | 0 <= k <= |path|
      ensures Denotes(Pieces(pattern[n..]), path[k..], lines) <==> Glob(pattern[n..], path[k..], lines)
    {
      PiecesDenoteTheGlob(pattern[n..], path[k..], lines);
    }
  }

  lemma AcceptsExactly(pattern: Text, path: Text)
    ensures Accepts(pattern, path) <==> Glob(pattern, path, false)
  {
    AcceptsPieces(pattern, path);
    PiecesDenoteTheGlob(pattern, path, false);
  }

  /** A crossing is read exactly where two stars stand side by side. */
  lemma {:induction false} CrossingsAreDoubleStars(pattern: Text)
    ensures HasCrossing(Pieces(pattern)) <==> HasDoubleStar(pattern)
    decreases |pattern|
  {
    if pattern == [] {
      return;
    }
    if [STAR, STAR] <= pattern {
      assert pattern[1 - 1] == STAR && pattern[1] == STAR;
      assert Pieces(pattern)[0] == (if [STAR, STAR, SLASH] <= pattern then Deep else Cross);
    } else {
      var rest := pattern[1..];
      CrossingsAreDoubleStars(rest);
      assert Pieces(pattern)[1..] == Pieces(rest);
      assert !Pieces(pattern)[0].Cross? && !Pieces(pattern)[0].Deep?;
      CrossingBehind(Pieces(pattern)[0], Pieces(rest));
      if i :| 0 < i < |pattern| && pattern[i - 1] == STAR && pattern[i] == STAR {
        assert i > 1 && rest[i - 2] == STAR && rest[i - 1] == STAR;
      }
      if i :| 0 < i < |rest| && rest[i - 1] == STAR && rest[i] == STAR {
        assert pattern[i] == STAR && pattern[i + 1] == STAR;
      }
    }
  }

  lemma CrossingBehind(piece: Piece, pieces: seq<Piece>)
    requires !piece.Cross? && !piece.Deep?
    ensures HasCrossing([piece] + pieces) <==> HasCrossing(pieces)
  {}

  // ---- where the expression and the glob differ ----

  const LINE_FEED: CodeUnit := 0x0A

  predicate HasCrossing(pieces: seq<Piece>) {
    Cross in pieces || Deep in pieces
  }

  /** Nothing is matched that the glob does not denote. */
  lemma {:induction false} MatchedIsDenoted(pieces: seq<Piece>, path: Text)
    requires Denotes(pieces, path, false)
    ensures Denotes(pieces, path, true)
  {
    if pieces != [] {
      var k :| 0 <= k <= |path| && Covers(pieces[0], path[..k], false) && Denotes(pieces[1..], path[k..], false);
      MatchedIsDenoted(pieces[1..], path[k..]);
      assert Covers(pieces[0], path[..k], true);
    }
  }

  lemma Parts(pieces: seq<Piece>, path: Text, k: nat)
    requires pieces != [] && k <= |path|
    ensures OneLine(path) ==> OneLine(path[..k]) && OneLine(path[k..])
    ensures !HasCrossing(pieces) ==> !pieces[0].Cross? && !pieces[0].Deep? && !HasCrossing(pieces[1..])
  {}

  lemma SameCover(piece: Piece, t: Text)
    requires Covers(piece, t, true) && (OneLine(t) || (!piece.Cross? && !piece.Deep?))
    ensures Covers(piece, t, false)
  {}

  /** On a path of one line, or without `**`, nothing is missed. */
  lemma {:induction false} DenotedIsMatched(pieces: seq<Piece>, path: Text)
    requires (OneLine(path) || !HasCrossing(pieces)) && Denotes(pieces, path, true)
    ensures Denotes(pieces, path, false)
  {
    if pieces != [] {
      var k :| 0 <= k <= |path| && Covers(pieces[0], path[..k], true) && Denotes(pieces[1..], path[k..], true);
      Parts(pieces, path, k);
      SameCover(pieces[0], path[..k]);
      DenotedIsMatched(pieces[1..], path[k..]);
    }
  }

  /** Where line ends do not matter the expression is the glob. */
  lemma AgreesWithTheGlob(pattern: Text, path: Text)
    requires OneLine(path) || !HasDoubleStar(pattern)
    ensures Accepts(pattern, path) <==> Glob(pattern, path, true)
  {
    CrossingsAreDoubleStars(pattern);
    AcceptsPieces(pattern, path);
    PiecesDenoteTheGlob(pattern, path, true);
    if Denotes(Pieces(pattern), path, false) {
      MatchedIsDenoted(Pieces(pattern), path);
    }
    if Denotes(Pieces(pattern), path, true) {
      DenotedIsMatched(Pieces(pattern), path);
    }
  }

  /** The places where a line feed is followed by a slash. */
  function Hops(s: Text): nat {
    if |s| < 2 then 0 else (if s[0] == LINE_FEED && s[1] == SLASH then 1 else 0) + Hops(s[1..])
  }

  lemma {:induction false} HopsOfParts(a: Text, b: Text)
    ensures Hops(b) <= Hops(a + b) <= Hops(a) + Hops(b) + 1
    ensures Hops(a) <= Hops(a + b)
  {
    if a == [] {
      assert a + b == b;
    } else {
      assert (a + b)[1..] == a[1..] + b;
      HopsOfParts(a[1..], b);
    }
  }

  lemma {:induction false} NoHops(t: Text)
    requires NoSlash(t) || OneLine(t)
    ensures Hops(t) == 0
  {
    if |t| >= 2 {
      NoHops(t[1..]);
    }
  }

  lemma NoHopsCovered(piece: Piece, t: Text)
    requires Covers(piece, t, false)
    ensures Hops(t) == 0
  {
    match piece
    case Literal(_) =>
    case One =>
    case Segment => NoHops(t);
    case Cross => NoHops(t);
    case Deep =>
      if t != [] {
        assert t == t[..|t| - 1] + [SLASH];
        assert OneLine(t);
        NoHops(t);
      }
  }

  /** A covered stretch contains no hop, so a matched path has few. */
  lemma {:induction false} FewHops(pieces: seq<Piece>, path: Text)
    requires Denotes(pieces, path, false)
    ensures Hops(path) <= |pieces|
  {
    if pieces != [] {
      var k :| 0 <= k <= |path| && Covers(pieces[0], path[..k], false) && Denotes(pieces[1..], path[k..], false);
      FewHops(pieces[1..], path[k..]);
      NoHopsCovered(pieces[0], path[..k]);
      HopsAround(path, k);
    }
  }

  lemma HopsAround(path: Text, k: nat)
    requires k <= |path|
    ensures Hops(path) <= Hops(path[..k]) + Hops(path[k..]) + 1
  {
    assert path == path[..k] + path[k..];
    HopsOfParts(path[..k], path[k..]);
  }

  function Ladder(n: nat): Text {
    if n == 0 then [] else [LINE_FEED, SLASH] + Ladder(n - 1)
  }

  lemma {:induction false} LadderHops(n: nat)
    ensures Hops(Ladder(n)) >= n
    ensures n > 0 ==> Ladder(n) != [] && Ladder(n)[|Ladder(n)| - 1] == SLASH
  {
    if n > 0 {
      LadderHops(n - 1);
      assert Ladder(n)[1..][1..] == Ladder(n - 1);
    }
  }

  /** A path of the glob that crosses many lines wherever `**` stands. */
  function Sample(pieces: seq<Piece>, n: nat): Text {
    if pieces == [] then [] else SampleOf(pieces[0], n) + Sample(pieces[1..], n)
  }

  function SampleOf(piece: Piece, n: nat): Text {
    match piece
    case Literal(u) => [u]
    case One => [LINE_FEED]
    case Segment => []
    case Cross => Ladder(n)
    case Deep => Ladder(n)
  }

  lemma {:induction false} SampleIsDenoted(pieces: seq<Piece>, n: nat)
    requires n > 0
    ensures Denotes(pieces, Sample(pieces, n), true)
    ensures HasCrossing(pieces) ==> Hops(Sample(pieces, n)) >= n
  {
    if pieces != [] {
      var first, rest := SampleOf(pieces[0], n), Sample(pieces[1..], n);
      SampleIsDenoted(pieces[1..], n);
      LadderHops(n);
      HopsOfParts(first, rest);
      assert Sample(pieces, n)[..|first|] == first && Sample(pieces, n)[|first|..] == rest;
      assert Covers(pieces[0], first, true);
    }
  }

  /** The expression agrees with its glob on every path exactly when the pattern has no `**`. */
  lemma PatternAgreesExactly(pattern: Text)
    ensures (forall path :: Accepts(pattern, path) <==> Glob(pattern, path, true)) <==> !HasDoubleStar(pattern)
  {
    var pieces := Pieces(pattern);
    CrossingsAreDoubleStars(pattern);
    if HasCrossing(pieces) {
      var n := |pieces| + 1;
      SampleIsDenoted(pieces, n);
      var path := Sample(pieces, n);
      AcceptsPieces(pattern, path);
      PiecesDenoteTheGlob(pattern, path, true);
      if Denotes(pieces, path, false) {
        FewHops(pieces, path);
      }
      assert !(Accepts(pattern, path) <==> Glob(pattern, path, true));
    } else {
      forall path ensures Accepts(pattern, path) <==> Glob(pattern, path, true) {
        AgreesWithTheGlob(pattern, path);
      }
    }
  }

  /** All patterns agree with their globs on a path exactly when it has no line terminator. */
  lemma PathAgreesExactly(path: Text)
    ensures (forall pattern :: Accepts(pattern, path) <==> Glob(pattern, path, true)) <==> OneLine(path)
  {
    if OneLine(path) {
      forall pattern ensures Accepts(pattern, path) <==> Glob(pattern, path, true) {
        AgreesWithTheGlob(pattern, path);
      }
    } else {
      var pattern: Text := [STAR, STAR];
      AcceptsExactly(pattern, path);
      WholePath(path, false);
      WholePath(path, true);
      assert !(Accepts(pattern, path) <==> Glob(pattern, path, true));
    }
  }

  lemma WholePath(path: Text, lines: bool)
    ensures Glob([STAR, STAR], path, lines) <==> Crosses(path, lines)
  {
    var pattern: Text := [STAR, STAR];
    assert !([STAR, STAR, SLASH] <= pattern) && pattern[2..] == [];
    assert path[..|path|] == path && path[|path|..] == [];
    if Crosses(path, lines) {
      assert Crosses(path[..|path|], lines) && Glob(pattern[2..], path[|path|..], lines);
    }
  }
}
