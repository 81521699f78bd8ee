/** Lines of a Markdown document and the fences they form. */
module MarkdownLines {
  import opened Prelude

  const LINE_FEED: CodeUnit := 0x0A
  const CARRIAGE_RETURN: CodeUnit := 0x0D
  const TAB: CodeUnit := 0x09
  const SPACE: CodeUnit := 0x20
  const BACKTICK: CodeUnit := 0x60
  const TILDE: CodeUnit := 0x7E
  const GOAL_PLAN: Text := [0x67, 0x6F, 0x61, 0x6C, 0x2D, 0x70, 0x6C, 0x61, 0x6E]

  // ---- lines ----

  /** `split` at CR LF, LF and CR. */
  function SplitLines(t: Text): (lines: seq<Text>)
    ensures |lines| > 0
  {
    if t == [] then [[]]
    else if t[0] == CARRIAGE_RETURN && |t| > 1 && t[1] == LINE_FEED then [[]] + SplitLines(t[2..])
    else if t[0] == LINE_FEED || t[0] == CARRIAGE_RETURN then [[]] + SplitLines(t[1..])
    else
      var more := SplitLines(t[1..]);
      [[t[0]] + more[0]] + more[1..]
  }

  function Join(lines: seq<Text>): Text {
    if lines == [] then []
    else if |lines| == 1 then lines[0]
    else lines[0] + [LINE_FEED] + Join(lines[1..])
  }

  predicate IsLineEnd(end: Text) {
    end == [CARRIAGE_RETURN, LINE_FEED] || end == [LINE_FEED] || end == [CARRIAGE_RETURN]
  }

  predicate NoLineEnd(t: Text) {
    LINE_FEED !in t && CARRIAGE_RETURN !in t
  }

  /** The text is the line, an end of it, and the rest; a line feed behind a carriage return belongs
      to the same end. */
  predicate Begun(t: Text, line: Text, end: Text, rest: Text) {
    && t == line + end + rest && NoLineEnd(line) && IsLineEnd(end)
    && (end == [CARRIAGE_RETURN] ==> rest == [] || rest[0] != LINE_FEED)
  }

  /** The lines of the text, however each of them ends. */
  ghost predicate AreLines(t: Text, lines: seq<Text>)
    decreases |lines|
  {
    && lines != [] && NoLineEnd(lines[0])
    && if |lines| == 1 then t == lines[0]
       else exists end, rest :: Begun(t, lines[0], end, rest) && AreLines(rest, lines[1..])
  }

  lemma {:induction false} SplitsAtLine(line: Text, end: Text, rest: Text)
    requires Begun(line + end + rest, line, end, rest)
    ensures SplitLines(line + end + rest) == [line] + SplitLines(rest)
  {
    var t := line + end + rest;
    if line == [] {
      assert t == end + rest;
      assert t[|end|..] == rest;
    } else {
      assert t[1..] == line[1..] + end + rest;
      assert t[0] == line[0] && line[0] in line;
      SplitsAtLine(line[1..], end, rest);
      assert [line[0]] + line[1..] == line;
    }
  }

  lemma {:induction false} OnlyLine(line: Text)
    requires NoLineEnd(line)
    ensures SplitLines(line) == [line]
  {
    if line != [] {
      assert line[0] in line;
      OnlyLine(line[1..]);
      assert [line[0]] + line[1..] == line;
    }
  }

  lemma {:induction false} LinesAreSplit(t: Text, lines: seq<Text>)
    requires AreLines(t, lines)
    ensures SplitLines(t) == lines
    decreases |lines|
  {
    if |lines| == 1 {
      OnlyLine(t);
    } else {
      var end, rest :| Begun(t, lines[0], end, rest) && AreLines(rest, lines[1..]);
      SplitsAtLine(lines[0], end, rest);
      LinesAreSplit(rest, lines[1..]);
      assert [lines[0]] + lines[1..] == lines;
    }
  }

  lemma EndsHere(t: Text, end: Text)
    requires IsLineEnd(end) && end <= t
    requires end == [CARRIAGE_RETURN] ==> |t| == 1 || t[1] != LINE_FEED
    requires AreLines(t[|end|..], SplitLines(t[|end|..]))
    ensures AreLines(t, [[]] + SplitLines(t[|end|..]))
  {
    var rest := t[|end|..];
    assert t == [] + end + rest;
    LineFirst(t, [], end, rest, SplitLines(rest));
  }

  lemma {:induction false} LineGrows(t: Text, more: seq<Text>)
    requires t != [] && t[0] != LINE_FEED && t[0] != CARRIAGE_RETURN && AreLines(t[1..], more)
    ensures AreLines(t, [[t[0]] + more[0]] + more[1..])
  {
    assert t == [t[0]] + t[1..];
    if |more| > 1 {
      var end, rest :| Begun(t[1..], more[0], end, rest) && AreLines(rest, more[1..]);
      assert t == ([t[0]] + more[0]) + end + rest;
      LineFirst(t, [t[0]] + more[0], end, rest, more[1..]);
    }
  }

  lemma {:induction false} LineFirst(t: Text, line: Text, end: Text, rest: Text, more: seq<Text>)
    requires Begun(t, line, end, rest) && AreLines(rest, more)
    ensures AreLines(t, [line] + more)
  {
    var lines := [line] + more;
    assert lines[0] == line && lines[1..] == more;
  }

  lemma {:induction false} SplitIsLines(t: Text)
    ensures AreLines(t, SplitLines(t))
  {
    if t != [] {
      if t[0] == CARRIAGE_RETURN && |t| > 1 && t[1] == LINE_FEED {
        SplitIsLines(t[2..]);
        assert t[..2] == [CARRIAGE_RETURN, LINE_FEED];
        EndsHere(t, [CARRIAGE_RETURN, LINE_FEED]);
      } else if t[0] == LINE_FEED || t[0] == CARRIAGE_RETURN {
        SplitIsLines(t[1..]);
        EndsHere(t, [t[0]]);
      } else {
        SplitIsLines(t[1..]);
        LineGrows(t, SplitLines(t[1..]));
      }
    }
  }

  /** Splitting gives the lines of the text, and there is no other way to read it as lines: CR LF,
      LF and CR each end one line. */
  lemma SplitsExactly(t: Text, lines: seq<Text>)
    ensures SplitLines(t) == lines <==> AreLines(t, lines)
  {
    SplitIsLines(t);
    if AreLines(t, lines) {
      LinesAreSplit(t, lines);
    }
  }

  predicate NoReturn(t: Text) {
    CARRIAGE_RETURN !in t
  }

  // ---- fences ----

  function Leading(t: Text, u: CodeUnit): (n: nat)
    ensures n <= |t|
    ensures forall k :: 0 <= k < n ==> t[k] == u
    ensures n < |t| ==> t[n] != u
  {
    if t == [] || t[0] != u then 0 else 1 + Leading(t[1..], u)
  }

  /** What `trim` removes. */
  predicate IsSpace(u: CodeUnit) {
    || 0x09 <= u <= 0x0D || u == 0x20 || u == 0xA0 || u == 0x1680 || 0x2000 <= u <= 0x200A
    || u == 0x2028 || u == 0x2029 || u == 0x202F || u == 0x205F || u == 0x3000 || u == 0xFEFF
  }

  function Trim(t: Text): Text {
    if t == [] then []
    else if IsSpace(t[0]) then Trim(t[1..])
    else if IsSpace(t[|t| - 1]) then Trim(t[..|t| - 1])
    else t
  }

  predicate AllSpace(t: Text) {
    forall k :: 0 <= k < |t| ==> IsSpace(t[k])
  }

  lemma Grown(t: Text, left: Text, middle: Text, right: Text)
    requires t != [] && IsSpace(t[0]) && t[1..] == left + middle + right && AllSpace(left)
    ensures t == ([t[0]] + left) + middle + right && AllSpace([t[0]] + left)
  {
    assert t == [t[0]] + t[1..];
  }

  lemma Extended(t: Text, left: Text, middle: Text, right: Text)
    requires t != [] && IsSpace(t[|t| - 1]) && t[..|t| - 1] == left + middle + right && AllSpace(right)
    ensures t == left + middle + (right + [t[|t| - 1]]) && AllSpace(right + [t[|t| - 1]])
  {
    assert t == t[..|t| - 1] + [t[|t| - 1]];
  }

  /** Trimming removes white space at both ends and nothing else. */
  lemma {:induction false} TrimStripsTheEnds(t: Text) returns (left: Text, right: Text)
    ensures t == left + Trim(t) + right && AllSpace(left) && AllSpace(right)
    ensures Trim(t) != [] ==> !IsSpace(Trim(t)[0]) && !IsSpace(Trim(t)[|Trim(t)| - 1])
  {
    left, right := [], [];
    if t != [] && IsSpace(t[0]) {
      left, right := TrimStripsTheEnds(t[1..]);
      Grown(t, left, Trim(t[1..]), right);
      left := [t[0]] + left;
    } else if t != [] && IsSpace(t[|t| - 1]) {
      left, right := TrimStripsTheEnds(t[..|t| - 1]);
      Extended(t, left, Trim(t[..|t| - 1]), right);
      right := right + [t[|t| - 1]];
    }
  }

  predicate IsWord(u: CodeUnit) {
    0x30 <= u <= 0x39 || 0x41 <= u <= 0x5A || u == 0x5F || 0x61 <= u <= 0x7A
  }

  /** The name as a word of its own. */
  predicate Mentions(info: Text) {
    exists k :: 0 <= k <= |info| - |GOAL_PLAN| && MentionAt(info, k)
  }

  predicate MentionAt(info: Text, k: nat)
    requires k + |GOAL_PLAN| <= |info|
  {
    var end := k + |GOAL_PLAN|;
    && info[k..end] == GOAL_PLAN
    && (k == 0 || !IsWord(info[k - 1]))
    && (end == |info| || !IsWord(info[end]))
  }

  /** What an info string says: exactly the name, the name among other words, or neither. */
  datatype Subject = GoalPlan | NotExact | Other

  datatype Opening = NoFence | Malformed | Opens(marker: CodeUnit, length: nat, subject: Subject)

  function SubjectOf(info: Text): Subject {
    if info == GOAL_PLAN then GoalPlan else if Mentions(info) then NotExact else Other
  }

  function OpeningFence(line: Text): Opening {
    var indent := Leading(line, SPACE);
    var rest := line[indent..];
    if indent > 3 || rest == [] || (rest[0] != BACKTICK && rest[0] != TILDE) then NoFence else
      var marker := rest[0];
      var length := Leading(rest, marker);
      var tail := rest[length..];
      if length < 3 || !OneLine(tail) then NoFence else
        var info := Trim(tail);
        if marker == BACKTICK && BACKTICK in info then (if Mentions(info) then Malformed else NoFence)
        else Opens(marker, length, SubjectOf(info))
  }

  predicate OnlyBlanks(t: Text) {
    forall k :: 0 <= k < |t| ==> t[k] == SPACE || t[k] == TAB
  }

  datatype Run = Run(marker: CodeUnit, length: nat)

  /** The run of markers of a line that could close a fence. */
  function ClosingRun(line: Text): Option<Run> {
    var indent := Leading(line, SPACE);
    var rest := line[indent..];
    if indent > 3 || rest == [] || (rest[0] != BACKTICK && rest[0] != TILDE) then None else
      var length := Leading(rest, rest[0]);
      if OnlyBlanks(rest[length..]) then Some(Run(rest[0], length)) else None
  }

  // ---- what the line tests recognise ----

  function Repeat(u: CodeUnit, n: nat): Text {
    seq(n, _ => u)
  }

  /** A line as the tests see it: at most three spaces, a run of markers that does not go on, and
      a tail. */
  predicate Shape(line: Text, indent: nat, marker: CodeUnit, length: nat, tail: Text) {
    && line == Repeat(SPACE, indent) + Repeat(marker, length) + tail
    && indent <= 3 && length > 0 && (marker == BACKTICK || marker == TILDE)
    && (tail == [] || tail[0] != marker)
  }

  /** A line has at most one shape, which the tests compute. */
  lemma ShapeIsRead(line: Text, indent: nat, marker: CodeUnit, length: nat, tail: Text)
    requires Shape(line, indent, marker, length, tail)
    ensures indent == Leading(line, SPACE) && line[indent..] == Repeat(marker, length) + tail
    ensures length == Leading(line[indent..], marker) && line[indent..][length..] == tail
  {
    var rest := Repeat(marker, length) + tail;
    assert line == Repeat(SPACE, indent) + rest;
    var n := Leading(line, SPACE);
    assert n <= indent by {
      assert line[indent] == marker;
    }
    assert n >= indent by {
      assert n < |line| && line[n] != SPACE;
    }
    assert line[indent..] == rest;
    var m := Leading(rest, marker);
    assert m <= length by {
      assert length < |rest| ==> rest[length] == tail[0];
    }
  }

  lemma ReadShape(line: Text)
    ensures var indent := Leading(line, SPACE);
      var rest := line[indent..];
      indent <= 3 && rest != [] && (rest[0] == BACKTICK || rest[0] == TILDE) ==>
        var length := Leading(rest, rest[0]);
        Shape(line, indent, rest[0], length, rest[length..])
  {
    var indent := Leading(line, SPACE);
    var rest := line[indent..];
    if indent <= 3 && rest != [] && (rest[0] == BACKTICK || rest[0] == TILDE) {
      LeadingSplits(line, SPACE);
      LeadingSplits(rest, rest[0]);
      ShapeFromParts(line, indent, rest, rest[0], Leading(rest, rest[0]));
    }
  }

  lemma ShapeFromParts(line: Text, indent: nat, rest: Text, marker: CodeUnit, length: nat)
    requires line == Repeat(SPACE, indent) + rest && 0 < length <= |rest|
    requires rest == Repeat(marker, length) + rest[length..] && (rest[length..] == [] || rest[length] != marker)
    requires indent <= 3 && (marker == BACKTICK || marker == TILDE)
    ensures Shape(line, indent, marker, length, rest[length..])
  {}

  lemma LeadingSplits(t: Text, u: CodeUnit)
    ensures t == Repeat(u, Leading(t, u)) + t[Leading(t, u)..]
  {
    var n := Leading(t, u);
    assert t[..n] == Repeat(u, n);
    assert t == t[..n] + t[n..];
  }

  /** The lines that open a fence, and what the fence is. */
  lemma OpensExactly(line: Text, marker: CodeUnit, length: nat, subject: Subject)
    ensures OpeningFence(line) == Opens(marker, length, subject) <==>
      exists indent, tail :: Shape(line, indent, marker, length, tail) && OpensWith(marker, length, tail, subject)
  {
    if OpeningFence(line) == Opens(marker, length, subject) {
      ReadShape(line);
      var indent := Leading(line, SPACE);
      assert Shape(line, indent, marker, length, line[indent..][length..]);
    }
    if indent, tail :| Shape(line, indent, marker, length, tail) && OpensWith(marker, length, tail, subject) {
      ShapeIsRead(line, indent, marker, length, tail);
    }
  }

  predicate OpensWith(marker: CodeUnit, length: nat, tail: Text, subject: Subject) {
    && length >= 3 && OneLine(tail)
    && !(marker == BACKTICK && BACKTICK in Trim(tail))
    && subject == SubjectOf(Trim(tail))
  }

  /** The lines whose run of markers can close a fence. */
  lemma ClosesExactly(line: Text, marker: CodeUnit, length: nat)
    ensures ClosingRun(line) == Some(Run(marker, length)) <==>
      exists indent, tail ::
        Shape(line, indent, marker, length, tail) && forall k :: 0 <= k < |tail| ==> tail[k] in {0x20, 0x09}
  {
    if ClosingRun(line) == Some(Run(marker, length)) {
      ReadShape(line);
      var indent := Leading(line, SPACE);
      assert Shape(line, indent, marker, length, line[indent..][length..]);
    }
    if indent, tail :|
      Shape(line, indent, marker, length, tail) && forall k :: 0 <= k < |tail| ==> tail[k] in {0x20, 0x09}
    {
      ShapeIsRead(line, indent, marker, length, tail);
    }
  }
}
