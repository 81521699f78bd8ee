/** Finding the goal-plan block of a Markdown document: the scan over its lines, and which
    documents it accepts. */
module GoalPlanFence {
  import opened Prelude
  import opened MarkdownLines

  datatype Fence = Fence(marker: CodeUnit, length: nat, goalPlan: bool)

  /** A line with what the two fence tests say of it. */
  datatype Line = Line(text: Text, opening: Opening, closing: Option<Run>)

  function Classify(text: Text): Line {
    Line(text, OpeningFence(text), ClosingRun(text))
  }

  function ClassifyAll(texts: seq<Text>): (lines: seq<Line>)
    ensures |lines| == |texts| && forall k :: 0 <= k < |texts| ==> lines[k] == Classify(texts[k])
  {
    seq(|texts|, k requires 0 <= k < |texts| => Classify(texts[k]))
  }

  function Texts(lines: seq<Line>): (texts: seq<Text>)
    ensures |texts| == |lines| && forall k :: 0 <= k < |lines| ==> texts[k] == lines[k].text
  {
    seq(|lines|, k requires 0 <= k < |lines| => lines[k].text)
  }

  predicate Closes(line: Line, fence: Fence) {
    line.closing.Some? && line.closing.value.marker == fence.marker && line.closing.value.length >= fence.length
  }

  predicate OpensPlan(line: Line) {
    line.opening.Opens? && line.opening.subject.GoalPlan?
  }

  // ---- the scanner ----

  datatype Error = MalformedFence | InfoNotExact | SecondPlan | Unclosed(goalPlan: bool) | NoPlan

  datatype Result = Ok(json: Text) | Err(error: Error)

  /** The rest of the scan when no fence is open. */
  function ScanOutside(lines: seq<Line>, found: Option<Text>): Result
    decreases |lines|
  {
    if lines == [] then (if found.None? then Err(NoPlan) else Ok(found.value)) else
    match lines[0].opening
    case NoFence => ScanOutside(lines[1..], found)
    case Malformed => Err(MalformedFence)
    case Opens(marker, length, subject) =>
      if subject.NotExact? then Err(InfoNotExact)
      else if subject.GoalPlan? && found.Some? then Err(SecondPlan)
      else ScanInside(lines[1..], Fence(marker, length, subject.GoalPlan?), [], found)
  }

  function ScanInside(lines: seq<Line>, fence: Fence, content: seq<Line>, found: Option<Text>): Result
    decreases |lines|
  {
    if lines == [] then Err(Unclosed(fence.goalPlan))
    else if Closes(lines[0], fence) then ScanOutside(lines[1..], FoundAfter(fence, content, found))
    else if !fence.goalPlan then ScanInside(lines[1..], fence, content, found)
    else if lines[0].opening.Malformed? then Err(MalformedFence)
    else if OpensPlan(lines[0]) then Err(SecondPlan)
    else ScanInside(lines[1..], fence, content + [lines[0]], found)
  }

  /** What has been found once the fence is closed. */
  function FoundAfter(fence: Fence, content: seq<Line>, found: Option<Text>): Option<Text> {
    if fence.goalPlan then Some(Join(Texts(content))) else found
  }

  method Extract(markdown: Text) returns (r: Result)
    ensures r == ScanOutside(ClassifyAll(SplitLines(markdown)), None)
    ensures forall json :: r == Ok(json) <==> Holds(ClassifyAll(SplitLines(markdown)), json)
  {
    r := Scan(SplitLines(markdown));
    forall json ensures r == Ok(json) <==> Holds(ClassifyAll(SplitLines(markdown)), json) {
      AcceptsExactly(ClassifyAll(SplitLines(markdown)), json);
    }
  }

  /** The loop over the lines. */
  method Scan(texts: seq<Text>) returns (r: Result)
    ensures r == ScanOutside(ClassifyAll(texts), None)
  {
    ghost var lines := ClassifyAll(texts);
    var open: Option<Fence> := None;
    var content: seq<Text> := [];
    ghost var kept: seq<Line> := [];
    var found: Option<Text> := None;
    var i := 0;
    while i < |texts|
      invariant 0 <= i <= |texts| == |lines| && content == Texts(kept)
      invariant ScanOutside(lines, None)
        == if open.None? then ScanOutside(lines[i..], found) else ScanInside(lines[i..], open.value, kept, found)
    {
      var line := Classify(texts[i]);
      assert lines[i..][0] == line && lines[i..][1..] == lines[i + 1..];
      i := i + 1;
      if open.Some? {
        if Closes(line, open.value) {
          if open.value.goalPlan {
            found := Some(Join(content));
          }
          open, content, kept := None, [], [];
          continue;
        }
        if open.value.goalPlan {
          if line.opening.Malformed? {
            return Err(MalformedFence);
          }
          if OpensPlan(line) {
            return Err(SecondPlan);
          }
          content, kept := content + [line.text], kept + [line];
        }
        continue;
      }
      var fence := line.opening;
      if fence.Malformed? {
        return Err(MalformedFence);
      }
      if fence.NoFence? {
        continue;
      }
      if fence.subject.NotExact? {
        return Err(InfoNotExact);
      }
      if fence.subject.GoalPlan? && found.Some? {
        return Err(SecondPlan);
      }
      open, content, kept := Some(Fence(fence.marker, fence.length, fence.subject.GoalPlan?)), [], [];
    }
    if open.Some? {
      return Err(Unclosed(open.value.goalPlan));
    }
    r := if found.None? then Err(NoPlan) else Ok(found.value);
  }

  // ---- which documents hold a plan ----

  /** A line that may stand inside the block of the fence. */
  predicate Interior(line: Line, fence: Fence) {
    !Closes(line, fence) && (fence.goalPlan ==> !line.opening.Malformed? && !OpensPlan(line))
  }

  predicate AllInterior(lines: seq<Line>, fence: Fence) {
    forall k :: 0 <= k < |lines| ==> Interior(lines[k], fence)
  }

  predicate IsOpening(line: Line, goalPlan: bool) {
    line.opening.Opens? && line.opening.subject == (if goalPlan then GoalPlan else Other)
  }

  function FenceOf(line: Line): Fence
    requires line.opening.Opens?
  {
    Fence(line.opening.marker, line.opening.length, line.opening.subject.GoalPlan?)
  }

  /** An opening fence, interior lines, and the fence that closes it. */
  predicate Block(lines: seq<Line>, goalPlan: bool) {
    && |lines| >= 2 && IsOpening(lines[0], goalPlan)
    && AllInterior(lines[1..|lines| - 1], FenceOf(lines[0]))
    && Closes(lines[|lines| - 1], FenceOf(lines[0]))
  }

  /** Lines that open no fence, and closed blocks that are not about a goal plan. */
  ghost predicate Balanced(lines: seq<Line>)
    decreases |lines|
  {
    || lines == []
    || (lines[0].opening.NoFence? && Balanced(lines[1..]))
    || exists n :: 0 < n <= |lines| && Block(lines[..n], false) && Balanced(lines[n..])
  }

  ghost predicate PlanAt(lines: seq<Line>, i: int, n: int, json: Text) {
    && 0 <= i < i + 2 <= n <= |lines|
    && Balanced(lines[..i]) && Block(lines[i..n], true) && Balanced(lines[n..])
    && json == Join(Texts(lines[i + 1..n - 1]))
  }

  /** Exactly one closed goal-plan block, whose interior is the given text, in balanced material. */
  ghost predicate Holds(lines: seq<Line>, json: Text) {
    exists i, n :: PlanAt(lines, i, n, json)
  }

  lemma InteriorTail(lines: seq<Line>, n: nat, fence: Fence)
    requires 0 < n <= |lines| && AllInterior(lines[..n], fence)
    ensures Interior(lines[0], fence) && AllInterior(lines[1..][..n - 1], fence)
  {
    assert lines[..n][0] == lines[0];
    var tail := lines[1..][..n - 1];
    forall k | 0 <= k < |tail| ensures Interior(tail[k], fence) {
      assert lines[..n][k + 1] == tail[k];
    }
  }

  /** Inside a fence the scan runs over interior lines to the closing fence. */
  lemma {:induction false} InsideRuns(lines: seq<Line>, n: nat, fence: Fence, content: seq<Line>, found: Option<Text>)
    requires n < |lines| && AllInterior(lines[..n], fence) && Closes(lines[n], fence)
    ensures ScanInside(lines, fence, content, found)
      == ScanOutside(lines[n + 1..], FoundAfter(fence, content + lines[..n], found))
    decreases n
  {
    if n == 0 {
      assert content + lines[..0] == content;
    } else {
      var more := if fence.goalPlan then content + [lines[0]] else content;
      InteriorTail(lines, n, fence);
      InsideRuns(lines[1..], n - 1, fence, more, found);
      assert lines[1..][n..] == lines[n + 1..];
      assert content + [lines[0]] + lines[1..][..n - 1] == content + lines[..n];
    }
  }

  /** A scan that succeeds inside a fence has found the closing fence. */
  lemma {:induction false} InsideCloses(lines: seq<Line>, fence: Fence, content: seq<Line>, found: Option<Text>)
    returns (n: nat)
    requires ScanInside(lines, fence, content, found).Ok?
    ensures n < |lines| && AllInterior(lines[..n], fence) && Closes(lines[n], fence)
    decreases |lines|
  {
    if Closes(lines[0], fence) {
      n := 0;
    } else {
      var m := InsideCloses(lines[1..], fence, if fence.goalPlan then content + [lines[0]] else content, found);
      n := m + 1;
      forall k | 0 <= k < n ensures Interior(lines[..n][k], fence) {
        assert k > 0 ==> lines[..n][k] == lines[1..][..m][k - 1];
      }
    }
  }

  /** A block scans as its fence says. */
  lemma BlockRuns(block: seq<Line>, rest: seq<Line>, goalPlan: bool, found: Option<Text>)
    requires Block(block, goalPlan) && (goalPlan ==> found.None?)
    ensures ScanOutside(block + rest, found)
      == ScanOutside(rest, FoundAfter(FenceOf(block[0]), block[1..|block| - 1], found))
  {
    var n := |block| - 2;
    var inside := (block + rest)[1..];
    BlockSlices(block, rest);
    InsideRuns(inside, n, FenceOf(block[0]), [], found);
    assert [] + inside[..n] == inside[..n];
  }

  lemma BlockSlices(block: seq<Line>, rest: seq<Line>)
    requires |block| >= 2
    ensures var inside, n := (block + rest)[1..], |block| - 2;
      inside[..n] == block[1..|block| - 1] && inside[n] == block[|block| - 1] && inside[n + 1..] == rest
  {
    var inside, n := (block + rest)[1..], |block| - 2;
    assert inside == block[1..] + rest;
    assert inside[..n] == block[1..][..n];
    forall k | 0 <= k < n ensures block[1..][..n][k] == block[1..|block| - 1][k] {}
  }

  lemma {:induction false} BalancedIsSkipped(lines: seq<Line>, rest: seq<Line>, found: Option<Text>)
    requires Balanced(lines)
    ensures ScanOutside(lines + rest, found) == ScanOutside(rest, found)
    decreases |lines|
  {
    if lines == [] {
      assert lines + rest == rest;
    } else if lines[0].opening.NoFence? && Balanced(lines[1..]) {
      assert (lines + rest)[1..] == lines[1..] + rest;
      BalancedIsSkipped(lines[1..], rest, found);
    } else {
      var n :| 0 < n <= |lines| && Block(lines[..n], false) && Balanced(lines[n..]);
      assert lines + rest == lines[..n] + (lines[n..] + rest);
      BlockRuns(lines[..n], lines[n..] + rest, false, found);
      BalancedIsSkipped(lines[n..], rest, found);
    }
  }

  /** The block in front of a scan that succeeds from an opening fence on. */
  lemma FrontBlock(lines: seq<Line>, found: Option<Text>) returns (n: nat)
    requires lines != [] && !lines[0].opening.NoFence? && ScanOutside(lines, found).Ok?
    ensures 2 <= n <= |lines| && Block(lines[..n], OpensPlan(lines[0])) && (OpensPlan(lines[0]) ==> found.None?)
    ensures ScanOutside(lines, found) ==
      ScanOutside(lines[n..], FoundAfter(FenceOf(lines[0]), lines[..n][1..n - 1], found))
  {
    var m := InsideCloses(lines[1..], FenceOf(lines[0]), [], found);
    n := m + 2;
    assert lines[..n][1..n - 1] == lines[1..][..m];
    assert lines[..n][n - 1] == lines[1..][m];
    BlockRuns(lines[..n], lines[n..], OpensPlan(lines[0]), found);
    assert lines[..n] + lines[n..] == lines;
  }

  /** After the plan a scan succeeds only over balanced material. */
  lemma {:induction false} RestIsBalanced(lines: seq<Line>, json: Text)
    requires ScanOutside(lines, Some(json)).Ok?
    ensures Balanced(lines) && ScanOutside(lines, Some(json)) == Ok(json)
    decreases |lines|
  {
    if lines != [] {
      if lines[0].opening.NoFence? {
        RestIsBalanced(lines[1..], json);
      } else {
        var n := FrontBlock(lines, Some(json));
        RestIsBalanced(lines[n..], json);
      }
    }
  }

  predicate Skippable(head: seq<Line>) {
    head != [] && (Block(head, false) || (|head| == 1 && head[0].opening.NoFence?))
  }

  lemma BalancedGrows(head: seq<Line>, lines: seq<Line>)
    requires Skippable(head) && Balanced(lines)
    ensures Balanced(head + lines)
  {
    assert (head + lines)[|head|..] == lines && (head + lines)[..|head|] == head;
  }

  lemma ShiftedSlices(head: seq<Line>, lines: seq<Line>, i: nat, n: nat)
    requires i + 2 <= n <= |lines|
    ensures var h := |head|;
      && (head + lines)[..h + i] == head + lines[..i]
      && (head + lines)[h + i..h + n] == lines[i..n]
      && (head + lines)[h + n..] == lines[n..]
      && (head + lines)[h + i + 1..h + n - 1] == lines[i + 1..n - 1]
  {}

  lemma PlanShifts(head: seq<Line>, lines: seq<Line>, i: nat, n: nat, json: Text)
    requires Skippable(head) && PlanAt(lines, i, n, json)
    ensures PlanAt(head + lines, |head| + i, |head| + n, json)
  {
    BalancedGrows(head, lines[..i]);
    ShiftedSlices(head, lines, i, n);
  }

  lemma PlanShiftsBy(lines: seq<Line>, m: nat, i: nat, n: nat, json: Text)
    requires m <= |lines| && Skippable(lines[..m]) && PlanAt(lines[m..], i, n, json)
    ensures PlanAt(lines, m + i, m + n, json)
  {
    PlanShifts(lines[..m], lines[m..], i, n, json);
    assert lines[..m] + lines[m..] == lines;
  }

  /** A scan that meets the plan first has it in front. */
  lemma PlanInFront(lines: seq<Line>, json: Text) returns (n: nat)
    requires lines != [] && OpensPlan(lines[0]) && ScanOutside(lines, None) == Ok(json)
    ensures PlanAt(lines, 0, n, json)
  {
    n := FrontBlock(lines, None);
    RestIsBalanced(lines[n..], Join(Texts(lines[..n][1..n - 1])));
    assert lines[0..n] == lines[..n] && lines[..n][1..n - 1] == lines[0 + 1..n - 1];
    assert Balanced(lines[..0]);
  }

  /** What stands before the plan is skipped piece by piece. */
  lemma FrontIsSkippable(lines: seq<Line>, json: Text) returns (m: nat)
    requires lines != [] && !OpensPlan(lines[0]) && ScanOutside(lines, None) == Ok(json)
    ensures 0 < m <= |lines| && Skippable(lines[..m]) && ScanOutside(lines[m..], None) == Ok(json)
  {
    m := 1;
    if !lines[0].opening.NoFence? {
      m := FrontBlock(lines, None);
    }
  }

  lemma {:induction false} FindPlan(lines: seq<Line>, json: Text) returns (i: nat, n: nat)
    requires ScanOutside(lines, None) == Ok(json)
    ensures PlanAt(lines, i, n, json)
    decreases |lines|
  {
    if OpensPlan(lines[0]) {
      n := PlanInFront(lines, json);
      i := 0;
    } else {
      var m := FrontIsSkippable(lines, json);
      i, n := FindPlan(lines[m..], json);
      PlanShiftsBy(lines, m, i, n, json);
      i, n := m + i, m + n;
    }
  }

  lemma PlanText(lines: seq<Line>, json: Text) returns (from: nat, to: nat)
    requires ScanOutside(lines, None) == Ok(json)
    ensures from <= to <= |lines| && json == Join(Texts(lines[from..to]))
  {
    var i, n := FindPlan(lines, json);
    from, to := i + 1, n - 1;
  }

  lemma PiecesAreFound(before: seq<Line>, block: seq<Line>, rest: seq<Line>, json: Text)
    requires Balanced(before) && Block(block, true) && Balanced(rest) && json == Join(Texts(block[1..|block| - 1]))
    ensures ScanOutside(before + (block + rest), None) == Ok(json)
  {
    BalancedIsSkipped(before, block + rest, None);
    BlockRuns(block, rest, true, None);
    assert rest + [] == rest;
    BalancedIsSkipped(rest, [], Some(json));
  }

  lemma ThreeParts(lines: seq<Line>, i: nat, n: nat)
    requires i <= n <= |lines|
    ensures lines == lines[..i] + (lines[i..n] + lines[n..])
  {
    assert lines[i..] == lines[i..n] + lines[n..];
  }

  lemma MiddlePart(lines: seq<Line>, i: nat, n: nat)
    requires i + 2 <= n <= |lines|
    ensures lines[i..n][1..n - i - 1] == lines[i + 1..n - 1]
  {
    var block, middle := lines[i..n], lines[i + 1..n - 1];
    forall k | 0 <= k < |middle| ensures block[1..n - i - 1][k] == middle[k] {
      assert block[k + 1] == lines[i + 1 + k];
    }
  }

  lemma PlanIsFound(lines: seq<Line>, i: nat, n: nat, json: Text)
    requires PlanAt(lines, i, n, json)
    ensures ScanOutside(lines, None) == Ok(json)
  {
    var block := lines[i..n];
    ThreeParts(lines, i, n);
    MiddlePart(lines, i, n);
    PiecesAreFound(lines[..i], block, lines[n..], json);
  }

  /** The scanner returns a text exactly when the document is balanced material around one closed
      goal-plan block with that text inside. */
  lemma AcceptsExactly(lines: seq<Line>, json: Text)
    ensures ScanOutside(lines, None) == Ok(json) <==> Holds(lines, json)
  {
    if ScanOutside(lines, None) == Ok(json) {
      var i, n := FindPlan(lines, json);
      assert PlanAt(lines, i, n, json);
    }
    if i, n :| PlanAt(lines, i, n, json) {
      PlanIsFound(lines, i, n, json);
    }
  }
}
