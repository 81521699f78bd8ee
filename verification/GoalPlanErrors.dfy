/** Why a document without an acceptable goal-plan block is refused. */
module GoalPlanErrors {
  import opened Prelude
  import opened MarkdownLines
  import opened GoalPlanFence

  /** Lines outside of fences and closed blocks, among them at most one with a plan: what has been
      found before them, and what behind. */
  ghost predicate Consumed(lines: seq<Line>, found: Option<Text>, after: Option<Text>)
    decreases |lines|
  {
    || (lines == [] && after == found)
    || (lines != [] && lines[0].opening.NoFence? && Consumed(lines[1..], found, after))
    || exists n :: 0 < n <= |lines| && ConsumedBlock(lines[..n], found)
                   && Consumed(lines[n..], FoundIn(lines[..n], found), after)
  }

  /** A block that may stand here: a second plan may not. */
  predicate ConsumedBlock(block: seq<Line>, found: Option<Text>) {
    Block(block, false) || (Block(block, true) && found.None?)
  }

  function FoundIn(block: seq<Line>, found: Option<Text>): Option<Text> {
    if |block| >= 2 && Block(block, true) then Some(Join(Texts(block[1..|block| - 1]))) else found
  }

  /** The line may not stand outside of fences. */
  predicate StopsOutside(line: Line, found: Option<Text>, error: Error) {
    match line.opening
    case NoFence => false
    case Malformed => error == MalformedFence
    case Opens(_, _, subject) =>
      (subject.NotExact? && error == InfoNotExact) || (subject.GoalPlan? && found.Some? && error == SecondPlan)
  }

  /** The line may not stand inside of this fence, and does not close it. */
  predicate StopsInside(line: Line, fence: Fence, error: Error) {
    && fence.goalPlan && !Closes(line, fence)
    && ((line.opening.Malformed? && error == MalformedFence) || (OpensPlan(line) && error == SecondPlan))
  }

  /** The fence that opens here is never closed, or a line inside of it may not stand there. */
  predicate FailsInside(lines: seq<Line>, i: nat, j: nat, found: Option<Text>, error: Error) {
    && i < j <= |lines| && lines[i].opening.Opens? && !lines[i].opening.subject.NotExact?
    && (OpensPlan(lines[i]) ==> found.None?)
    && AllInterior(lines[i + 1..j], FenceOf(lines[i]))
    && (if j == |lines| then error == Unclosed(OpensPlan(lines[i]))
        else StopsInside(lines[j], FenceOf(lines[i]), error))
  }

  /** Complete material up to line `i`, and there the end without a plan, a line that may not stand
      outside of fences, or a fence that fails. */
  ghost predicate FailsAt(lines: seq<Line>, found: Option<Text>, error: Error, i: nat, after: Option<Text>, j: nat) {
    && i <= |lines| && Consumed(lines[..i], found, after)
    && (|| (i == |lines| && after.None? && error == NoPlan)
        || (i < |lines| && StopsOutside(lines[i], after, error))
        || FailsInside(lines, i, j, after, error))
  }

  ghost predicate Fails(lines: seq<Line>, found: Option<Text>, error: Error) {
    exists i, after, j :: FailsAt(lines, found, error, i, after, j)
  }

  // ---- such a document is refused ----

  lemma {:induction false} ConsumedIsSkipped(
      lines: seq<Line>, rest: seq<Line>, found: Option<Text>, after: Option<Text>)
    requires Consumed(lines, found, after)
    ensures ScanOutside(lines + rest, found) == ScanOutside(rest, after)
    decreases |lines|
  {
    if lines == [] {
      assert lines + rest == rest;
    } else if lines[0].opening.NoFence? && Consumed(lines[1..], found, after) {
      assert (lines + rest)[1..] == lines[1..] + rest;
      ConsumedIsSkipped(lines[1..], rest, found, after);
    } else {
      var n :| 0 < n <= |lines| && ConsumedBlock(lines[..n], found)
        && Consumed(lines[n..], FoundIn(lines[..n], found), after);
      PieceFirst(lines, n, rest, found);
      ConsumedIsSkipped(lines[n..], rest, FoundIn(lines[..n], found), after);
    }
  }

  lemma {:induction false} PieceFirst(lines: seq<Line>, n: nat, rest: seq<Line>, found: Option<Text>)
    requires 0 < n <= |lines| && ConsumedBlock(lines[..n], found)
    ensures ScanOutside(lines + rest, found) == ScanOutside(lines[n..] + rest, FoundIn(lines[..n], found))
  {
    BlockIsSkipped(lines[..n], lines[n..] + rest, found);
    assert lines + rest == lines[..n] + (lines[n..] + rest);
  }

  lemma BlockIsSkipped(block: seq<Line>, rest: seq<Line>, found: Option<Text>)
    requires ConsumedBlock(block, found)
    ensures ScanOutside(block + rest, found) == ScanOutside(rest, FoundIn(block, found))
  {
    BlockRuns(block, rest, Block(block, true), found);
  }

  lemma {:induction false} InsideFails(lines: seq<Line>, n: nat, fence: Fence, content: seq<Line>, found: Option<Text>)
    requires n <= |lines| && AllInterior(lines[..n], fence)
    ensures n == |lines| ==> ScanInside(lines, fence, content, found) == Err(Unclosed(fence.goalPlan))
    ensures n < |lines| ==> forall error :: StopsInside(lines[n], fence, error) ==>
      ScanInside(lines, fence, content, found) == Err(error)
    decreases n
  {
    if n > 0 {
      InteriorTail(lines, n, fence);
      InsideFails(lines[1..], n - 1, fence, if fence.goalPlan then content + [lines[0]] else content, found);
    }
  }

  lemma {:induction false} OutsideFails(lines: seq<Line>, j: nat, found: Option<Text>, error: Error)
    requires lines != [] && (StopsOutside(lines[0], found, error) || FailsInside(lines, 0, j, found, error))
    ensures ScanOutside(lines, found) == Err(error)
  {
    if FailsInside(lines, 0, j, found, error) {
      assert lines[1..][..j - 1] == lines[0 + 1..j];
      InsideFails(lines[1..], j - 1, FenceOf(lines[0]), [], found);
    }
  }

  lemma FailuresAreErrors(lines: seq<Line>, found: Option<Text>, error: Error, i: nat, after: Option<Text>, j: nat)
    requires FailsAt(lines, found, error, i, after, j)
    ensures ScanOutside(lines, found) == Err(error)
  {
    var rest := lines[i..];
    assert lines == lines[..i] + rest;
    ConsumedIsSkipped(lines[..i], rest, found, after);
    if i < |lines| {
      if FailsInside(lines, i, j, after, error) {
        assert rest[1..j - i] == lines[i + 1..j];
        assert FailsInside(rest, 0, j - i, after, error);
        OutsideFails(rest, j - i, after, error);
      } else {
        OutsideFails(rest, 0, after, error);
      }
    }
  }

  // ---- a document that is refused is such a document ----

  /** The lines inside of a fence, up to the first that is not interior. */
  lemma {:induction false} InsideEnds(lines: seq<Line>, fence: Fence) returns (n: nat)
    ensures n <= |lines| && AllInterior(lines[..n], fence) && (n < |lines| ==> !Interior(lines[n], fence))
    decreases |lines|
  {
    n := 0;
    if lines != [] && Interior(lines[0], fence) {
      var m := InsideEnds(lines[1..], fence);
      n := m + 1;
      forall k | 0 <= k < n ensures Interior(lines[..n][k], fence) {
        assert k > 0 ==> lines[..n][k] == lines[1..][..m][k - 1];
      }
    }
  }

  predicate IsPiece(head: seq<Line>, found: Option<Text>) {
    head != [] && (ConsumedBlock(head, found) || (|head| == 1 && head[0].opening.NoFence?))
  }

  lemma ConsumedGrows(head: seq<Line>, lines: seq<Line>, found: Option<Text>, after: Option<Text>)
    requires IsPiece(head, found) && Consumed(lines, FoundIn(head, found), after)
    ensures Consumed(head + lines, found, after)
  {
    var all := head + lines;
    assert all[|head|..] == lines && all[..|head|] == head;
    if !ConsumedBlock(head, found) {
      assert all[1..] == lines && FoundIn(head, found) == found;
    }
  }

  lemma FailureShifts(lines: seq<Line>, m: nat, found: Option<Text>, error: Error, i: nat, after: Option<Text>, j: nat)
    requires m <= |lines| && IsPiece(lines[..m], found)
    requires FailsAt(lines[m..], FoundIn(lines[..m], found), error, i, after, j)
    ensures FailsAt(lines, found, error, m + i, after, m + j)
  {
    var rest := lines[m..];
    assert lines[..m] + rest[..i] == lines[..m + i];
    ConsumedGrows(lines[..m], rest[..i], found, after);
    assert i < |rest| ==> rest[i] == lines[m + i];
    if FailsInside(rest, i, j, after, error) {
      InsideShifts(lines, m, i, j, after, error);
    }
  }

  lemma InsideShifts(lines: seq<Line>, m: nat, i: nat, j: nat, after: Option<Text>, error: Error)
    requires m <= |lines| && FailsInside(lines[m..], i, j, after, error)
    ensures FailsInside(lines, m + i, m + j, after, error)
  {
    var rest := lines[m..];
    var a, b := rest[i + 1..j], lines[m + i + 1..m + j];
    forall k | 0 <= k < |b| ensures b[k] == a[k] {
      assert b[k] == lines[m + i + 1 + k] && a[k] == rest[i + 1 + k];
    }
    assert rest[i] == lines[m + i] && (j < |rest| ==> rest[j] == lines[m + j]);
  }

  /** Behind an opening fence that is in order: a block, or the reason for the failure. */
  lemma {:induction false} FenceEnds(lines: seq<Line>, found: Option<Text>, error: Error) returns (n: nat)
    requires lines != [] && lines[0].opening.Opens? && !lines[0].opening.subject.NotExact?
    requires OpensPlan(lines[0]) ==> found.None?
    requires ScanOutside(lines, found) == Err(error)
    ensures 0 < n <= |lines| && (FailsInside(lines, 0, n, found, error) || (n >= 2 && ConsumedBlock(lines[..n], found)))
  {
    var fence, inside := FenceOf(lines[0]), lines[1..];
    var m := InsideEnds(inside, fence);
    assert lines[0 + 1..m + 1] == inside[..m];
    if m < |inside| && Closes(inside[m], fence) {
      n := m + 2;
      FenceMakesBlock(lines, m);
    } else {
      n := m + 1;
      InsideFails(inside, m, fence, [], found);
      if m < |inside| {
        var e := if inside[m].opening.Malformed? then MalformedFence else SecondPlan;
        assert StopsInside(inside[m], fence, e);
      }
    }
  }

  lemma FenceMakesBlock(lines: seq<Line>, m: nat)
    requires m + 2 <= |lines| && lines[0].opening.Opens? && !lines[0].opening.subject.NotExact?
    requires AllInterior(lines[1..][..m], FenceOf(lines[0])) && Closes(lines[m + 1], FenceOf(lines[0]))
    ensures Block(lines[..m + 2], OpensPlan(lines[0]))
  {
    var block := lines[..m + 2];
    assert block[1..m + 1] == lines[1..][..m];
  }

  lemma {:induction false} ErrorsAreFailures(lines: seq<Line>, found: Option<Text>, error: Error)
    returns (i: nat, after: Option<Text>, j: nat)
    requires ScanOutside(lines, found) == Err(error)
    ensures FailsAt(lines, found, error, i, after, j)
    decreases |lines|
  {
    if lines == [] || StopsOutside(lines[0], found, error) {
      FailsHere(lines, found, error, 0);
      return 0, found, 0;
    }
    var m := 1;
    if !lines[0].opening.NoFence? {
      m := FenceEnds(lines, found, error);
      if FailsInside(lines, 0, m, found, error) {
        FailsHere(lines, found, error, m);
        return 0, found, m;
      }
    }
    PieceIsSkipped(lines, m, found);
    i, after, j := ErrorsAreFailures(lines[m..], FoundIn(lines[..m], found), error);
    FailureShifts(lines, m, found, error, i, after, j);
    i, j := m + i, m + j;
  }

  lemma {:induction false} FailsHere(lines: seq<Line>, found: Option<Text>, error: Error, j: nat)
    requires || (lines == [] && found.None? && error == NoPlan)
             || (lines != [] && StopsOutside(lines[0], found, error))
             || FailsInside(lines, 0, j, found, error)
    ensures FailsAt(lines, found, error, 0, found, j)
  {
    assert lines[..0] == [];
  }

  lemma PieceIsSkipped(lines: seq<Line>, m: nat, found: Option<Text>)
    requires m <= |lines| && IsPiece(lines[..m], found)
    ensures ScanOutside(lines, found) == ScanOutside(lines[m..], FoundIn(lines[..m], found))
  {
    var head, rest := lines[..m], lines[m..];
    assert lines == head + rest;
    if ConsumedBlock(head, found) {
      BlockIsSkipped(head, rest, found);
    }
  }

  /** Each error is given for just the documents with that defect: the first place where complete
      material ends decides it. */
  lemma RefusedExactly(lines: seq<Line>, error: Error)
    ensures ScanOutside(lines, None) == Err(error) <==> Fails(lines, None, error)
  {
    if ScanOutside(lines, None) == Err(error) {
      var i, after, j := ErrorsAreFailures(lines, None, error);
    }
    if i, after, j :| FailsAt(lines, None, error, i, after, j) {
      FailuresAreErrors(lines, None, error, i, after, j);
    }
  }
}
