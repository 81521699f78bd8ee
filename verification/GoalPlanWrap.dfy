/** Writing a text into a goal-plan block and reading it back. */
module GoalPlanWrap {
  import opened Prelude
  import opened MarkdownLines
  import opened GoalPlanFence

  // ---- splitting and joining ----

  lemma {:induction false} SplitAtFeed(a: Text, b: Text)
    requires NoReturn(a)
    ensures SplitLines(a + [LINE_FEED] + b) == SplitLines(a) + SplitLines(b)
  {
    var whole := a + [LINE_FEED] + b;
    if a == [] {
      assert whole[1..] == b;
    } else {
      assert whole[1..] == a[1..] + [LINE_FEED] + b;
      SplitAtFeed(a[1..], b);
    }
  }

  lemma JoinFirst(first: Text, lines: seq<Text>)
    ensures Join([first] + lines) == if lines == [] then first else first + [LINE_FEED] + Join(lines)
  {
    assert ([first] + lines)[1..] == lines;
  }

  lemma {:induction false} JoinUndoesSplit(t: Text)
    requires NoReturn(t)
    ensures Join(SplitLines(t)) == t
  {
    if t == [] {
    } else {
      JoinUndoesSplit(t[1..]);
      var more := SplitLines(t[1..]);
      if t[0] == LINE_FEED {
        JoinFirst([], more);
        assert [] + [LINE_FEED] + t[1..] == t;
      } else {
        JoinFirst([t[0]] + more[0], more[1..]);
        JoinFirst(more[0], more[1..]);
        assert more == [more[0]] + more[1..];
        assert [t[0]] + Join(more) == t;
      }
    }
  }

  lemma {:induction false} LinesHaveNoReturn(t: Text, k: nat)
    requires k < |SplitLines(t)|
    ensures NoReturn(SplitLines(t)[k])
  {
    if t == [] {
    } else if t[0] == CARRIAGE_RETURN && |t| > 1 && t[1] == LINE_FEED {
      if k > 0 {
        LinesHaveNoReturn(t[2..], k - 1);
      }
    } else if t[0] == LINE_FEED || t[0] == CARRIAGE_RETURN {
      if k > 0 {
        LinesHaveNoReturn(t[1..], k - 1);
      }
    } else {
      LinesHaveNoReturn(t[1..], k);
    }
  }

  lemma {:induction false} JoinHasNoReturn(lines: seq<Text>)
    requires forall k :: 0 <= k < |lines| ==> NoReturn(lines[k])
    ensures NoReturn(Join(lines))
  {
    if |lines| > 1 {
      JoinHasNoReturn(lines[1..]);
    }
  }

  /** Whatever line ends a document uses, the extracted text has line feeds only. */
  lemma ExtractedHasNoReturn(markdown: Text, json: Text)
    requires ScanOutside(ClassifyAll(SplitLines(markdown)), None) == Ok(json)
    ensures NoReturn(json)
  {
    var lines := ClassifyAll(SplitLines(markdown));
    var from, to := PlanText(lines, json);
    InteriorHasNoReturn(markdown, from, to);
  }

  lemma InteriorHasNoReturn(markdown: Text, from: nat, to: nat)
    requires from <= to <= |SplitLines(markdown)|
    ensures NoReturn(Join(Texts(ClassifyAll(SplitLines(markdown))[from..to])))
  {
    var texts := Texts(ClassifyAll(SplitLines(markdown))[from..to]);
    forall k | 0 <= k < |texts| ensures NoReturn(texts[k]) {
      LinesHaveNoReturn(markdown, from + k);
    }
    JoinHasNoReturn(texts);
  }

  lemma {:induction false} FewerLinesAreShorter(lines: seq<Text>, k: nat)
    requires k < |lines| && lines[k] != []
    ensures |Join(lines[..k])| < |Join(lines)|
  {
    assert lines == [lines[0]] + lines[1..];
    JoinFirst(lines[0], lines[1..]);
    if k > 0 {
      FewerLinesAreShorter(lines[1..], k - 1);
      assert lines[..k] == [lines[0]] + lines[1..][..k - 1];
      JoinFirst(lines[0], lines[1..][..k - 1]);
    }
  }

  // ---- the block around a text ----

  const TICKS: Text := [BACKTICK, BACKTICK, BACKTICK]
  const OPENING: Text := TICKS + GOAL_PLAN

  function Wrap(json: Text): Text {
    OPENING + [LINE_FEED] + (json + [LINE_FEED] + TICKS)
  }

  const PLAN_FENCE := Fence(BACKTICK, 3, true)

  lemma OpeningShape()
    ensures Shape(OPENING, 0, BACKTICK, 3, GOAL_PLAN)
  {
    assert OPENING == Repeat(SPACE, 0) + Repeat(BACKTICK, 3) + GOAL_PLAN;
  }

  lemma OpeningLine()
    ensures NoReturn(OPENING) && OpeningFence(OPENING) == Opens(BACKTICK, 3, GoalPlan)
  {
    OpeningShape();
    assert Trim(GOAL_PLAN) == GOAL_PLAN;
    assert OpensWith(BACKTICK, 3, GOAL_PLAN, GoalPlan);
    OpensExactly(OPENING, BACKTICK, 3, GoalPlan);
  }

  lemma ClosingLine()
    ensures ClosingRun(TICKS) == Some(Run(BACKTICK, 3))
  {
    assert TICKS == Repeat(SPACE, 0) + Repeat(BACKTICK, 3) + [];
    assert Shape(TICKS, 0, BACKTICK, 3, []);
    ClosesExactly(TICKS, BACKTICK, 3);
  }

  lemma {:induction false} SplitPlain(t: Text)
    requires LINE_FEED !in t && NoReturn(t)
    ensures SplitLines(t) == [t]
  {
    if t != [] {
      SplitPlain(t[1..]);
      assert [t[0]] + t[1..] == t;
    }
  }

  function Body(json: Text): seq<Line> {
    ClassifyAll(SplitLines(json))
  }

  lemma WrappedLines(json: Text)
    requires NoReturn(json)
    ensures ClassifyAll(SplitLines(Wrap(json))) == [Classify(OPENING)] + (Body(json) + [Classify(TICKS)])
  {
    WrappedTexts(json);
    ClassifyParts(SplitLines(json));
  }

  lemma WrappedTexts(json: Text)
    requires NoReturn(json)
    ensures SplitLines(Wrap(json)) == [OPENING] + (SplitLines(json) + [TICKS])
  {
    SplitAtFeed(OPENING, json + [LINE_FEED] + TICKS);
    SplitAtFeed(json, TICKS);
    SplitPlain(OPENING);
    SplitPlain(TICKS);
  }

  lemma ClassifyParts(texts: seq<Text>)
    ensures ClassifyAll([OPENING] + (texts + [TICKS])) == [Classify(OPENING)] + (ClassifyAll(texts) + [Classify(TICKS)])
  {}

  lemma WrappedScan(json: Text)
    requires NoReturn(json)
    ensures ScanOutside(ClassifyAll(SplitLines(Wrap(json))), None)
      == ScanInside(Body(json) + [Classify(TICKS)], PLAN_FENCE, [], None)
  {
    WrappedLines(json);
    OpeningLine();
    var lines := [Classify(OPENING)] + (Body(json) + [Classify(TICKS)]);
    assert lines[1..] == Body(json) + [Classify(TICKS)];
  }

  lemma BodyTexts(json: Text)
    requires NoReturn(json)
    ensures Join(Texts(Body(json))) == json
  {
    assert Texts(Body(json)) == SplitLines(json);
    JoinUndoesSplit(json);
  }

  lemma SuitableReadsBack(json: Text)
    requires NoReturn(json) && AllInterior(Body(json), PLAN_FENCE)
    ensures ScanOutside(ClassifyAll(SplitLines(Wrap(json))), None) == Ok(json)
  {
    WrappedScan(json);
    ClosingLine();
    var lines := Body(json) + [Classify(TICKS)];
    var n := |Body(json)|;
    assert lines[..n] == Body(json) && [] + lines[..n] == Body(json) && lines[n + 1..] == [];
    InsideRuns(lines, n, PLAN_FENCE, [], None);
    BodyTexts(json);
  }

  /** A successful scan of a block that ends too early returns too little. */
  lemma EarlyCloseLosesText(json: Text)
    requires NoReturn(json) && ScanOutside(ClassifyAll(SplitLines(Wrap(json))), None) == Ok(json)
    ensures AllInterior(Body(json), PLAN_FENCE)
  {
    WrappedScan(json);
    var lines := Body(json) + [Classify(TICKS)];
    var n := InsideCloses(lines, PLAN_FENCE, [], None);
    InsideRuns(lines, n, PLAN_FENCE, [], None);
    assert [] + lines[..n] == lines[..n];
    var early := Join(Texts(lines[..n]));
    RestIsBalanced(lines[n + 1..], early);
    if n < |Body(json)| {
      var texts := Texts(Body(json));
      assert Texts(lines[..n]) == texts[..n];
      NotEmpty(texts[n]);
      FewerLinesAreShorter(texts, n);
      BodyTexts(json);
    } else {
      assert lines[..n] == Body(json);
    }
  }

  lemma NotEmpty(line: Text)
    ensures ClosingRun(line).Some? ==> line != []
  {}

  /** Writing a text into a block and extracting it is the identity exactly when the text has no
      carriage return and none of its lines would close or reopen the block. */
  lemma WrapThenExtract(json: Text)
    ensures ScanOutside(ClassifyAll(SplitLines(Wrap(json))), None) == Ok(json)
      <==> NoReturn(json) && AllInterior(Body(json), PLAN_FENCE)
  {
    if ScanOutside(ClassifyAll(SplitLines(Wrap(json))), None) == Ok(json) {
      ExtractedHasNoReturn(Wrap(json), json);
      EarlyCloseLosesText(json);
    }
    if NoReturn(json) && AllInterior(Body(json), PLAN_FENCE) {
      SuitableReadsBack(json);
    }
  }
}
