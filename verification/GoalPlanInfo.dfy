/** The characters and the info strings of Markdown fences, in the terms of the expressions that
    test them. */
module GoalPlanInfo {
  import opened Prelude
  import opened MarkdownLines

  // ---- characters ----

  predicate IsAscii(s: string) {
    forall i :: 0 <= i < |s| ==> s[i] as int < 128
  }

  function Units(s: string): (t: Text)
    requires IsAscii(s)
    ensures |t| == |s|
  {
    seq(|s|, i requires 0 <= i < |s| => s[i] as int)
  }

  /** `\w`: letters, digits and the underscore. */
  predicate IsWordCharacter(c: char) {
    'a' <= c <= 'z' || 'A' <= c <= 'Z' || '0' <= c <= '9' || c == '_'
  }

  lemma WordExactly(u: CodeUnit)
    ensures IsWord(u) <==> exists c: char :: c as int == u && IsWordCharacter(c)
  {
    if IsWord(u) {
      var c := u as char;
      assert c as int == u && IsWordCharacter(c);
    }
  }

  /** What `trim` takes away: white space and line terminators of ECMAScript. */
  lemma SpaceExactly(u: CodeUnit)
    ensures IsSpace(u) <==> u in {
      0x0009, 0x000A, 0x000B, 0x000C, 0x000D, 0x0020, 0x00A0, 0x1680, 0x2000, 0x2001, 0x2002, 0x2003, 0x2004, 0x2005,
      0x2006, 0x2007, 0x2008, 0x2009, 0x200A, 0x2028, 0x2029, 0x202F, 0x205F, 0x3000, 0xFEFF
    }
  {
    if 0x2000 <= u <= 0x200A {
      assert u in {0x2000, 0x2001, 0x2002, 0x2003, 0x2004, 0x2005, 0x2006, 0x2007, 0x2008, 0x2009, 0x200A};
    }
  }

  lemma NameIsGoalPlan()
    ensures IsAscii("goal-plan") && GOAL_PLAN == Units("goal-plan")
  {}

  // ---- info strings ----

  predicate IsWordUnit(u: CodeUnit) {
    u < 128 && IsWordCharacter(u as char)
  }

  lemma SameWords(u: CodeUnit)
    ensures IsWordUnit(u) <==> IsWord(u)
  {}

  /** `\bgoal-plan\b` matches: the name stands somewhere without a word character beside it. */
  ghost predicate NamesPlan(info: Text) {
    exists a, b :: NamesPlanBetween(info, a, b)
  }

  predicate NamesPlanBetween(info: Text, a: Text, b: Text) {
    && info == a + Units("goal-plan") + b
    && (a == [] || !IsWordUnit(a[|a| - 1])) && (b == [] || !IsWordUnit(b[0]))
  }

  lemma MentionsExactly(info: Text)
    ensures Mentions(info) <==> NamesPlan(info)
  {
    NameIsGoalPlan();
    var n := |GOAL_PLAN|;
    if Mentions(info) {
      var k :| 0 <= k <= |info| - n && MentionAt(info, k);
      var a, b := info[..k], info[k + n..];
      assert info == a + info[k..k + n] + b;
      assert NamesPlanBetween(info, a, b);
    }
    if a, b :| NamesPlanBetween(info, a, b) {
      assert info[|a|..|a| + n] == GOAL_PLAN;
      assert |a| > 0 ==> info[|a| - 1] == a[|a| - 1];
      assert |b| > 0 ==> info[|a| + n] == b[0];
      assert MentionAt(info, |a|);
    }
  }

  /** What an info string says of the fence. */
  lemma SubjectExactly(info: Text)
    ensures SubjectOf(info) == GoalPlan <==> info == Units("goal-plan")
    ensures SubjectOf(info) == NotExact <==> info != Units("goal-plan") && NamesPlan(info)
  {
    NameIsGoalPlan();
    MentionsExactly(info);
  }

  // ---- fences ----

  /** A fence is malformed exactly when it is made of backticks, has a backtick in its info too, and
      names the goal plan there. */
  lemma MalformedExactly(line: Text)
    ensures OpeningFence(line) == Malformed <==>
      exists indent, length, tail ::
        Shape(line, indent, BACKTICK, length, tail) && length >= 3 && OneLine(tail)
        && BACKTICK in Trim(tail) && NamesPlan(Trim(tail))
  {
    if OpeningFence(line) == Malformed {
      ReadShape(line);
      var indent := Leading(line, SPACE);
      var length := Leading(line[indent..], BACKTICK);
      var tail := line[indent..][length..];
      MentionsExactly(Trim(tail));
      assert Shape(line, indent, BACKTICK, length, tail);
    }
    if indent, length, tail :|
      Shape(line, indent, BACKTICK, length, tail) && length >= 3 && OneLine(tail)
      && BACKTICK in Trim(tail) && NamesPlan(Trim(tail))
    {
      ShapeIsRead(line, indent, BACKTICK, length, tail);
      MentionsExactly(Trim(tail));
    }
  }
}
