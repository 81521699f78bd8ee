/** The recogniser accepts every text of the language, and so accepts exactly the language. */
module GoalPlanJsonCompleteness {
  import opened Prelude
  import opened GoalPlanJson
  import opened GoalPlanJsonSoundness

  /** What may follow a value inside a text of the grammar. */
  predicate Delimited(rest: Text) {
    rest == [] || IsBlank(rest[0]) || rest[0] == COMMA || rest[0] == CLOSE_BRACKET || rest[0] == CLOSE_BRACE
  }

  lemma {:induction false} SkipBlank(pre: Text, x: Text)
    requires Blank(pre) && (x == [] || !IsBlank(x[0]))
    ensures Skip(pre + x) == x
  {
    if pre == [] {
      assert pre + x == x;
    } else {
      assert (pre + x)[1..] == pre[1..] + x;
      SkipBlank(pre[1..], x);
    }
  }

  lemma {:induction false} DigitsExact(d: Text, rest: Text)
    requires Digits(d) && (rest == [] || !IsDigit(rest[0]))
    ensures DigitCount(d + rest) == |d|
  {
    if d == [] {
      assert d + rest == rest;
    } else {
      assert (d + rest)[1..] == d[1..] + rest;
      DigitsExact(d[1..], rest);
    }
  }

  /** One derived character in front of more of the body is one element of it. */
  lemma ElementFirst(c: StringChar, tail: Text)
    requires CharDerives(c)
    ensures var t := CharYield(c) + tail;
            && t[0] != QUOTE && ElementLength(t) == |CharYield(c)| > 0 && t[|CharYield(c)|..] == tail
  {
    var t := CharYield(c) + tail;
    assert forall i :: 0 <= i < |CharYield(c)| ==> t[i] == CharYield(c)[i];
  }

  lemma BodyStep(c: StringChar, tail: Text)
    requires CharDerives(c)
    ensures BodyLength(CharYield(c) + tail) == Further(|CharYield(c)|, BodyLength(tail))
  {
    ElementFirst(c, tail);
  }

  lemma YieldFirst(cs: seq<StringChar>, rest: Text)
    requires cs != []
    ensures CharsYield(cs) == CharYield(cs[0]) + CharsYield(cs[1..])
    ensures CharsYield(cs) + [QUOTE] + rest == CharYield(cs[0]) + (CharsYield(cs[1..]) + [QUOTE] + rest)
  {}

  lemma {:induction false} BodyComplete(cs: seq<StringChar>, rest: Text)
    requires CharsDerive(cs)
    ensures BodyLength(CharsYield(cs) + [QUOTE] + rest) == Some(|CharsYield(cs)|)
  {
    if cs == [] {
      assert CharsYield(cs) + [QUOTE] + rest == [QUOTE] + rest;
    } else {
      BodyComplete(cs[1..], rest);
      BodyStep(cs[0], CharsYield(cs[1..]) + [QUOTE] + rest);
      YieldFirst(cs, rest);
    }
  }

  lemma {:induction false} UnescapeYield(cs: seq<StringChar>)
    requires CharsDerive(cs)
    ensures Unescape(CharsYield(cs)) == Meaning(cs)
  {
    if cs != [] {
      UnescapeYield(cs[1..]);
      UnescapeFirst(cs[0], CharsYield(cs[1..]));
      YieldFirst(cs, []);
      MeaningCons(cs[0], cs[1..]);
      assert [cs[0]] + cs[1..] == cs;
    }
  }

  /** A quoted string in front of `rest`, as the scanner sees it. */
  lemma StringComplete(cs: seq<StringChar>, rest: Text)
    requires CharsDerive(cs)
    ensures var u := StringYield(cs) + rest;
            && Begins(u, QUOTE) && BodyLength(u[1..]) == Some(|CharsYield(cs)|)
            && u[|CharsYield(cs)| + 2..] == rest
            && Unescape(u[1..|CharsYield(cs)| + 1]) == Meaning(cs)
  {
    BodyComplete(cs, rest);
    UnescapeYield(cs);
    Quoted(CharsYield(cs), rest);
  }

  lemma Quoted(body: Text, rest: Text)
    ensures var u := [QUOTE] + body + [QUOTE] + rest;
            && u[0] == QUOTE && u[1..] == body + [QUOTE] + rest
            && u[1..|body| + 1] == body && u[|body| + 2..] == rest
  {}

  lemma WholeExact(whole: Text, rest: Text)
    requires WholePart(whole) && (rest == [] || !IsDigit(rest[0]))
    ensures WholeLength(whole + rest) == |whole|
  {
    if whole != [0x30] {
      DigitsExact(whole, rest);
    }
  }

  lemma FractionExact(fraction: Text, rest: Text)
    requires FractionPart(fraction) && (rest == [] || (!IsDigit(rest[0]) && rest[0] != DOT))
    ensures FractionLength(fraction + rest) == |fraction|
  {
    if fraction == [] {
      assert fraction + rest == rest;
    } else {
      DigitsExact(fraction[1..], rest);
      assert (fraction + rest)[1..] == fraction[1..] + rest;
    }
  }

  lemma {:induction false} ExponentExact(exponent: Text, rest: Text)
    requires ExponentPart(exponent) && Delimited(rest)
    ensures ExponentLength(exponent + rest) == |exponent|
  {
    var t := exponent + rest;
    if exponent == [] {
      assert t == rest;
    } else {
      assert t[0] == exponent[0] && t[1..] == exponent[1..] + rest && t[1..][0] == exponent[1];
      if IsSign(exponent[1]) {
        assert t[2..] == exponent[2..] + rest;
        DigitsExact(exponent[2..], rest);
      } else {
        DigitsExact(exponent[1..], rest);
      }
    }
  }

  lemma AfterFraction(exponent: Text, rest: Text)
    requires ExponentPart(exponent) && Delimited(rest)
    ensures exponent + rest == [] || (!IsDigit((exponent + rest)[0]) && (exponent + rest)[0] != DOT)
  {
    if exponent == [] {
      assert exponent + rest == rest;
    } else {
      assert (exponent + rest)[0] == exponent[0];
    }
  }

  lemma AfterWhole(fraction: Text, rest: Text)
    requires FractionPart(fraction) && (rest == [] || !IsDigit(rest[0]))
    ensures fraction + rest == [] || !IsDigit((fraction + rest)[0])
  {
    if fraction == [] {
      assert fraction + rest == rest;
    } else {
      assert (fraction + rest)[0] == fraction[0];
    }
  }

  /** The part of the match after an optional minus. */
  lemma UnsignedComplete(whole: Text, fraction: Text, exponent: Text, rest: Text)
    requires WholePart(whole) && FractionPart(fraction) && ExponentPart(exponent) && Delimited(rest)
    ensures var t := whole + (fraction + (exponent + rest));
            && WholeLength(t) == |whole| > 0 && t[|whole|..] == fraction + (exponent + rest)
            && FractionLength(t[|whole|..]) == |fraction| && t[|whole|..][|fraction|..] == exponent + rest
            && ExponentLength(t[|whole|..][|fraction|..]) == |exponent|
            && IsDigit(t[0])
  {
    var afterFraction := exponent + rest;
    var afterWhole := fraction + afterFraction;
    AfterFraction(exponent, rest);
    AfterWhole(fraction, afterFraction);
    WholeExact(whole, afterWhole);
    FractionExact(fraction, afterFraction);
    ExponentExact(exponent, rest);
    assert (whole + afterWhole)[|whole|..] == afterWhole;
    assert (fraction + afterFraction)[|fraction|..] == afterFraction;
    assert (whole + afterWhole)[0] == whole[0];
  }

  /** The longest match of the number expression is the number the grammar derives. */
  lemma {:induction false} NumberComplete(t: Tree, rest: Text)
    requires t.Number? && Derives(t) && Delimited(rest)
    ensures NumberLength(Yield(t) + rest) == |Yield(t)| > 0
    ensures IsDigit((Yield(t) + rest)[0]) || (Yield(t) + rest)[0] == MINUS
  {
    var unsigned := t.whole + (t.fraction + (t.exponent + rest));
    Regroup5(t.minus, t.whole, t.fraction, t.exponent, rest);
    UnsignedComplete(t.whole, t.fraction, t.exponent, rest);
    if t.minus == [] {
      assert [] + unsigned == unsigned;
    } else {
      assert ([MINUS] + unsigned)[1..] == unsigned;
    }
  }

  /** A derived value starts neither with white space nor with a closing bracket, and its first
      code unit tells which branch of the recogniser reads it. */
  lemma {:induction false} YieldStart(t: Tree, rest: Text)
    requires Derives(t) && Delimited(rest)
    ensures var u := Yield(t) + rest;
            && u != [] && !IsBlank(u[0]) && u[0] != CLOSE_BRACE && u[0] != CLOSE_BRACKET
            && (t.Object? <==> u[0] == OPEN_BRACE)
            && (t.Array? <==> u[0] == OPEN_BRACKET)
            && (t.String? <==> u[0] == QUOTE)
            && (t.Number? ==> IsDigit(u[0]) || u[0] == MINUS)
  {
    match t
    case Literal(word) => assert (word + rest)[0] == word[0];
    case Number(_, _, _, _) => NumberComplete(t, rest);
    case String(chars) => Quoted(CharsYield(chars), rest);
    case Array(blank, items) =>
      Bracketed(OPEN_BRACKET, if items.NoItems? then blank else ItemsYield(items), CLOSE_BRACKET, rest);
    case Object(blank, members) =>
      Bracketed(OPEN_BRACE, if members.NoMembers? then blank else MembersYield(members), CLOSE_BRACE, rest);
  }

  lemma {:induction false} ScalarComplete(t: Tree, rest: Text)
    requires Derives(t) && !t.Array? && !t.Object? && Delimited(rest)
    ensures Scalar(Yield(t) + rest) == Some(rest)
  {
    var u := Yield(t) + rest;
    assert u[|Yield(t)|..] == rest;
    match t
    case Literal(word) => LiteralScalar(word, rest);
    case Number(_, _, _, _) =>
      NumberComplete(t, rest);
      NumberScalar(u, |Yield(t)|);
    case String(chars) =>
      StringComplete(chars, rest);
      StringScalar(u, |CharsYield(chars)|);
  }

  lemma {:induction false} LiteralScalar(word: Text, rest: Text)
    requires word == TRUE || word == FALSE || word == NULL
    ensures Scalar(word + rest) == Some(rest)
  {
    var u := word + rest;
    assert u[0] == word[0] && word <= u && u[|word|..] == rest;
  }

  lemma {:induction false} NumberScalar(u: Text, n: nat)
    requires u != [] && (IsDigit(u[0]) || u[0] == MINUS) && NumberLength(u) == n > 0
    ensures Scalar(u) == Some(u[n..])
  {}

  lemma {:induction false} StringScalar(u: Text, n: nat)
    requires Begins(u, QUOTE) && BodyLength(u[1..]) == Some(n)
    ensures Scalar(u) == Some(u[n + 2..])
  {}

  lemma {:induction false} ValueComplete(pre: Text, t: Tree, rest: Text, depth: nat)
    requires Blank(pre) && Derives(t) && NamesDistinct(t) && depth + Depth(t) <= MAX_JSON_DEPTH && Delimited(rest)
    ensures Value(pre + (Yield(t) + rest), depth) == Some(rest)
    decreases t, 0
  {
    var u := Yield(t) + rest;
    YieldStart(t, rest);
    SkipBlank(pre, u);
    match t
    case Array(blank, items) =>
      var body := if items.NoItems? then blank else ItemsYield(items);
      ArrayComplete(blank, items, rest, depth);
      Bracketed(OPEN_BRACKET, body, CLOSE_BRACKET, rest);
    case Object(blank, members) =>
      var body := if members.NoMembers? then blank else MembersYield(members);
      ObjectComplete(blank, members, rest, depth);
      Bracketed(OPEN_BRACE, body, CLOSE_BRACE, rest);
    case _ => ScalarComplete(t, rest);
  }

  lemma Bracketed(open: CodeUnit, body: Text, close: CodeUnit, rest: Text)
    ensures var u := [open] + body + [close] + rest; u[0] == open && u[1..] == body + ([close] + rest)
  {
    Regroup4([open], body, [close], rest);
  }

  /** Skipping the blanks before a loop starts does not change what the loop reads. */
  lemma SkipPads(pre: Text, tail: Text)
    requires Blank(pre) && tail != [] && !IsBlank(tail[0])
    ensures Skip(pre + tail) == tail && Skip(tail) == tail
  {
    SkipBlank(pre, tail);
    SkipBlank([], tail);
    assert [] + tail == tail;
  }

  lemma ItemTailStart(items: Items, rest: Text)
    requires items.Item? && ItemsDerive(items)
    ensures var tail := ItemTail(items) + ([CLOSE_BRACKET] + rest);
            && ItemsYield(items) + ([CLOSE_BRACKET] + rest) == items.pre + tail
            && ItemsYield(items.(pre := [])) + ([CLOSE_BRACKET] + rest) == tail
            && tail != [] && !IsBlank(tail[0]) && tail[0] != CLOSE_BRACKET
  {
    var end := [CLOSE_BRACKET] + rest;
    var stripped := items.(pre := []);
    ItemYield(items);
    ItemYield(stripped);
    assert [] + ItemTail(stripped) == ItemTail(items);
    Regroup3(items.pre, ItemTail(items), end);
    YieldStart(items.value, []);
    assert Yield(items.value) + [] == Yield(items.value);
  }

  lemma {:induction false} ArrayComplete(blank: Text, items: Items, rest: Text, depth: nat)
    requires Blank(blank) && ItemsDerive(items) && ItemsDistinct(items)
    requires depth + ItemsDepth(items) <= MAX_JSON_DEPTH
    ensures
      ArrayValue((if items.NoItems? then blank else ItemsYield(items)) + ([CLOSE_BRACKET] + rest), depth) == Some(rest)
    decreases items, 2
  {
    if items.NoItems? {
      SkipPads(blank, [CLOSE_BRACKET] + rest);
    } else {
      ItemTailStart(items, rest);
      SkipPads(items.pre, ItemTail(items) + ([CLOSE_BRACKET] + rest));
      ItemsComplete([], items, rest, depth);
    }
  }

  lemma {:induction false} ItemsComplete(pre: Text, items: Items, rest: Text, depth: nat)
    requires Blank(pre) && items.Item? && ItemsDerive(items) && ItemsDistinct(items)
    requires depth + ItemsDepth(items) <= MAX_JSON_DEPTH
    ensures ArrayRest(ItemsYield(items.(pre := pre)) + ([CLOSE_BRACKET] + rest), depth) == Some(rest)
    decreases items, 1
  {
    var end := [CLOSE_BRACKET] + rest;
    var more := items.more;
    var x := if more.NoItems? then end else [COMMA] + (ItemsYield(more) + end);
    ItemChain(items.(pre := pre), end, items.post + x, x);
    ValueComplete(pre, items.value, items.post + x, depth + 1);
    SkipBlank(items.post, x);
    if more.Item? {
      ItemsComplete(more.pre, more, rest, depth);
      assert x[1..] == ItemsYield(more) + end;
    }
  }

  lemma MemberTailStart(members: Members, rest: Text)
    requires members.Member? && MembersDerive(members)
    ensures var tail := MemberTail(members) + ([CLOSE_BRACE] + rest);
            && MembersYield(members) + ([CLOSE_BRACE] + rest) == members.pre + tail
            && MembersYield(members.(pre := [])) + ([CLOSE_BRACE] + rest) == tail
            && Begins(tail, QUOTE)
  {
    var end := [CLOSE_BRACE] + rest;
    var stripped := members.(pre := []);
    MemberYield(members);
    MemberYield(stripped);
    assert [] + MemberTail(stripped) == MemberTail(members);
    Regroup3(members.pre, MemberTail(members), end);
  }

  lemma {:induction false} ObjectComplete(blank: Text, members: Members, rest: Text, depth: nat)
    requires Blank(blank) && MembersDerive(members) && MembersDistinct(members, {})
    requires depth + MembersDepth(members) <= MAX_JSON_DEPTH
    ensures
      ObjectValue((if members.NoMembers? then blank else MembersYield(members)) + ([CLOSE_BRACE] + rest), depth)
      == Some(rest)
    decreases members, 2
  {
    if members.NoMembers? {
      SkipPads(blank, [CLOSE_BRACE] + rest);
    } else {
      MemberTailStart(members, rest);
      SkipPads(members.pre, MemberTail(members) + ([CLOSE_BRACE] + rest));
      MembersComplete([], members, rest, depth, {});
    }
  }

  lemma {:induction false} PairComplete(
    pre: Text, name: seq<StringChar>, mid: Text, lead: Text, value: Tree, w: Text, depth: nat)
    requires Blank(pre) && CharsDerive(name) && Blank(mid) && Blank(lead) && Derives(value) && NamesDistinct(value)
    requires depth + 1 + Depth(value) <= MAX_JSON_DEPTH && Delimited(w)
    ensures Pair(pre + (StringYield(name) + (mid + ([COLON] + (lead + (Yield(value) + w))))), depth)
         == Some((Meaning(name), w))
    decreases value, 1
  {
    var afterColon := lead + (Yield(value) + w);
    var v := [COLON] + afterColon;
    var afterName := mid + v;
    var u := StringYield(name) + afterName;
    StringComplete(name, afterName);
    SkipPads(pre, u);
    SkipPads(mid, v);
    ValueComplete(lead, value, w, depth + 1);
    assert Begins(v, COLON) && v[1..] == afterColon;
    PairUnfolds(pre + u, u, |CharsYield(name)|, v, afterColon, depth);
  }

  /** What a pair is read as, once its parts are known. */
  lemma {:induction false} PairUnfolds(t: Text, u: Text, n: nat, v: Text, afterColon: Text, depth: nat)
    requires Skip(t) == u && Begins(u, QUOTE) && BodyLength(u[1..]) == Some(n) && n + 2 <= |u|
    requires Skip(u[n + 2..]) == v && Begins(v, COLON) && v[1..] == afterColon
    requires Value(afterColon, depth + 1).Some?
    ensures Pair(t, depth) == Some((Unescape(u[1..n + 1]), Value(afterColon, depth + 1).value))
  {}

  lemma {:induction false} MembersComplete(pre: Text, members: Members, rest: Text, depth: nat, seen: set<Text>)
    requires Blank(pre) && members.Member? && MembersDerive(members) && MembersDistinct(members, seen)
    requires depth + MembersDepth(members) <= MAX_JSON_DEPTH
    ensures ObjectRest(MembersYield(members.(pre := pre)) + ([CLOSE_BRACE] + rest), depth, seen) == Some(rest)
    decreases members, 1
  {
    var end := [CLOSE_BRACE] + rest;
    var more := members.more;
    var x := if more.NoMembers? then end else [COMMA] + (MembersYield(more) + end);
    MemberChain(members.(pre := pre), end, members.post + x, x);
    PairComplete(pre, members.name, members.mid, members.lead, members.value, members.post + x, depth);
    SkipBlank(members.post, x);
    if more.Member? {
      MembersComplete(more.pre, more, rest, depth, seen + {Meaning(members.name)});
      assert x[1..] == MembersYield(more) + end;
    }
  }

  lemma Complete(source: Text)
    requires InLanguage(source)
    ensures Accepts(source)
  {
    var pre, t, post :|
      && Blank(pre) && Derives(t) && Blank(post)
      && source == pre + Yield(t) + post
      && Depth(t) <= MAX_JSON_DEPTH && NamesDistinct(t);
    Regroup3(pre, Yield(t), post);
    ValueComplete(pre, t, post, 0);
    SkipBlank(post, []);
    assert post + [] == post;
  }

  /** The recogniser accepts a text exactly when it is a JSON text of RFC 8259 in which no value
      lies below level 64 and no object repeats a name after unescaping. */
  lemma AcceptsExactlyTheLanguage(source: Text)
    ensures Accepts(source) <==> InLanguage(source)
  {
    if Accepts(source) {
      Sound(source);
    }
    if InLanguage(source) {
      Complete(source);
    }
  }
}
