/** Every text the recogniser accepts derives from the grammar, within the depth limit and
    without repeated names. */
module GoalPlanJsonSoundness {
  import opened Prelude
  import opened GoalPlanJson

  lemma SkipSplits(t: Text) returns (pre: Text)
    ensures Blank(pre) && t == pre + Skip(t)
  {
    if t != [] && IsBlank(t[0]) {
      pre := SkipSplits(t[1..]);
      pre := [t[0]] + pre;
    } else {
      pre := [];
    }
  }

  lemma CharsYieldCons(c: StringChar, cs: seq<StringChar>)
    ensures CharsYield([c] + cs) == CharYield(c) + CharsYield(cs)
  {
    assert ([c] + cs)[1..] == cs;
  }

  lemma MeaningCons(c: StringChar, cs: seq<StringChar>)
    requires CharDerives(c) && CharsDerive(cs)
    ensures CharsDerive([c] + cs) && Meaning([c] + cs) == [CharMeaning(c)] + Meaning(cs)
  {
  }

  /** The first element of a string body that the scanner steps over. */
  function FirstChar(t: Text): (c: StringChar)
    requires t != [] && t[0] != QUOTE && ElementLength(t) > 0
    ensures CharDerives(c) && CharYield(c) == t[..ElementLength(t)]
  {
    if t[0] != BACKSLASH then Plain(t[0])
    else if t[1] == LETTER_U then Hex(t[2], t[3], t[4], t[5])
    else Escaped(t[1])
  }

  lemma UnescapeFirst(c: StringChar, more: Text)
    requires CharDerives(c)
    ensures Unescape(CharYield(c) + more) == [CharMeaning(c)] + Unescape(more)
  {
    assert (CharYield(c) + more)[|CharYield(c)|..] == more;
  }

  lemma TakeSplit(t: Text, k: nat, n: nat)
    requires k <= n <= |t|
    ensures t[..n] == t[..k] + t[k..][..n - k]
  {}

  lemma {:induction false} BodySound(t: Text) returns (cs: seq<StringChar>)
    requires BodyLength(t).Some?
    ensures CharsDerive(cs)
    ensures t[..BodyLength(t).value] == CharsYield(cs)
    ensures Unescape(t[..BodyLength(t).value]) == Meaning(cs)
    decreases |t|
  {
    var n := BodyLength(t).value;
    if n == 0 {
      cs := [];
    } else {
      var c, k := FirstChar(t), ElementLength(t);
      var more := BodySound(t[k..]);
      cs := [c] + more;
      CharsYieldCons(c, more);
      MeaningCons(c, more);
      TakeSplit(t, k, n);
      UnescapeFirst(c, t[k..][..n - k]);
    }
  }

  /** A body ends at a closing quote. */
  lemma {:induction false} BodyEndsAtQuote(t: Text)
    requires BodyLength(t).Some?
    ensures t[BodyLength(t).value] == QUOTE
    decreases |t|
  {
    if t[0] != QUOTE {
      var k := ElementLength(t);
      BodyEndsAtQuote(t[k..]);
      assert t[k..][BodyLength(t[k..]).value] == t[BodyLength(t).value];
    }
  }

  lemma StringSound(u: Text) returns (cs: seq<StringChar>)
    requires Begins(u, QUOTE) && BodyLength(u[1..]).Some?
    ensures CharsDerive(cs)
    ensures var n := BodyLength(u[1..]).value;
            u == StringYield(cs) + u[n + 2..] && Unescape(u[1..n + 1]) == Meaning(cs)
  {
    var n := BodyLength(u[1..]).value;
    cs := BodySound(u[1..]);
    BodyEndsAtQuote(u[1..]);
    Unquote(u, n);
  }

  lemma Unquote(u: Text, n: nat)
    requires n + 2 <= |u| && u[0] == QUOTE && u[1..][n] == QUOTE
    ensures u[1..][..n] == u[1..n + 1] && u == [QUOTE] + u[1..n + 1] + [QUOTE] + u[n + 2..]
  {}

  // Concatenation is regrouped here, away from the recogniser's own definitions.

  lemma Regroup3(a: Text, b: Text, c: Text)
    ensures a + (b + c) == a + b + c
  {}

  lemma Regroup4(a: Text, b: Text, c: Text, d: Text)
    ensures a + (b + (c + d)) == a + b + c + d
  {}

  lemma Regroup5(a: Text, b: Text, c: Text, d: Text, e: Text)
    ensures a + (b + (c + (d + e))) == a + b + c + d + e
  {
    Regroup4(a, b, c, d + e);
    Regroup3(a + b + c, d, e);
  }

  lemma Regroup7(a: Text, b: Text, c: Text, d: Text, e: Text, f: Text, g: Text, h: Text)
    ensures a + (b + (c + (d + (e + (f + (g + h)))))) == a + b + c + d + e + f + g + h
  {
    Regroup5(a, b, c, d, e + (f + (g + h)));
    Regroup4(a + b + c + d, e, f, g + h);
    Regroup3(a + b + c + d + e + f, g, h);
  }

  lemma NumberSound(u: Text) returns (t: Tree)
    requires NumberLength(u) > 0
    ensures t.Number? && Derives(t) && u == Yield(t) + u[NumberLength(u)..]
  {
    var m := if Begins(u, MINUS) then 1 else 0;
    var afterMinus := u[m..];
    var w := WholeLength(afterMinus);
    var afterWhole := afterMinus[w..];
    var f := FractionLength(afterWhole);
    var afterFraction := afterWhole[f..];
    var e := ExponentLength(afterFraction);
    NumberLengthIs(u, m, w, f, e);
    t := NumberTree(u, m, w, f, e);
  }

  lemma NumberLengthIs(u: Text, m: nat, w: nat, f: nat, e: nat)
    requires NumberLength(u) > 0 && m == if Begins(u, MINUS) then 1 else 0
    requires w == WholeLength(u[m..]) && f == FractionLength(u[m..][w..]) && e == ExponentLength(u[m..][w..][f..])
    ensures NumberLength(u) == m + w + f + e
  {}

  /** Four consecutive pieces of `u`, glued together again. */
  lemma NumberTree(u: Text, m: nat, w: nat, f: nat, e: nat) returns (t: Tree)
    requires m <= |u| && w <= |u[m..]| && f <= |u[m..][w..]| && e <= |u[m..][w..][f..]|
    ensures t == Number(u[..m], u[m..][..w], u[m..][w..][..f], u[m..][w..][f..][..e])
    ensures u == t.minus + t.whole + t.fraction + t.exponent + u[m + w + f + e..]
  {
    t := Number(u[..m], u[m..][..w], u[m..][w..][..f], u[m..][w..][f..][..e]);
    var a, rest := u[m..], u[m + w + f + e..];
    var b := a[w..];
    var c := b[f..];
    assert c == t.exponent + rest;
    assert b == t.fraction + c;
    assert a == t.whole + b;
    assert u == t.minus + a;
    Regroup5(t.minus, t.whole, t.fraction, t.exponent, rest);
  }

  lemma ScalarSound(u: Text) returns (tree: Tree)
    requires u != [] && Scalar(u).Some?
    ensures Derives(tree) && NamesDistinct(tree) && Depth(tree) == 0 && u == Yield(tree) + Scalar(u).value
  {
    if u[0] == QUOTE {
      var cs := StringSound(u);
      tree := String(cs);
    } else if TRUE <= u {
      tree := Literal(TRUE);
    } else if FALSE <= u {
      tree := Literal(FALSE);
    } else if NULL <= u {
      tree := Literal(NULL);
    } else {
      tree := NumberSound(u);
    }
  }

  lemma {:induction false} ValueSound(t: Text, depth: nat) returns (pre: Text, tree: Tree)
    requires Value(t, depth).Some?
    ensures Blank(pre) && Derives(tree) && NamesDistinct(tree) && depth + Depth(tree) <= MAX_JSON_DEPTH
    ensures t == pre + (Yield(tree) + Value(t, depth).value)
    decreases |t|, 0
  {
    var u := Skip(t);
    pre := SkipSplits(t);
    if u[0] == OPEN_BRACE {
      var blank, members := ObjectValueSound(u[1..], depth);
      tree := Object(blank, members);
      YieldBracketed(u, OPEN_BRACE,
        if members.NoMembers? then blank else MembersYield(members), CLOSE_BRACE, Value(t, depth).value);
    } else if u[0] == OPEN_BRACKET {
      var blank, items := ArrayValueSound(u[1..], depth);
      tree := Array(blank, items);
      YieldBracketed(u, OPEN_BRACKET,
        if items.NoItems? then blank else ItemsYield(items), CLOSE_BRACKET, Value(t, depth).value);
    } else {
      tree := ScalarSound(u);
    }
  }

  lemma YieldBracketed(u: Text, open: CodeUnit, body: Text, close: CodeUnit, rest: Text)
    requires u != [] && u[0] == open && u[1..] == body + ([close] + rest)
    ensures u == [open] + body + [close] + rest
  {
    assert u == [open] + u[1..];
    Regroup4([open], body, [close], rest);
  }

  lemma {:induction false} ArrayValueSound(t: Text, depth: nat) returns (blank: Text, items: Items)
    requires depth <= MAX_JSON_DEPTH && ArrayValue(t, depth).Some?
    ensures Blank(blank) && ItemsDerive(items) && ItemsDistinct(items) && depth + ItemsDepth(items) <= MAX_JSON_DEPTH
    ensures t == (if items.NoItems? then blank else ItemsYield(items)) + ([CLOSE_BRACKET] + ArrayValue(t, depth).value)
    decreases |t|, 3
  {
    blank := SkipSplits(t);
    var v := Skip(t);
    if Begins(v, CLOSE_BRACKET) {
      items := NoItems;
      assert v == [CLOSE_BRACKET] + v[1..];
    } else {
      items := ArraySound(v, depth);
      PadItems(blank, items, [CLOSE_BRACKET] + ArrayValue(t, depth).value);
      items := items.(pre := blank + items.pre);
    }
  }

  function ItemTail(items: Items): Text
    requires items.Item?
  {
    Yield(items.value) + items.post + (if items.more.NoItems? then [] else [COMMA] + ItemsYield(items.more))
  }

  lemma ItemYield(items: Items)
    requires items.Item?
    ensures ItemsYield(items) == items.pre + ItemTail(items)
  {
    Regroup4(items.pre, Yield(items.value), items.post,
             if items.more.NoItems? then [] else [COMMA] + ItemsYield(items.more));
    Regroup3(Yield(items.value), items.post,
             if items.more.NoItems? then [] else [COMMA] + ItemsYield(items.more));
  }

  lemma PadItems(blank: Text, items: Items, rest: Text)
    requires Blank(blank) && items.Item? && ItemsDerive(items) && ItemsDistinct(items)
    ensures var padded := items.(pre := blank + items.pre);
            && ItemsDerive(padded) && ItemsDistinct(padded) && ItemsDepth(padded) == ItemsDepth(items)
            && blank + (ItemsYield(items) + rest) == ItemsYield(padded) + rest
  {
    ItemYield(items);
    ItemYield(items.(pre := blank + items.pre));
    Regroup4(blank, items.pre, ItemTail(items), rest);
    Regroup3(items.pre, ItemTail(items), rest);
  }

  lemma {:induction false} ArraySound(t: Text, depth: nat) returns (items: Items)
    requires ArrayRest(t, depth).Some?
    ensures items.Item? && ItemsDerive(items) && ItemsDistinct(items) && depth + ItemsDepth(items) <= MAX_JSON_DEPTH
    ensures t == ItemsYield(items) + ([CLOSE_BRACKET] + ArrayRest(t, depth).value)
    decreases |t|, 1
  {
    var w, x := ArrayTurn(t, depth);
    var pre, value := ValueSound(t, depth + 1);
    var post := SkipSplits(w);
    var more := NoItems;
    if !Begins(x, CLOSE_BRACKET) {
      more := ArraySound(x[1..], depth);
    }
    items := Item(pre, value, post, more);
    ItemChain(items, [CLOSE_BRACKET] + ArrayRest(t, depth).value, w, x);
  }

  /** A turn of the loop over the elements: what is left after the value, and after the blanks. */
  lemma {:induction false} ArrayTurn(t: Text, depth: nat) returns (w: Text, x: Text)
    requires ArrayRest(t, depth).Some?
    ensures Value(t, depth + 1) == Some(w) && Skip(w) == x && 0 < |x| < |t|
    ensures x[0] == CLOSE_BRACKET ==> x == [CLOSE_BRACKET] + ArrayRest(t, depth).value
    ensures x[0] != CLOSE_BRACKET ==>
      x == [COMMA] + x[1..] && ArrayRest(t, depth) == ArrayRest(x[1..], depth)
  {
    w := Value(t, depth + 1).value;
    x := Skip(w);
    HeadAndTail(x);
  }

  lemma HeadAndTail(x: Text)
    ensures forall u :: Begins(x, u) ==> x == [u] + x[1..]
  {}

  lemma ItemChain(items: Items, end: Text, w: Text, x: Text)
    requires items.Item? && w == items.post + x
    requires x == if items.more.NoItems? then end else [COMMA] + (ItemsYield(items.more) + end)
    ensures items.pre + (Yield(items.value) + w) == ItemsYield(items) + end
  {
    var tail := if items.more.NoItems? then [] else [COMMA] + ItemsYield(items.more);
    assert x == tail + end;
    Regroup5(items.pre, Yield(items.value), items.post, tail, end);
  }

  lemma {:induction false} ObjectValueSound(t: Text, depth: nat) returns (blank: Text, members: Members)
    requires depth <= MAX_JSON_DEPTH && ObjectValue(t, depth).Some?
    ensures Blank(blank) && MembersDerive(members) && MembersDistinct(members, {})
    ensures depth + MembersDepth(members) <= MAX_JSON_DEPTH
    ensures t ==
      (if members.NoMembers? then blank else MembersYield(members)) + ([CLOSE_BRACE] + ObjectValue(t, depth).value)
    decreases |t|, 4
  {
    blank := SkipSplits(t);
    var v := Skip(t);
    if Begins(v, CLOSE_BRACE) {
      members := NoMembers;
      assert v == [CLOSE_BRACE] + v[1..];
    } else {
      members := ObjectSound(v, depth, {});
      PadMembers(blank, members, [CLOSE_BRACE] + ObjectValue(t, depth).value);
      members := members.(pre := blank + members.pre);
    }
  }

  function MemberTail(members: Members): Text
    requires members.Member?
  {
    StringYield(members.name) + members.mid + [COLON] + members.lead + Yield(members.value) + members.post
    + (if members.more.NoMembers? then [] else [COMMA] + MembersYield(members.more))
  }

  lemma MemberYield(members: Members)
    requires members.Member?
    ensures MembersYield(members) == members.pre + MemberTail(members)
  {
    var name, mid, colon, lead := StringYield(members.name), members.mid, [COLON], members.lead;
    var value, post := Yield(members.value), members.post;
    var more := if members.more.NoMembers? then [] else [COMMA] + MembersYield(members.more);
    Regroup7(members.pre, name, mid, colon, lead, value, post, more);
    Regroup5(name, mid, colon, lead, value + (post + more));
    Regroup3(name + mid + colon + lead, value, post + more);
    Regroup3(name + mid + colon + lead + value, post, more);
  }

  lemma {:induction false} PadMembers(blank: Text, members: Members, rest: Text)
    requires Blank(blank) && members.Member? && MembersDerive(members) && MembersDistinct(members, {})
    ensures var padded := members.(pre := blank + members.pre);
            && MembersDerive(padded) && MembersDistinct(padded, {}) && MembersDepth(padded) == MembersDepth(members)
            && blank + (MembersYield(members) + rest) == MembersYield(padded) + rest
  {
    var padded := members.(pre := blank + members.pre);
    MemberYield(members);
    MemberYield(padded);
    assert MemberTail(padded) == MemberTail(members);
    Regroup4(blank, members.pre, MemberTail(members), rest);
  }

  /** The pieces of one member from its name on: `u` begins the name, whose body has length `n`,
      `v` the colon, and `w` is left behind the value. */
  lemma {:induction false} NameAndValueSound(u: Text, n: nat, v: Text, w: Text, depth: nat)
    returns (name: seq<StringChar>, mid: Text, lead: Text, value: Tree)
    requires Begins(u, QUOTE) && BodyLength(u[1..]) == Some(n) && n + 2 <= |u|
    requires v == Skip(u[n + 2..]) && |v| < |u| && Begins(v, COLON) && Value(v[1..], depth + 1) == Some(w)
    ensures CharsDerive(name) && Blank(mid) && Blank(lead) && Derives(value) && NamesDistinct(value)
    ensures depth + 1 + Depth(value) <= MAX_JSON_DEPTH && Meaning(name) == Unescape(u[1..n + 1])
    ensures u == StringYield(name) + (mid + ([COLON] + (lead + (Yield(value) + w))))
    decreases |u|, 1
  {
    name := StringSound(u);
    mid := SkipSplits(u[n + 2..]);
    lead, value := ValueSound(v[1..], depth + 1);
    PairChain(StringYield(name), mid, lead, Yield(value), w, u, u[n + 2..], v);
  }

  /** The pieces of one member, up to the text after its value. */
  lemma {:induction false} PairSound(t: Text, depth: nat)
    returns (pre: Text, name: seq<StringChar>, mid: Text, lead: Text, value: Tree)
    requires Pair(t, depth).Some?
    ensures Blank(pre) && CharsDerive(name) && Blank(mid) && Blank(lead) && Derives(value) && NamesDistinct(value)
    ensures depth + 1 + Depth(value) <= MAX_JSON_DEPTH && Meaning(name) == Pair(t, depth).value.0
    ensures t == pre + (StringYield(name) + (mid + ([COLON] + (lead + (Yield(value) + Pair(t, depth).value.1)))))
    decreases |t|, 2
  {
    pre := SkipSplits(t);
    var u := Skip(t);
    var n := BodyLength(u[1..]).value;
    name, mid, lead, value := NameAndValueSound(u, n, Skip(u[n + 2..]), Pair(t, depth).value.1, depth);
  }

  lemma PairChain(name: Text, mid: Text, lead: Text, value: Text, w: Text, u: Text, after: Text, v: Text)
    requires u == name + after && after == mid + v && Begins(v, COLON) && v[1..] == lead + (value + w)
    ensures u == name + (mid + ([COLON] + (lead + (value + w))))
  {
    assert v == [COLON] + v[1..];
  }

  lemma {:induction false} ObjectSound(t: Text, depth: nat, seen: set<Text>) returns (members: Members)
    requires ObjectRest(t, depth, seen).Some?
    ensures members.Member? && MembersDerive(members) && MembersDistinct(members, seen)
    ensures depth + MembersDepth(members) <= MAX_JSON_DEPTH
    ensures t == MembersYield(members) + ([CLOSE_BRACE] + ObjectRest(t, depth, seen).value)
    decreases |t|, 3
  {
    var pre, name, mid, lead, value := PairSound(t, depth);
    var w := Pair(t, depth).value.1;
    var post := SkipSplits(w);
    var x := Skip(w);
    var more := NoMembers;
    if !Begins(x, CLOSE_BRACE) {
      more := ObjectSound(x[1..], depth, seen + {Meaning(name)});
    }
    members := Member(pre, name, mid, lead, value, post, more);
    var end := [CLOSE_BRACE] + ObjectRest(t, depth, seen).value;
    assert x == [x[0]] + x[1..];
    MemberChain(members, end, w, x);
  }

  lemma MemberChain(members: Members, end: Text, w: Text, x: Text)
    requires members.Member? && w == members.post + x
    requires x == if members.more.NoMembers? then end else [COMMA] + (MembersYield(members.more) + end)
    ensures
      members.pre
        + (StringYield(members.name) + (members.mid + ([COLON] + (members.lead + (Yield(members.value) + w)))))
      == MembersYield(members) + end
  {
    var tail := if members.more.NoMembers? then [] else [COMMA] + MembersYield(members.more);
    assert x == tail + end;
    Regroup3(members.post, tail, end);
    Regroup7(members.pre, StringYield(members.name), members.mid, [COLON], members.lead, Yield(members.value),
      members.post + tail, end);
    Regroup3(members.pre + StringYield(members.name) + members.mid + [COLON] + members.lead + Yield(members.value),
      members.post, tail);
  }

  /** The recogniser accepts nothing but the language. */
  lemma Sound(source: Text)
    requires Accepts(source)
    ensures InLanguage(source)
  {
    var pre, tree := ValueSound(source, 0);
    var post := SkipSplits(Value(source, 0).value);
    assert post == Value(source, 0).value;
    Regroup3(pre, Yield(tree), post);
  }
}
