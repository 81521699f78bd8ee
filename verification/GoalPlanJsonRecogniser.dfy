/** The recogniser as the goal-plan front end runs it: a moving `index` over the source text.
    A thrown error is a `false` result; the text is then abandoned. */
module GoalPlanJsonRecogniser {
  import opened Prelude
  import opened GoalPlanJson
  import opened GoalPlanJsonCompleteness

  lemma DropDrop(s: Text, i: nat, k: nat)
    requires i + k <= |s|
    ensures s[i..][k..] == s[i + k..]
  {}

  /** A literal or the longest match of the number expression. */
  function WordLength(u: Text): (length: nat)
    requires u != [] && u[0] != QUOTE
    ensures length <= |u|
    ensures Scalar(u) == if length == 0 then None else Some(u[length..])
  {
    if TRUE <= u then 4 else if FALSE <= u then 5 else if NULL <= u then 4 else NumberLength(u)
  }

  lemma NothingUnread(source: Text)
    ensures BodyLength(source[|source|..]) == None
  {}

  lemma FurtherNothing(n: Option<nat>)
    ensures Further(0, n) == n
  {}

  lemma FurtherAdds(j: nat, k: nat, n: Option<nat>)
    ensures Further(j, Further(k, n)) == Further(j + k, n)
  {}

  /** How the length of a body depends on its first element. */
  lemma BodyUnfolds(t: Text)
    requires t != []
    ensures t[0] == QUOTE ==> BodyLength(t) == Some(0)
    ensures t[0] != QUOTE && ElementLength(t) == 0 ==> BodyLength(t) == None
    ensures t[0] != QUOTE && ElementLength(t) > 0
      ==> BodyLength(t) == Further(ElementLength(t), BodyLength(t[ElementLength(t)..]))
  {}

  /** Where the string scanner stops at `i`, the body ends there, or the scan fails; otherwise it
      goes on behind the element at `i`. */
  lemma ScanStep(s: Text, i: nat, j: nat)
    requires i < |s| && j == i + if s[i] == QUOTE then 0 else ElementLength(s[i..])
    ensures j == i ==> BodyLength(s[i..]) == if s[i] == QUOTE then Some(0) else None
    ensures j > i ==> j <= |s| && BodyLength(s[i..]) == Further(j - i, BodyLength(s[j..]))
  {
    BodyUnfolds(s[i..]);
    DropDrop(s, i, j - i);
  }

  lemma ScanEnd(s: Text, start: nat, end: nat)
    requires start < end < |s| && BodyLength(s[start + 1..]) == Some(end - start - 1)
    ensures var u := s[start..];
            && BodyLength(u[1..]) == Some(end - start - 1)
            && u[1..end - start] == s[start + 1..end] && u[end - start + 1..] == s[end + 1..]
  {
    DropDrop(s, start, 1);
    DropDrop(s, start, end - start + 1);
  }

  class Recogniser {
    const source: Text
    var index: nat

    ghost predicate Valid()
      reads this
    {
      index <= |source|
    }

    /** The text that is still unread. */
    ghost function Unread(): Text
      requires Valid()
      reads this
    {
      source[index..]
    }

    constructor (source: Text)
      ensures Valid() && this.source == source && Unread() == source
    {
      this.source := source;
      this.index := 0;
    }

    method SkipWhitespace()
      requires Valid()
      modifies this
      ensures Valid() && Unread() == Skip(old(Unread()))
    {
      while index < |source| && IsBlank(source[index])
        invariant Valid() && Skip(Unread()) == Skip(old(Unread()))
      {
        assert source[index..][1..] == source[index + 1..];
        index := index + 1;
      }
    }

    method ParseString() returns (ok: bool, name: Text)
      requires Valid()
      modifies this
      ensures Valid()
      ensures var u := old(Unread());
              && (ok <==> Begins(u, QUOTE) && BodyLength(u[1..]).Some?)
              && (ok ==> var n := BodyLength(u[1..]).value; name == Unescape(u[1..n + 1]) && Unread() == u[n + 2..])
    {
      name := [];
      var start := index;
      ok := Punctuation(QUOTE);
      if !ok {
        return false, name;
      }
      ok := ScanBody();
      if ok {
        ScanEnd(source, start, index);
        name := Unescape(source[start + 1..index]);
        index := index + 1;
      }
    }

    /** The body that begins at `start` has the length `goal`, as far as the unread text tells. */
    ghost predicate Towards(start: nat, goal: Option<nat>)
      reads this
    {
      start <= index <= |source| && goal == Further(index - start, BodyLength(Unread()))
    }

    /** The loop of the string scanner: it stops at the closing quote. */
    method ScanBody() returns (ok: bool)
      requires Valid()
      modifies this
      ensures Valid() && old(index) <= index
      ensures BodyLength(old(Unread())) == if ok then Some(index - old(index)) else None
      ensures ok ==> index < |source|
    {
      ghost var start, goal := index, BodyLength(Unread());
      FurtherNothing(goal);
      while index < |source|
        invariant Towards(start, goal)
        decreases |source| - index
      {
        var more := ScanTurn(start, goal);
        if !more {
          return source[index] == QUOTE;
        }
      }
      NothingUnread(source);
      return false;
    }

    /** A turn of that loop: it steps over one element, or stops. */
    method ScanTurn(ghost start: nat, ghost goal: Option<nat>) returns (more: bool)
      requires Towards(start, goal) && index < |source|
      modifies this
      ensures more ==> old(index) < index && Towards(start, goal)
      ensures !more ==> index == old(index)
      ensures !more ==> goal == if source[index] == QUOTE then Some(index - start) else None
    {
      var element := ScanElement();
      ghost var here := index;
      var next := index + element;
      ScanStep(source, index, next);
      index := next;
      FurtherAdds(here - start, index - here, BodyLength(Unread()));
      more := element > 0;
    }

    /** One character or one escape of a string; 0 at the closing quote and where the source throws. */
    method ScanElement() returns (length: nat)
      requires Valid() && index < |source|
      ensures length == if source[index] == QUOTE then 0 else ElementLength(Unread())
    {
      var character := source[index];
      if character == QUOTE {
        return 0;
      }
      if character == BACKSLASH {
        if index + 1 >= |source| {
          return 0;
        }
        var escape := source[index + 1];
        if escape == LETTER_U {
          if index + 6 > |source| || !(IsHex(source[index + 2]) && IsHex(source[index + 3])
                                       && IsHex(source[index + 4]) && IsHex(source[index + 5])) {
            return 0;
          }
          return 6;
        }
        return if IsEscape(escape) then 2 else 0;
      }
      return if character < 0x20 then 0 else 1;
    }

    /** Reads one expected punctuation mark. */
    method Punctuation(mark: CodeUnit) returns (found: bool)
      requires Valid()
      modifies this
      ensures Valid()
      ensures found <==> Begins(old(Unread()), mark)
      ensures Unread() == if found then old(Unread())[1..] else old(Unread())
    {
      found := index < |source| && source[index] == mark;
      if found {
        DropDrop(source, index, 1);
        index := index + 1;
      }
    }

    /** The object branch, after the opening brace. */
    method ParseObject(depth: nat) returns (ok: bool)
      requires Valid() && depth <= MAX_JSON_DEPTH
      modifies this
      ensures Valid()
      ensures ok <==> ObjectValue(old(Unread()), depth).Some?
      ensures ok ==> Unread() == ObjectValue(old(Unread()), depth).value
      decreases |source| - index, 2
    {
      ghost var goal := ObjectValue(Unread(), depth);
      ghost var before := |source| - index;
      SkipWhitespace();
      var keys: set<Text> := {};
      var empty := Punctuation(CLOSE_BRACE);
      if empty {
        return true;
      }
      while index < |source|
        invariant Valid() && |source| - index <= before
        invariant goal == ObjectRest(Unread(), depth, keys)
        decreases |source| - index
      {
        var read, key := ParsePair(depth);
        if !read || key in keys {
          return false;
        }
        keys := keys + {key};
        SkipWhitespace();
        var closed := Punctuation(CLOSE_BRACE);
        if closed {
          return true;
        }
        var separated := Punctuation(COMMA);
        if !separated {
          return false;
        }
      }
      return false;
    }

    /** One turn of the object loop, up to the end of the member's value. */
    method ParsePair(depth: nat) returns (ok: bool, key: Text)
      requires Valid()
      modifies this
      ensures Valid()
      ensures ok <==> Pair(old(Unread()), depth).Some?
      ensures ok ==> Pair(old(Unread()), depth) == Some((key, Unread()))
      decreases |source| - index, 1
    {
      SkipWhitespace();
      ok, key := ParseString();
      if !ok {
        return false, key;
      }
      SkipWhitespace();
      var colon := Punctuation(COLON);
      if !colon {
        return false, key;
      }
      ok := ParseValue(depth + 1);
    }

    /** The array branch, after the opening bracket. */
    method ParseArray(depth: nat) returns (ok: bool)
      requires Valid() && depth <= MAX_JSON_DEPTH
      modifies this
      ensures Valid()
      ensures ok <==> ArrayValue(old(Unread()), depth).Some?
      ensures ok ==> Unread() == ArrayValue(old(Unread()), depth).value
      decreases |source| - index, 2
    {
      ghost var goal := ArrayValue(Unread(), depth);
      ghost var before := |source| - index;
      SkipWhitespace();
      var empty := Punctuation(CLOSE_BRACKET);
      if empty {
        return true;
      }
      while index < |source|
        invariant Valid() && |source| - index <= before
        invariant goal == ArrayRest(Unread(), depth)
        decreases |source| - index
      {
        var read := ParseValue(depth + 1);
        if !read {
          return false;
        }
        SkipWhitespace();
        var closed := Punctuation(CLOSE_BRACKET);
        if closed {
          return true;
        }
        var separated := Punctuation(COMMA);
        if !separated {
          return false;
        }
      }
      return false;
    }

    /** A string, a literal or a number. */
    method ParseScalar() returns (ok: bool)
      requires Valid() && index < |source|
      modifies this
      ensures Valid()
      ensures ok <==> Scalar(old(Unread())).Some?
      ensures ok ==> Unread() == Scalar(old(Unread())).value
    {
      if source[index] == QUOTE {
        var scanned, _ := ParseString();
        return scanned;
      }
      var length := WordLength(source[index..]);
      if length == 0 {
        return false;
      }
      DropDrop(source, index, length);
      index := index + length;
      return true;
    }

    method ParseValue(depth: nat) returns (ok: bool)
      requires Valid()
      modifies this
      ensures Valid()
      ensures ok <==> Value(old(Unread()), depth).Some?
      ensures ok ==> Unread() == Value(old(Unread()), depth).value
      decreases |source| - index, 0
    {
      if depth > MAX_JSON_DEPTH {
        return false;
      }
      SkipWhitespace();
      if index >= |source| {
        return false;
      }
      var brace := Punctuation(OPEN_BRACE);
      if brace {
        ok := ParseObject(depth);
        return;
      }
      var bracket := Punctuation(OPEN_BRACKET);
      if bracket {
        ok := ParseArray(depth);
        return;
      }
      ok := ParseScalar();
    }
  }

  /** The whole recogniser: it returns normally on exactly the texts of the language. */
  method Recognise(source: Text) returns (ok: bool)
    ensures ok <==> InLanguage(source)
  {
    AcceptsExactlyTheLanguage(source);
    var r := new Recogniser(source);
    ok := r.ParseValue(0);
    if ok {
      r.SkipWhitespace();
      ok := r.index == |source|;
    }
  }
}
