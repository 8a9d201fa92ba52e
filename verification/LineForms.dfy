/** The forms in which one configuration line can be written. */
module LineForms {
  import opened Text
  import opened Criteria
  import opened Lines

  // ---- comments ----

  function Quotes(s: string): nat {
    if s == "" then 0 else (if s[0] == '"' then 1 else 0) + Quotes(s[1..])
  }

  lemma QuotesOfPrefix(c: char, rest: string, i: nat)
    requires i <= |rest|
    ensures Quotes(([c] + rest)[..i + 1]) == (if c == '"' then 1 else 0) + Quotes(rest[..i])
  {
    assert ([c] + rest)[..i + 1] == [c] + rest[..i];
    assert ([c] + rest[..i])[1..] == rest[..i];
  }

  /** Position `i` is outside double quotes. */
  predicate Outside(s: string, i: nat)
    requires i <= |s|
  {
    Quotes(s[..i]) % 2 == 0
  }

  /** No '#' stands where it would begin a comment; `flip` when the text starts within quotes. */
  predicate NoMark(s: string, flip: bool) {
    forall i :: 0 <= i < |s| && s[i] == '#' ==> Outside(s, i) == flip
  }

  lemma NoMarkRest(s: string, flip: bool)
    requires s != "" && NoMark(s, flip)
    ensures NoMark(s[1..], if s[0] == '"' then !flip else flip)
    ensures s[0] == '#' ==> flip
  {
    var c, rest := s[0], s[1..];
    assert s == [c] + rest;
    forall i | 0 <= i < |rest| && rest[i] == '#'
      ensures Outside(rest, i) == (if c == '"' then !flip else flip)
    {
      QuotesOfPrefix(c, rest, i);
      assert s[i + 1] == '#' && Outside(s, i + 1) == flip;
    }
    if c == '#' { assert s[..0] == "" && Outside(s, 0); }
  }

  /** Text without a comment mark is kept, and what follows is read with the quotes it leaves open. */
  lemma {:induction false} UncommentedFront(a: string, rest: string, inQuote: bool)
    requires NoMark(a, inQuote)
    ensures Uncommented(a + rest, inQuote) == a + Uncommented(rest, (Quotes(a) % 2 == 1) != inQuote)
    decreases |a|
  {
    if a == "" {
      assert a + rest == rest && a + Uncommented(rest, inQuote) == Uncommented(rest, inQuote);
    } else {
      NoMarkRest(a, inQuote);
      assert (a + rest)[0] == a[0] && (a + rest)[1..] == a[1..] + rest;
      UncommentedFront(a[1..], rest, if a[0] == '"' then !inQuote else inQuote);
      ConsKeeps(a, Uncommented(rest, (Quotes(a) % 2 == 1) != inQuote));
    }
  }

  lemma ConsKeeps(a: string, rest: string)
    requires a != ""
    ensures [a[0]] + (a[1..] + rest) == a + rest
  {
  }

  /** A '#' outside double quotes and everything behind it are cut off: a line means what it means
      without its comment. */
  lemma CommentIsCut(a: string, c: string)
    requires NoMark(a, false) && Quotes(a) % 2 == 0
    ensures Uncommented(a + ("#" + c), false) == a == Uncommented(a, false)
    ensures Classify(a + ("#" + c)) == Classify(a)
  {
    UncommentedFront(a, "#" + c, false);
    UncommentedFront(a, "", false);
    assert a + "" == a;
  }

  /** Inside double quotes it is kept. */
  lemma QuotedMarkIsKept(a: string, b: string)
    requires NoMark(a, false) && Quotes(a) % 2 == 1 && NoMark(b, true)
    ensures Uncommented(a + ("#" + b), false) == a + ("#" + b)
  {
    UncommentedFront(a, "#" + b, false);
    UncommentedFront(b, "", true);
    assert b + "" == b && ("#" + b)[1..] == b;
  }

  /** A line that is only a comment, or only white space, does nothing; no other line does. */
  lemma NothingIff(line: string)
    ensures Classify(line) == Nothing <==> AllSpace(Uncommented(line, false))
  {
    TrimmedToNothingIff(Uncommented(line, false));
  }

  lemma CommentLineIsNothing(indent: string, c: string)
    requires AllSpace(indent)
    ensures Classify(indent + ("#" + c)) == Nothing
  {
    SpaceHasNoMark(indent);
    CommentIsCut(indent, c);
    NothingIff(indent);
  }

  lemma {:induction false} SpaceHasNoMark(w: string)
    requires AllSpace(w)
    ensures NoMark(w, false) && NoMark(w, true) && Quotes(w) == 0
  {
    if w != "" { SpaceHasNoMark(w[1..]); }
  }

  // ---- white space ----

  /** Indentation, and white space at the end of a line, make no difference. */
  lemma MarginsDoNotMatter(w: string, line: string, v: string)
    requires AllSpace(w) && AllSpace(v)
    ensures NoMark(line, false) && Quotes(line) % 2 == 0 ==> Classify(w + (line + v)) == Classify(line)
    ensures Classify(w + line) == Classify(line)
  {
    SpaceHasNoMark(w);
    UncommentedFront(w, line + v, false);
    UncommentedFront(w, line, false);
    if NoMark(line, false) && Quotes(line) % 2 == 0 {
      SpaceHasNoMark(v);
      UncommentedFront(line, v, false);
      UncommentedFront(v, "", false);
      UncommentedFront(line, "", false);
      assert v + "" == v && line + "" == line;
      TrimSpaceOf(w, line, v);
    }
    var text := Uncommented(line, false);
    assert text + "" == text;
    TrimSpaceOf(w, text, "");
  }

  // ---- keyword, separator, value ----

  lemma {:induction false} TrimRightKeeps(k: string, rest: string)
    requires k != "" && !IsSpace(k[|k| - 1])
    ensures TrimRight(k + rest) == k + TrimRight(rest)
    decreases |rest|
  {
    var s := k + rest;
    if rest == "" {
      assert s == k && k + TrimRight(rest) == k;
    } else {
      assert s[|s| - 1] == rest[|rest| - 1];
      assert s[..|s| - 1] == k + rest[..|rest| - 1];
      if IsSpace(rest[|rest| - 1]) { TrimRightKeeps(k, rest[..|rest| - 1]); }
    }
  }

  lemma {:induction false} TrimRightIsPrefix(s: string)
    ensures TrimRight(s) <= s
  {
    if s != "" && IsSpace(s[|s| - 1]) { TrimRightIsPrefix(s[..|s| - 1]); }
  }

  lemma ConsPrefix(s: string, u: string)
    requires s != "" && u <= s[1..]
    ensures [s[0]] + u <= s
  {
    assert s == [s[0]] + s[1..];
  }

  lemma {:induction false} UncommentedIsPrefix(s: string, inQuote: bool)
    ensures Uncommented(s, inQuote) <= s
  {
    if s != "" {
      var next := if s[0] == '"' then !inQuote else inQuote;
      UncommentedIsPrefix(s[1..], next);
      ConsPrefix(s, Uncommented(s[1..], next));
    }
  }

  /** Where a keyword ends: at the end of the line, or at a blank or '='. */
  predicate Separates(rest: string) {
    rest == "" || rest[0] in {' ', '\t', '='}
  }

  /** A line is its keyword and the rest, without comment and white space at the end. */
  lemma LineIs(k: string, rest: string)
    requires PlainWord(k) && Separates(rest)
    ensures Classify(k + rest) == Dispatch(k, Unquoted(AfterSeparator(TrimRight(Uncommented(rest, false)))))
  {
    var tail := Uncommented(rest, false);
    var y := TrimRight(tail);
    UncommentedWord(k, rest);
    TrimRightKeeps(k, tail);
    assert !IsSpace(k[0]) && (k + tail)[0] == k[0];
    assert TrimSpace(k + tail) == k + y;
    TrimRightIsPrefix(tail);
    UncommentedIsPrefix(rest, false);
    KeywordEnds(k, y);
    assert (k + y)[|k|..] == y;
    assert k + y != "";
  }

  lemma KeywordEnds(k: string, y: string)
    requires PlainWord(k) && Separates(y)
    ensures KeywordOf(k + y) == k
  {
    if y == "" {
      assert k + y == k;
      KeywordAlone(k);
    } else {
      KeywordOfWord(k, y);
    }
  }

  lemma {:induction false} KeywordAlone(k: string)
    requires forall i :: 0 <= i < |k| ==> !EndsKeyword(k[i])
    ensures KeywordOf(k) == k
  {
    if k != "" { KeywordAlone(k[1..]); }
  }

  predicate AllBlank(s: string) {
    forall i :: 0 <= i < |s| ==> s[i] == ' ' || s[i] == '\t'
  }

  lemma {:induction false} SkipBlanksOf(b: string, rest: string)
    requires AllBlank(b)
    ensures SkipBlanks(b + rest) == SkipBlanks(rest)
  {
    if b == "" {
      assert b + rest == rest;
    } else {
      assert (b + rest)[1..] == b[1..] + rest;
      SkipBlanksOf(b[1..], rest);
    }
  }

  /** A value as it stands in a line: nothing to trim at either end, and no comment mark. */
  predicate RawValue(v: string) {
    v != "" && !IsSpace(v[0]) && !IsSpace(v[|v| - 1]) && NoMark(v, false)
  }

  lemma BlanksHaveNoMark(b: string)
    requires AllBlank(b)
    ensures NoMark(b, false) && Quotes(b) == 0 && AllSpace(b)
  {
    assert AllSpace(b);
    SpaceHasNoMark(b);
  }

  lemma UncommentedValue(v: string)
    requires NoMark(v, false)
    ensures Uncommented(v, false) == v
  {
    UncommentedFront(v, "", false);
    assert v + "" == v;
  }

  /** Nothing of a rest that ends tight is cut off. */
  lemma RestIsKept(b: string, r: string)
    requires AllBlank(b) && r != "" && !IsSpace(r[|r| - 1]) && NoMark(r, false)
    ensures TrimRight(Uncommented(b + r, false)) == b + r
  {
    BlanksHaveNoMark(b);
    UncommentedFront(b, r, false);
    UncommentedValue(r);
    assert (b + r)[|b + r| - 1] == r[|r| - 1];
  }

  /** keyword, blanks, value. */
  lemma BlankSeparated(k: string, b: string, v: string)
    requires PlainWord(k) && b != "" && AllBlank(b) && RawValue(v) && v[0] != '='
    ensures Classify(k + (b + v)) == Dispatch(k, Unquoted(v))
  {
    LineIs(k, b + v);
    RestIsKept(b, v);
    SkipBlanksOf(b, v);
  }

  lemma EqualsSkipped(b: string, c: string, v: string)
    requires AllBlank(b) && AllBlank(c) && v != "" && !IsBlank(v[0])
    ensures AfterSeparator(b + ("=" + (c + v))) == v
  {
    var behind := "=" + (c + v);
    SkipBlanksOf(b, behind);
    assert behind[1..] == c + v;
    SkipBlanksOf(c, v);
  }

  lemma EqualsHasNoMark(c: string, v: string)
    requires AllBlank(c) && NoMark(v, false)
    ensures NoMark("=" + (c + v), false)
  {
    var behind := "=" + (c + v);
    BlanksHaveNoMark(c);
    UncommentedFront(c, v, false);
    UncommentedValue(v);
    UncommentedWord("=", c + v);
    KeptHasNoMark(behind, false);
  }

  /** Only text without a comment mark is kept as a whole. */
  lemma {:induction false} KeptHasNoMark(s: string, inQuote: bool)
    requires Uncommented(s, inQuote) == s
    ensures NoMark(s, inQuote)
    decreases |s|
  {
    if s != "" {
      var next := if s[0] == '"' then !inQuote else inQuote;
      assert s[1..] == Uncommented(s, inQuote)[1..] == Uncommented(s[1..], next);
      KeptHasNoMark(s[1..], next);
      NoMarkFront(s, inQuote);
    }
  }

  lemma NoMarkFront(s: string, flip: bool)
    requires s != "" && NoMark(s[1..], if s[0] == '"' then !flip else flip) && (s[0] == '#' ==> flip)
    ensures NoMark(s, flip)
  {
    var c, rest := s[0], s[1..];
    assert s == [c] + rest;
    forall i | 0 <= i < |s| && s[i] == '#' ensures Outside(s, i) == flip {
      if i == 0 {
        assert s[..0] == "";
      } else {
        QuotesOfPrefix(c, rest, i - 1);
        assert rest[i - 1] == '#';
      }
    }
  }

  /** keyword, '=', value, with any blanks around the '='. */
  lemma EqualsSeparated(k: string, b: string, c: string, v: string)
    requires PlainWord(k) && AllBlank(b) && AllBlank(c) && RawValue(v)
    ensures Classify(k + (b + ("=" + (c + v)))) == Dispatch(k, Unquoted(v))
  {
    var behind := "=" + (c + v);
    assert Separates(b + behind);
    LineIs(k, b + behind);
    EqualsHasNoMark(c, v);
    assert behind[|behind| - 1] == v[|v| - 1];
    RestIsKept(b, behind);
    EqualsSkipped(b, c, v);
  }

  /** A keyword alone has the empty value. */
  lemma KeywordOnly(k: string)
    requires PlainWord(k)
    ensures Classify(k) == Dispatch(k, "")
  {
    LineIs(k, "");
    assert k + "" == k;
  }

  /** The case of a keyword makes no difference where it has a meaning for the parser. */
  lemma CaseDoesNotMatter(k: string, l: string, rest: string)
    requires PlainWord(k) && PlainWord(l) && ToLower(k) == ToLower(l) && Separates(rest)
    ensures match Classify(k + rest)
            case Setting(keyword, value) => keyword == k && Classify(l + rest) == Setting(l, value)
            case kind => Classify(l + rest) == kind
  {
    LineIs(k, rest);
    LineIs(l, rest);
  }

  lemma PlainDispatch(k: string, v: string)
    ensures ToLower(k) == "host" ==> Dispatch(k, v).Block?
    ensures ToLower(k) == "include" ==> Dispatch(k, v) == Include(v)
    ensures ToLower(k) !in {"host", "match", "include"} ==> Dispatch(k, v) == Setting(k, v)
  {
  }

  /** The only lines without a keyword are those that start with '='. */
  lemma NoKeywordIff(line: string)
    ensures var t := TrimSpace(Uncommented(line, false));
            Classify(line) == NoKeyword <==> t != "" && t[0] == '='
  {
    TrimSpaceIsTight(Uncommented(line, false));
  }
}
