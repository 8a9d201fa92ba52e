/** The glob relation and the three matchers of the repository. */
module Glob {

  /** One pattern character against one piece of the value. */
  predicate Fits(c: char, piece: string) {
    if c == '*' then true
    else if c == '?' then |piece| == 1
    else piece == [c]
  }

  function Flatten(pieces: seq<string>): string {
    if pieces == [] then "" else pieces[0] + Flatten(pieces[1..])
  }

  /** The pieces fit the pattern character by character. */
  predicate AllFit(pattern: string, pieces: seq<string>) {
    |pieces| == |pattern| && forall i :: 0 <= i < |pattern| ==> Fits(pattern[i], pieces[i])
  }

  /** `pieces` cuts `value` into one piece for each pattern character. */
  ghost predicate IsCut(pattern: string, value: string, pieces: seq<string>) {
    Flatten(pieces) == value && AllFit(pattern, pieces)
  }

  /** The glob relation, by cases on the pattern. `CutMeansMatch` and `MatchHasCut` below say that
      it holds exactly when the value can be cut along the pattern. */
  predicate Matches(pattern: string, value: string)
    decreases |pattern| + |value|
  {
    if pattern == "" then value == ""
    else if pattern[0] == '*' then
      Matches(pattern[1..], value) || (value != "" && Matches(pattern, value[1..]))
    else
      value != "" && (pattern[0] == '?' || pattern[0] == value[0]) && Matches(pattern[1..], value[1..])
  }

  lemma {:induction false} MatchHasCut(pattern: string, value: string) returns (pieces: seq<string>)
    requires Matches(pattern, value)
    ensures IsCut(pattern, value, pieces)
    decreases |pattern| + |value|
  {
    if pattern == "" {
      pieces := [];
    } else if pattern[0] == '*' && !Matches(pattern[1..], value) {
      var p := MatchHasCut(pattern, value[1..]);
      pieces := [[value[0]] + p[0]] + p[1..];
      assert Flatten(pieces) == [value[0]] + (p[0] + Flatten(p[1..]));
    } else {
      var k := if pattern[0] == '*' then 0 else 1;
      var p := MatchHasCut(pattern[1..], value[k..]);
      pieces := [value[..k]] + p;
      assert Flatten(pieces) == value[..k] + Flatten(p);
    }
  }

  lemma {:induction false} CutMeansMatch(pattern: string, value: string, pieces: seq<string>)
    requires IsCut(pattern, value, pieces)
    ensures Matches(pattern, value)
    decreases |pattern| + |value|
  {
    if pattern != "" {
      var rest := pieces[1..];
      if pattern[0] == '*' && pieces[0] != "" {
        var shorter := [pieces[0][1..]] + rest;
        assert shorter[1..] == rest;
        assert value[1..] == pieces[0][1..] + Flatten(rest);
        CutMeansMatch(pattern, value[1..], shorter);
      } else {
        assert value[|pieces[0]|..] == Flatten(rest);
        CutMeansMatch(pattern[1..], value[|pieces[0]|..], rest);
      }
    }
  }

  /** The relation is "some cut of the value fits the pattern character by character". */
  lemma MatchesIffCut(pattern: string, value: string)
    ensures Matches(pattern, value) <==> exists pieces :: IsCut(pattern, value, pieces)
  {
    if Matches(pattern, value) {
      var pieces := MatchHasCut(pattern, value);
    }
    if pieces :| IsCut(pattern, value, pieces) {
      CutMeansMatch(pattern, value, pieces);
    }
  }

  /** What the star branch of every matcher computes. */
  ghost predicate SomeSuffix(pattern: string, value: string) {
    exists i :: 0 <= i <= |value| && Matches(pattern, value[i..])
  }

  lemma {:induction false} StarIsSomeSuffix(rest: string, value: string)
    ensures Matches("*" + rest, value) <==> SomeSuffix(rest, value)
    decreases |value|
  {
    assert ("*" + rest)[1..] == rest;
    assert value[0..] == value;
    if value != "" {
      StarIsSomeSuffix(rest, value[1..]);
      if SomeSuffix(rest, value[1..]) {
        var i :| 0 <= i <= |value[1..]| && Matches(rest, value[1..][i..]);
        assert value[1..][i..] == value[i + 1..];
      }
      if SomeSuffix(rest, value) && !Matches(rest, value) {
        var i :| 0 <= i <= |value| && Matches(rest, value[i..]);
        assert value[1..][i - 1..] == value[i..];
      }
    }
  }

  lemma StarStar(rest: string, value: string)
    ensures Matches("**" + rest, value) == Matches("*" + rest, value)
  {
    StarIsSomeSuffix("*" + rest, value);
    StarIsSomeSuffix(rest, value);
    assert "*" + ("*" + rest) == "**" + rest;
    assert value[0..] == value;
    if SomeSuffix("*" + rest, value) {
      var i :| 0 <= i <= |value| && Matches("*" + rest, value[i..]);
      StarIsSomeSuffix(rest, value[i..]);
      var j :| 0 <= j <= |value[i..]| && Matches(rest, value[i..][j..]);
      assert value[i..][j..] == value[i + j..];
    }
  }

  lemma AllFitConcat(p: string, q: string, a: seq<string>, b: seq<string>)
    requires |a| == |p| && |b| == |q| && AllFit(p + q, a + b)
    ensures AllFit(p, a) && AllFit(q, b)
  {
    var pq, ab := p + q, a + b;
    assert forall k :: 0 <= k < |p| ==> pq[k] == p[k] && ab[k] == a[k];
    assert pq[|p|..] == q && ab[|a|..] == b;
    forall k | 0 <= k < |q| ensures Fits(q[k], b[k]) {
      assert pq[|p|..][k] == pq[|p| + k] && ab[|a|..][k] == ab[|a| + k];
    }
  }

  lemma CutOfConcat(p: string, q: string, value: string, a: seq<string>, b: seq<string>)
    requires |a| == |p| && |b| == |q|
    requires IsCut(p + q, value, a + b)
    ensures IsCut(p, Flatten(a), a) && IsCut(q, Flatten(b), b) && value == Flatten(a) + Flatten(b)
  {
    FlattenAppend(a, b);
    AllFitConcat(p, q, a, b);
  }

  lemma SplitMatch(p: string, q: string, value: string) returns (i: nat)
    requires Matches(p + q, value)
    ensures i <= |value| && Matches(p, value[..i]) && Matches(q, value[i..])
  {
    var pieces := MatchHasCut(p + q, value);
    var a, b := pieces[..|p|], pieces[|p|..];
    assert a + b == pieces;
    CutOfConcat(p, q, value, a, b);
    i := |Flatten(a)|;
    assert value[..i] == Flatten(a) && value[i..] == Flatten(b);
    CutMeansMatch(p, value[..i], a);
    CutMeansMatch(q, value[i..], b);
  }

  lemma JoinMatches(p: string, q: string, u: string, v: string)
    requires Matches(p, u) && Matches(q, v)
    ensures Matches(p + q, u + v)
  {
    var a := MatchHasCut(p, u);
    var b := MatchHasCut(q, v);
    FlattenAppend(a, b);
    CutMeansMatch(p + q, u + v, a + b);
  }

  /** A pattern that is a concatenation matches exactly the concatenations of matches. */
  lemma ConcatIff(p: string, q: string, value: string)
    ensures Matches(p + q, value) <==>
            exists i :: 0 <= i <= |value| && Matches(p, value[..i]) && Matches(q, value[i..])
  {
    if Matches(p + q, value) {
      var i := SplitMatch(p, q, value);
    }
    if i :| 0 <= i <= |value| && Matches(p, value[..i]) && Matches(q, value[i..]) {
      JoinMatches(p, q, value[..i], value[i..]);
      assert value[..i] + value[i..] == value;
    }
  }

  lemma {:induction false} FlattenAppend(a: seq<string>, b: seq<string>)
    ensures Flatten(a + b) == Flatten(a) + Flatten(b)
  {
    if a == [] {
      assert a + b == b;
    } else {
      var first, rest, last := a[0], Flatten(a[1..]), Flatten(b);
      calc {
        Flatten(a + b);
        { assert (a + b)[0] == first && (a + b)[1..] == a[1..] + b; }
        first + Flatten(a[1..] + b);
        { FlattenAppend(a[1..], b); }
        first + (rest + last);
        { assert first + (rest + last) == (first + rest) + last; }
        Flatten(a) + Flatten(b);
      }
    }
  }

  /** Runs of stars written as one star. */
  function Collapse(p: string): string {
    if |p| < 2 then p
    else if p[0] == '*' && p[1] == '*' then Collapse(p[1..])
    else [p[0]] + Collapse(p[1..])
  }

  lemma {:induction false} CollapseKeepsMeaning(p: string, value: string)
    ensures Matches(Collapse(p), value) == Matches(p, value)
    decreases |p|
  {
    if |p| < 2 {
    } else if p[0] == '*' && p[1] == '*' {
      StarStar(p[2..], value);
      assert p == "**" + p[2..] && p[1..] == "*" + p[2..];
      CollapseKeepsMeaning(p[1..], value);
    } else if p[0] == '*' {
      forall i | 0 <= i <= |value|
        ensures Matches(Collapse(p[1..]), value[i..]) == Matches(p[1..], value[i..])
      {
        CollapseKeepsMeaning(p[1..], value[i..]);
      }
      StarIsSomeSuffix(p[1..], value);
      StarIsSomeSuffix(Collapse(p[1..]), value);
      assert p == "*" + p[1..] && Collapse(p) == "*" + Collapse(p[1..]);
    } else {
      assert Collapse(p)[1..] == Collapse(p[1..]);
      if value != "" {
        CollapseKeepsMeaning(p[1..], value[1..]);
      }
    }
  }

  predicate Literal(p: string) {
    '*' !in p && '?' !in p
  }

  /** A pattern without wildcards matches itself only. */
  lemma {:induction false} LiteralMatchesItself(p: string, value: string)
    requires Literal(p)
    ensures Matches(p, value) <==> p == value
    decreases |p|
  {
    if p != "" && value != "" {
      LiteralMatchesItself(p[1..], value[1..]);
      assert p == [p[0]] + p[1..] && value == [value[0]] + value[1..];
    }
  }

  lemma StarFirst(p: string)
    requires p != "" && p[0] == '*'
    ensures p == "*" + p[1..]
  {
  }

  /** Swallowing one more star of a run. */
  lemma StarRun(p: string, value: string)
    requires p != "" && p[0] == '*'
    ensures Matches("*" + p, value) == Matches("*" + p[1..], value)
  {
    StarStar(p[1..], value);
    assert "*" + p == "**" + p[1..];
  }

  lemma TrailingStar(value: string)
    ensures SomeSuffix("", value)
  {
    assert value[|value|..] == "";
  }

  /** sshconfig.matchPattern: swallows a whole run of stars, then tries every suffix. */
  method MatchPattern(pattern: string, value: string) returns (r: bool)
    ensures r == Matches(pattern, value)
    decreases |pattern|
  {
    var p, v := pattern, value;
    while |p| > 0
      invariant |p| <= |pattern|
      invariant Matches(p, v) == Matches(pattern, value)
    {
      if p[0] == '*' {
        StarFirst(p);
        p := p[1..];
        while |p| > 0 && p[0] == '*'
          invariant |p| < |pattern|
          invariant Matches("*" + p, v) == Matches(pattern, value)
        {
          StarRun(p, v);
          p := p[1..];
        }
        StarIsSomeSuffix(p, v);
        if |p| == 0 {
          TrailingStar(v);
          return true;
        }
        for i := 0 to |v| + 1
          invariant forall k :: 0 <= k < i ==> !Matches(p, v[k..])
        {
          var hit := MatchPattern(p, v[i..]);
          if hit { return true; }
        }
        return false;
      } else {
        if |v| == 0 || (p[0] != '?' && p[0] != v[0]) { return false; }
        p, v := p[1..], v[1..];
      }
    }
    return |v| == 0;
  }

  /** session.MatchGlob: drops one star at a time and leaves the others to the recursive calls. */
  method MatchGlob(pattern: string, value: string) returns (r: bool)
    ensures r == Matches(pattern, value)
    decreases |pattern|
  {
    var p, v := pattern, value;
    while |p| > 0
      invariant |p| <= |pattern|
      invariant Matches(p, v) == Matches(pattern, value)
    {
      if p[0] == '*' {
        StarFirst(p);
        p := p[1..];
        StarIsSomeSuffix(p, v);
        if p == "" {
          TrailingStar(v);
          return true;
        }
        for i := 0 to |v| + 1
          invariant forall k :: 0 <= k < i ==> !Matches(p, v[k..])
        {
          var hit := MatchGlob(p, v[i..]);
          if hit { return true; }
        }
        return false;
      } else {
        if |v| == 0 || (p[0] != '?' && p[0] != v[0]) { return false; }
        p, v := p[1..], v[1..];
      }
    }
    return |v| == 0;
  }

  /** sshserver.matchEnvPattern, written a third time over names. */
  method MatchEnvPattern(pattern: string, name: string) returns (r: bool)
    ensures r == Matches(pattern, name)
    decreases |pattern|
  {
    var p, v := pattern, name;
    while |p| > 0
      invariant |p| <= |pattern|
      invariant Matches(p, v) == Matches(pattern, name)
    {
      if p[0] == '*' {
        StarFirst(p);
        p := p[1..];
        while |p| > 0 && p[0] == '*'
          invariant |p| < |pattern|
          invariant Matches("*" + p, v) == Matches(pattern, name)
        {
          StarRun(p, v);
          p := p[1..];
        }
        StarIsSomeSuffix(p, v);
        if |p| == 0 {
          TrailingStar(v);
          return true;
        }
        var i := 0;
        while i <= |v|
          invariant 0 <= i <= |v| + 1
          invariant forall k :: 0 <= k < i ==> !Matches(p, v[k..])
        {
          var hit := MatchEnvPattern(p, v[i..]);
          if hit { return true; }
          i := i + 1;
        }
        return false;
      } else {
        if |v| == 0 || (p[0] != '?' && p[0] != v[0]) { return false; }
        p, v := p[1..], v[1..];
      }
    }
    return |v| == 0;
  }
}
