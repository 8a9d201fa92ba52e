/** Algorithm lists: the operators on the defaults, and the restriction to supported names. */
module ListOp {
  import opened Text
  import opened Glob

  /** splitList: the non-empty trimmed pieces of a comma-separated list. */
  function NamesOf(pieces: seq<string>): seq<string> {
    if pieces == [] then []
    else if TrimSpace(pieces[0]) == "" then NamesOf(pieces[1..])
    else [TrimSpace(pieces[0])] + NamesOf(pieces[1..])
  }

  function Names(s: string): seq<string> {
    NamesOf(Split(s, ','))
  }

  predicate Distinct(s: seq<string>) {
    forall i, j :: 0 <= i < j < |s| ==> s[i] != s[j]
  }

  /** The names not yet seen, each once, in order of first appearance. */
  function Unseen(names: seq<string>, seen: set<string>): seq<string> {
    if names == [] then []
    else if names[0] in seen then Unseen(names[1..], seen)
    else [names[0]] + Unseen(names[1..], seen + {names[0]})
  }

  function SetOf(s: seq<string>): set<string> {
    set x | x in s
  }

  predicate MatchesAny(name: string, patterns: seq<string>) {
    exists i :: 0 <= i < |patterns| && Matches(patterns[i], name)
  }

  function Kept(names: seq<string>, removals: seq<string>): seq<string> {
    if names == [] then []
    else if MatchesAny(names[0], removals) then Kept(names[1..], removals)
    else [names[0]] + Kept(names[1..], removals)
  }

  /** ApplyListOp */
  function Applied(value: string, defaults: seq<string>): seq<string> {
    if value == "" then defaults
    else if value[0] == '+' then defaults + Unseen(Names(value[1..]), SetOf(defaults))
    else if value[0] == '-' then Kept(defaults, Names(value[1..]))
    else if value[0] == '^' then
      var front := Unseen(Names(value[1..]), {});
      front + Unseen(defaults, SetOf(front))
    else Names(value)
  }

  // ---- the loops ----

  method SplitList(s: string) returns (result: seq<string>)
    ensures result == Names(s)
  {
    var parts := Split(s, ',');
    result := [];
    assert parts[0..] == parts;
    for i := 0 to |parts|
      invariant Names(s) == result + NamesOf(parts[i..])
    {
      assert parts[i..][0] == parts[i] && parts[i..][1..] == parts[i + 1..];
      var p := TrimSpace(parts[i]);
      if p != "" {
        Assoc(result, [p], NamesOf(parts[i + 1..]));
        result := result + [p];
      }
    }
  }

  /** The loop shared by append and prepend: adds to `before` the names not seen, marking them. */
  method AddUnseen(before: seq<string>, names: seq<string>, marked: set<string>)
    returns (result: seq<string>, seen: set<string>)
    ensures result == before + Unseen(names, marked)
    ensures seen == marked + SetOf(Unseen(names, marked))
  {
    result, seen := before, marked;
    assert names[0..] == names;
    for i := 0 to |names|
      invariant before + Unseen(names, marked) == result + Unseen(names[i..], seen)
      invariant marked + SetOf(Unseen(names, marked)) == seen + SetOf(Unseen(names[i..], seen))
    {
      assert names[i..][0] == names[i] && names[i..][1..] == names[i + 1..];
      if names[i] !in seen {
        var rest := Unseen(names[i + 1..], seen + {names[i]});
        Assoc(result, [names[i]], rest);
        assert SetOf([names[i]] + rest) == {names[i]} + SetOf(rest);
        result := result + [names[i]];
        seen := seen + {names[i]};
      }
    }
  }

  method ApplyAppend(value: string, defaults: seq<string>) returns (result: seq<string>)
    ensures result == defaults + Unseen(Names(value), SetOf(defaults))
  {
    var additions := SplitList(value);
    var seen: set<string>;
    result, seen := AddUnseen(defaults, additions, SetOf(defaults));
  }

  method ApplyPrepend(value: string, defaults: seq<string>) returns (result: seq<string>)
    ensures result == Unseen(Names(value), {}) + Unseen(defaults, SetOf(Unseen(Names(value), {})))
  {
    var additions := SplitList(value);
    var seen: set<string>;
    result, seen := AddUnseen([], additions, {});
    assert result == Unseen(additions, {}) && seen == SetOf(result);
    result, seen := AddUnseen(result, defaults, seen);
  }

  method MatchesAnyPattern(name: string, patterns: seq<string>) returns (r: bool)
    ensures r == MatchesAny(name, patterns)
  {
    for i := 0 to |patterns|
      invariant forall k :: 0 <= k < i ==> !Matches(patterns[k], name)
    {
      var hit := MatchPattern(patterns[i], name);
      if hit { return true; }
    }
    return false;
  }

  method ApplyRemove(value: string, defaults: seq<string>) returns (result: seq<string>)
    ensures result == Kept(defaults, Names(value))
  {
    var removals := SplitList(value);
    result := [];
    assert defaults[0..] == defaults;
    for i := 0 to |defaults|
      invariant Kept(defaults, removals) == result + Kept(defaults[i..], removals)
    {
      assert defaults[i..][0] == defaults[i] && defaults[i..][1..] == defaults[i + 1..];
      var hit := MatchesAnyPattern(defaults[i], removals);
      if !hit {
        Assoc(result, [defaults[i]], Kept(defaults[i + 1..], removals));
        result := result + [defaults[i]];
      }
    }
  }

  method ApplyListOp(value: string, defaults: seq<string>) returns (result: seq<string>)
    ensures result == Applied(value, defaults)
  {
    if |value| == 0 { return defaults; }
    if value[0] == '+' {
      result := ApplyAppend(value[1..], defaults);
    } else if value[0] == '-' {
      result := ApplyRemove(value[1..], defaults);
    } else if value[0] == '^' {
      result := ApplyPrepend(value[1..], defaults);
    } else {
      result := SplitList(value);
    }
  }

  // ---- what the operators promise ----

  lemma {:induction false} UnseenFacts(names: seq<string>, seen: set<string>)
    ensures Distinct(Unseen(names, seen)) && Subsequence(Unseen(names, seen), names)
    ensures forall x :: x in Unseen(names, seen) <==> x in names && x !in seen
    decreases |names|
  {
    if names != [] {
      var x := names[0];
      assert forall y :: y in names <==> y == x || y in names[1..];
      if x in seen {
        UnseenFacts(names[1..], seen);
        var rest := Unseen(names[1..], seen);
        SkipOne(rest, names[1..], x);
        assert [x] + names[1..] == names;
      } else {
        UnseenFacts(names[1..], seen + {x});
        var rest := Unseen(names[1..], seen + {x});
        assert x !in rest;
        assert ([x] + rest)[1..] == rest;
      }
    }
  }

  /** On distinct names, Unseen only drops the seen ones: nothing is reordered or lost. */
  lemma {:induction false} UnseenKeeps(names: seq<string>, seen: set<string>, t: seq<string>)
    requires Distinct(names) && Subsequence(t, names) && forall x :: x in t ==> x !in seen
    ensures Subsequence(t, Unseen(names, seen))
    decreases |names|
  {
    if names != [] && t != [] {
      var x, rest := names[0], names[1..];
      assert Distinct(rest);
      var more := if x in seen then seen else seen + {x};
      if t[0] == x {
        SubsequenceMembers(t[1..], rest);
        assert x !in rest;
        UnseenKeeps(rest, more, t[1..]);
        assert ([x] + Unseen(rest, more))[1..] == Unseen(rest, more);
      } else {
        SubsequenceMembers(t, rest);
        assert x !in rest;
        UnseenKeeps(rest, more, t);
        if x !in seen { SkipOne(t, Unseen(rest, more), x); }
      }
    }
  }

  lemma {:induction false} SubsequenceMembers(a: seq<string>, b: seq<string>)
    requires Subsequence(a, b)
    ensures forall x :: x in a ==> x in b
    decreases |b|
  {
    if a != [] {
      assert forall x :: x in a <==> x == a[0] || x in a[1..];
      if a[0] == b[0] { SubsequenceMembers(a[1..], b[1..]); } else { SubsequenceMembers(a, b[1..]); }
    }
  }

  lemma DistinctConcat(a: seq<string>, b: seq<string>)
    requires Distinct(a) && Distinct(b) && forall x :: x in b ==> x !in a
    ensures Distinct(a + b)
    ensures (a + b)[|a|..] == b && a <= a + b
    ensures forall x :: x in a + b <==> x in a || x in b
  {
    forall i, j | 0 <= i < j < |a + b| ensures (a + b)[i] != (a + b)[j] {
      if i < |a| <= j { assert b[j - |a|] in b; }
    }
  }

  function FirstIndex(names: seq<string>, x: string): nat {
    if names == [] || names[0] == x then 0 else 1 + FirstIndex(names[1..], x)
  }

  /** The names stand in the order in which they first appear. */
  predicate InOrderOf(listed: seq<string>, names: seq<string>) {
    forall i, j :: 0 <= i < j < |listed| ==> FirstIndex(names, listed[i]) < FirstIndex(names, listed[j])
  }

  lemma {:induction false} UnseenInOrder(names: seq<string>, seen: set<string>)
    ensures InOrderOf(Unseen(names, seen), names)
    decreases |names|
  {
    if names != [] {
      var x, rest := names[0], names[1..];
      var more := if x in seen then seen else seen + {x};
      var behind := Unseen(rest, more);
      UnseenInOrder(rest, more);
      UnseenFacts(rest, more);
      forall i, j | 0 <= i < j < |behind| ensures FirstIndex(names, behind[i]) < FirstIndex(names, behind[j]) {
        assert behind[i] in behind && behind[j] in behind;
      }
      if x !in seen {
        var all := Unseen(names, seen);
        assert all == [x] + behind;
        forall i, j | 0 <= i < j < |all| ensures FirstIndex(names, all[i]) < FirstIndex(names, all[j]) {
          assert all[j] == behind[j - 1] && behind[j - 1] in behind;
          if i > 0 { assert all[i] == behind[i - 1]; }
        }
      }
    }
  }

  /** `+`: the defaults first and unchanged, then every further name once, in the order of first
      appearance. */
  lemma AppendLaw(value: string, defaults: seq<string>)
    requires Distinct(defaults)
    ensures var r := Applied("+" + value, defaults);
            && Distinct(r) && defaults <= r
            && (forall x :: x in r <==> x in defaults || x in Names(value))
            && Subsequence(r[|defaults|..], Names(value)) && InOrderOf(r[|defaults|..], Names(value))
  {
    assert ("+" + value)[1..] == value;
    UnseenInOrder(Names(value), SetOf(defaults));
    UnseenFacts(Names(value), SetOf(defaults));
    DistinctConcat(defaults, Unseen(Names(value), SetOf(defaults)));
  }

  lemma PrependIs(value: string, defaults: seq<string>)
    ensures var front := Unseen(Names(value), {});
            Applied("^" + value, defaults) == front + Unseen(defaults, SetOf(front))
  {
    assert ("^" + value)[0] == '^' && ("^" + value)[1..] == value;
  }

  /** `^`: the given names once each in the order of first appearance, then the other defaults in their
      order, none missing. */
  lemma PrependLaw(value: string, defaults: seq<string>)
    requires Distinct(defaults)
    ensures var r, front := Applied("^" + value, defaults), Unseen(Names(value), {});
            && Distinct(r) && front <= r
            && (forall x :: x in front <==> x in Names(value))
            && InOrderOf(front, Names(value)) && Subsequence(front, Names(value))
            && (forall x :: x in r <==> x in defaults || x in Names(value))
            && Subsequence(r[|front|..], defaults)
  {
    var front := Unseen(Names(value), {});
    PrependIs(value, defaults);
    UnseenInOrder(Names(value), {});
    UnseenFacts(Names(value), {});
    UnseenFacts(defaults, SetOf(front));
    DistinctConcat(front, Unseen(defaults, SetOf(front)));
  }

  /** What follows the names put in front is the largest subsequence of the defaults without them. */
  lemma PrependKeepsTheRest(value: string, defaults: seq<string>, t: seq<string>)
    requires Distinct(defaults) && Subsequence(t, defaults) && forall x :: x in t ==> x !in Names(value)
    ensures Subsequence(t, Applied("^" + value, defaults)[|Unseen(Names(value), {})|..])
  {
    assert ("^" + value)[1..] == value;
    var front := Unseen(Names(value), {});
    UnseenFacts(Names(value), {});
    UnseenKeeps(defaults, SetOf(front), t);
    assert (front + Unseen(defaults, SetOf(front)))[|front|..] == Unseen(defaults, SetOf(front));
  }

  lemma {:induction false} KeptFacts(names: seq<string>, removals: seq<string>)
    ensures Subsequence(Kept(names, removals), names)
    ensures forall x :: x in Kept(names, removals) <==> x in names && !MatchesAny(x, removals)
    ensures Distinct(names) ==> Distinct(Kept(names, removals))
  {
    if names != [] {
      var x, rest := names[0], Kept(names[1..], removals);
      KeptFacts(names[1..], removals);
      assert names == [x] + names[1..];
      if MatchesAny(x, removals) {
        SkipOne(rest, names[1..], x);
        assert Subsequence(rest, [x] + names[1..]);
      } else {
        assert ([x] + rest)[1..] == rest;
      }
    }
  }

  lemma {:induction false} KeptIsLargest(names: seq<string>, removals: seq<string>, t: seq<string>)
    requires Subsequence(t, names) && forall x :: x in t ==> !MatchesAny(x, removals)
    ensures Subsequence(t, Kept(names, removals))
    decreases |names|
  {
    if names != [] && t != [] {
      var x, rest := names[0], Kept(names[1..], removals);
      if t[0] == x {
        KeptIsLargest(names[1..], removals, t[1..]);
        assert ([x] + rest)[1..] == rest;
      } else {
        KeptIsLargest(names[1..], removals, t);
        if !MatchesAny(x, removals) { SkipOne(t, rest, x); }
      }
    }
  }

  /** `-`: the largest subsequence of the defaults that no removal pattern matches. */
  lemma RemoveLaw(value: string, defaults: seq<string>)
    requires Distinct(defaults)
    ensures var r := Applied("-" + value, defaults);
            && Distinct(r) && Subsequence(r, defaults)
            && (forall x :: x in r ==> !MatchesAny(x, Names(value)))
            && (forall t :: Subsequence(t, defaults) && (forall x :: x in t ==> !MatchesAny(x, Names(value)))
                  ==> Subsequence(t, r))
  {
    assert ("-" + value)[1..] == value;
    KeptFacts(defaults, Names(value));
    forall t | Subsequence(t, defaults) && forall x :: x in t ==> !MatchesAny(x, Names(value))
      ensures Subsequence(t, Kept(defaults, Names(value)))
    {
      KeptIsLargest(defaults, Names(value), t);
    }
  }

  predicate HasOperator(value: string) {
    value != "" && value[0] in {'+', '-', '^'}
  }

  /** The result has no duplicates exactly when there is an operator, no value at all, or a value that
      names nothing twice: a plain value is not deduplicated. */
  lemma ResultDistinctIff(value: string, defaults: seq<string>)
    requires Distinct(defaults)
    ensures Distinct(Applied(value, defaults)) <==> value == "" || HasOperator(value) || Distinct(Names(value))
  {
    if HasOperator(value) {
      assert value == [value[0]] + value[1..];
      if value[0] == '+' { AppendLaw(value[1..], defaults); }
      else if value[0] == '^' { PrependLaw(value[1..], defaults); }
      else { RemoveLaw(value[1..], defaults); }
    }
  }

  // ---- restriction to supported names ----

  predicate Wild(name: string) {
    '*' in name || '?' in name
  }

  /** The supported names a wildcard adds to those already listed. */
  function Expanded(pattern: string, supported: seq<string>, listed: seq<string>): seq<string>
    decreases |supported|
  {
    if supported == [] then listed
    else Expanded(pattern, supported[1..],
                  if Matches(pattern, supported[0]) && supported[0] !in listed then listed + [supported[0]] else listed)
  }

  /** filterSupported, behind the names already listed. */
  function Filtered(candidates: seq<string>, supported: seq<string>, listed: seq<string>): seq<string>
    decreases |candidates|
  {
    if candidates == [] then listed
    else Filtered(candidates[1..], supported,
                  if candidates[0] in supported then listed + [candidates[0]]
                  else if Wild(candidates[0]) then Expanded(candidates[0], supported, listed)
                  else listed)
  }

  method FilterSupported(candidates: seq<string>, supported: seq<string>) returns (result: seq<string>)
    ensures result == Filtered(candidates, supported, [])
  {
    var supportedSet := SetOf(supported);
    result := [];
    assert candidates[0..] == candidates;
    for i := 0 to |candidates|
      invariant Filtered(candidates, supported, []) == Filtered(candidates[i..], supported, result)
    {
      var c := candidates[i];
      assert candidates[i..][0] == c && candidates[i..][1..] == candidates[i + 1..];
      if c in supportedSet {
        result := result + [c];
      } else if Wild(c) {
        result := AddMatching(c, supported, result);
      }
    }
  }

  method AddMatching(pattern: string, supported: seq<string>, listed: seq<string>) returns (result: seq<string>)
    ensures result == Expanded(pattern, supported, listed)
  {
    result := listed;
    assert supported[0..] == supported;
    for i := 0 to |supported|
      invariant Expanded(pattern, supported, listed) == Expanded(pattern, supported[i..], result)
    {
      assert supported[i..][0] == supported[i] && supported[i..][1..] == supported[i + 1..];
      var hit := MatchPattern(pattern, supported[i]);
      if hit && supported[i] !in result {
        result := result + [supported[i]];
      }
    }
  }

  lemma {:induction false} ExpandedIsSupported(pattern: string, all: seq<string>, supported: seq<string>,
                                               listed: seq<string>)
    requires (forall x :: x in listed ==> x in all) && forall x :: x in supported ==> x in all
    ensures forall x :: x in Expanded(pattern, supported, listed) ==> x in all
    decreases |supported|
  {
    if supported != [] {
      assert supported[0] in all && forall x :: x in supported[1..] ==> x in supported;
      ExpandedIsSupported(pattern, all, supported[1..],
        if Matches(pattern, supported[0]) && supported[0] !in listed then listed + [supported[0]] else listed);
    }
  }

  /** Every name left is supported, wildcards included. */
  lemma {:induction false} FilteredIsSupported(candidates: seq<string>, supported: seq<string>, listed: seq<string>)
    requires forall x :: x in listed ==> x in supported
    ensures forall x :: x in Filtered(candidates, supported, listed) ==> x in supported
    decreases |candidates|
  {
    if candidates != [] {
      ExpandedIsSupported(candidates[0], supported, supported, listed);
      FilteredIsSupported(candidates[1..], supported,
        if candidates[0] in supported then listed + [candidates[0]]
        else if Wild(candidates[0]) then Expanded(candidates[0], supported, listed)
        else listed);
    }
  }

  function InSet(candidates: seq<string>, supported: seq<string>): seq<string> {
    if candidates == [] then []
    else if candidates[0] in supported then [candidates[0]] + InSet(candidates[1..], supported)
    else InSet(candidates[1..], supported)
  }

  /** Without wildcards the filter just drops unsupported names, keeping order and repetition. */
  lemma {:induction false} FilteredKeepsOrder(candidates: seq<string>, supported: seq<string>, listed: seq<string>)
    requires forall c :: c in candidates ==> !Wild(c)
    ensures Filtered(candidates, supported, listed) == listed + InSet(candidates, supported)
    decreases |candidates|
  {
    if candidates == [] {
      assert listed + [] == listed;
    } else {
      var c, rest := candidates[0], candidates[1..];
      assert !Wild(c) && forall x :: x in rest ==> x in candidates;
      FilteredKeepsOrder(rest, supported, if c in supported then listed + [c] else listed);
      Assoc(listed, [c], InSet(rest, supported));
    }
  }

  /** resolveAlgorithmList: whatever the raw value, only supported names are left. */
  method ResolveAlgorithmList(raw: string, defaults: string, supported: seq<string>) returns (result: seq<string>)
    ensures result == Filtered(Applied(raw, Names(defaults)), supported, [])
    ensures forall x :: x in result ==> x in supported
  {
    var names := SplitList(defaults);
    var resolved := ApplyListOp(raw, names);
    result := FilterSupported(resolved, supported);
    FilteredIsSupported(resolved, supported, []);
  }

  // ---- names printed and read back ----

  predicate PrintableName(n: string) {
    n != "" && ',' !in n && !IsSpace(n[0]) && !IsSpace(n[|n| - 1])
  }

  /** The names as pieces of a list, with white space around each. */
  function NamePieces(ns: seq<string>, w: string, v: string): seq<string> {
    if ns == [] then [] else [w + (ns[0] + v)] + NamePieces(ns[1..], w, v)
  }

  lemma {:induction false} PiecesBack(ns: seq<string>, w: string, v: string)
    requires AllSpace(w) && AllSpace(v) && ',' !in w && ',' !in v && forall n :: n in ns ==> PrintableName(n)
    ensures NamesOf(NamePieces(ns, w, v)) == ns
    ensures forall p :: p in NamePieces(ns, w, v) ==> ',' !in p
  {
    if ns != [] {
      assert PrintableName(ns[0]);
      TrimSpaceOf(w, ns[0], v);
      assert TrimSpace(ns[0]) == ns[0];
      PiecesBack(ns[1..], w, v);
      assert NamePieces(ns, w, v)[1..] == NamePieces(ns[1..], w, v);
    }
  }

  /** A printed list is read back, whatever white space stands around the commas. */
  lemma NamesRoundTrip(ns: seq<string>, w: string, v: string)
    requires AllSpace(w) && AllSpace(v) && ',' !in w && ',' !in v && forall n :: n in ns ==> PrintableName(n)
    ensures Names(Join(NamePieces(ns, w, v), ',')) == ns
  {
    PiecesBack(ns, w, v);
    if ns != [] { SplitJoin(NamePieces(ns, w, v), ','); }
  }

  /** An empty or blank piece names nothing. */
  lemma {:induction false} BlankPieceDropped(a: seq<string>, blank: string, b: seq<string>)
    requires AllSpace(blank)
    ensures NamesOf(a + ([blank] + b)) == NamesOf(a + b)
  {
    if a == [] {
      assert a + ([blank] + b) == [blank] + b && a + b == b && ([blank] + b)[1..] == b;
      TrimmedToNothingIff(blank);
    } else {
      assert (a + ([blank] + b))[0] == a[0] && (a + ([blank] + b))[1..] == a[1..] + ([blank] + b);
      assert (a + b)[0] == a[0] && (a + b)[1..] == a[1..] + b;
      BlankPieceDropped(a[1..], blank, b);
    }
  }

  // ---- exactly which names are left ----

  lemma {:induction false} ExpandedMembers(pattern: string, supported: seq<string>, listed: seq<string>, x: string)
    ensures x in Expanded(pattern, supported, listed) <==> x in listed || (x in supported && Matches(pattern, x))
    decreases |supported|
  {
    if supported != [] {
      var more := if Matches(pattern, supported[0]) && supported[0] !in listed then listed + [supported[0]] else listed;
      ExpandedMembers(pattern, supported[1..], more, x);
      assert x in supported <==> x == supported[0] || x in supported[1..];
    }
  }

  /** A candidate asks for a supported name: its own, or as a wildcard that is no supported name itself one
      that it matches. */
  predicate AsksFor(c: string, supported: seq<string>, x: string) {
    c == x || (c !in supported && Wild(c) && Matches(c, x))
  }

  lemma {:induction false} FilteredMembers(candidates: seq<string>, supported: seq<string>, listed: seq<string>,
                                           x: string)
    ensures x in Filtered(candidates, supported, listed) <==>
            x in listed || (x in supported && exists c :: c in candidates && AsksFor(c, supported, x))
    decreases |candidates|
  {
    if candidates != [] {
      var c, rest := candidates[0], candidates[1..];
      assert candidates == [c] + rest;
      ExpandedMembers(c, supported, listed, x);
      var more := if c in supported then listed + [c] else if Wild(c) then Expanded(c, supported, listed) else listed;
      FilteredMembers(rest, supported, more, x);
      assert x in more <==> x in listed || (x in supported && AsksFor(c, supported, x));
    }
  }

  /** The names left are exactly the supported ones that some candidate asks for. */
  lemma FilteredIff(candidates: seq<string>, supported: seq<string>, x: string)
    ensures x in Filtered(candidates, supported, []) <==>
            x in supported && exists c :: c in candidates && AsksFor(c, supported, x)
  {
    FilteredMembers(candidates, supported, [], x);
  }
}
