/** Lists of patterns with negation: the comma-separated lists of Match criteria and the
    pattern lists of Host blocks. */
module PatternList {
  import opened Text
  import opened Glob

  datatype HostPattern = HostPattern(pattern: string, negated: bool)

  /** Some pattern of the given sign matches. */
  predicate Hit(ps: seq<HostPattern>, negated: bool, value: string) {
    exists i :: 0 <= i < |ps| && ps[i].negated == negated && Matches(ps[i].pattern, value)
  }

  /** What a pattern list means: some positive pattern matches and no negated one does. */
  predicate Selects(ps: seq<HostPattern>, value: string) {
    Hit(ps, false, value) && !Hit(ps, true, value)
  }

  lemma HitOfCons(p: HostPattern, ps: seq<HostPattern>, negated: bool, value: string)
    ensures Hit([p] + ps, negated, value) <==>
            (p.negated == negated && Matches(p.pattern, value)) || Hit(ps, negated, value)
  {
    assert ([p] + ps)[0] == p;
    if Hit(ps, negated, value) {
      var i :| 0 <= i < |ps| && ps[i].negated == negated && Matches(ps[i].pattern, value);
      assert ([p] + ps)[i + 1] == ps[i];
    }
  }

  lemma HitMonotone(ps: seq<HostPattern>, qs: seq<HostPattern>, negated: bool, value: string)
    requires forall p :: p in ps ==> p in qs
    requires Hit(ps, negated, value)
    ensures Hit(qs, negated, value)
  {
    var i :| 0 <= i < |ps| && ps[i].negated == negated && Matches(ps[i].pattern, value);
    assert ps[i] in qs;
    var j :| 0 <= j < |qs| && qs[j] == ps[i];
  }

  lemma SelectsOrderFree(ps: seq<HostPattern>, qs: seq<HostPattern>, value: string)
    requires forall p :: p in ps <==> p in qs
    ensures Selects(ps, value) == Selects(qs, value)
  {
    forall negated: bool ensures Hit(ps, negated, value) == Hit(qs, negated, value) {
      if Hit(ps, negated, value) { HitMonotone(ps, qs, negated, value); }
      if Hit(qs, negated, value) { HitMonotone(qs, ps, negated, value); }
    }
  }

  /** One trimmed piece of a comma-separated list; an empty piece is skipped. */
  function Clause(piece: string): Option<HostPattern> {
    var p := TrimSpace(piece);
    if p == "" then None
    else if p[0] == '!' then Some(HostPattern(p[1..], true))
    else Some(HostPattern(p, false))
  }

  function ClausesOf(pieces: seq<string>): seq<HostPattern> {
    if pieces == [] then []
    else match Clause(pieces[0])
      case None => ClausesOf(pieces[1..])
      case Some(c) => [c] + ClausesOf(pieces[1..])
  }

  function Clauses(patternList: string): seq<HostPattern> {
    ClausesOf(Split(patternList, ','))
  }

  lemma {:induction false} ClausesMembers(pieces: seq<string>, c: HostPattern)
    ensures c in ClausesOf(pieces) <==> exists p :: p in pieces && Clause(p) == Some(c)
  {
    if pieces != [] {
      ClausesMembers(pieces[1..], c);
      assert pieces == [pieces[0]] + pieces[1..];
    }
  }

  /** Permuting or repeating the elements of a pattern list does not change what it matches. */
  lemma PatternListOrderFree(xs: seq<string>, ys: seq<string>, value: string)
    requires xs != [] && ys != []
    requires forall x :: x in xs ==> ',' !in x
    requires forall x :: x in xs <==> x in ys
    ensures Selects(Clauses(Join(xs, ',')), value) == Selects(Clauses(Join(ys, ',')), value)
  {
    SplitJoin(xs, ',');
    SplitJoin(ys, ',');
    forall c ensures c in ClausesOf(xs) <==> c in ClausesOf(ys) {
      ClausesMembers(xs, c);
      ClausesMembers(ys, c);
    }
    SelectsOrderFree(ClausesOf(xs), ClausesOf(ys), value);
  }

  lemma ClausesStep(pieces: seq<string>, i: nat)
    requires i < |pieces|
    ensures ClausesOf(pieces[i..]) ==
            match Clause(pieces[i])
            case None => ClausesOf(pieces[i + 1..])
            case Some(c) => [c] + ClausesOf(pieces[i + 1..])
  {
    assert pieces[i..][0] == pieces[i] && pieces[i..][1..] == pieces[i + 1..];
  }

  /** sshconfig.MatchPatternList: returns early on a negated match, yet computes `Selects`. */
  method MatchPatternList(patternList: string, value: string) returns (r: bool)
    ensures r == Selects(Clauses(patternList), value)
  {
    var patterns := Split(patternList, ',');
    var matched := false;
    assert patterns[0..] == patterns;
    for i := 0 to |patterns|
      invariant Selects(Clauses(patternList), value) ==
                ((matched || Hit(ClausesOf(patterns[i..]), false, value)) &&
                 !Hit(ClausesOf(patterns[i..]), true, value))
    {
      ClausesStep(patterns, i);
      var p := TrimSpace(patterns[i]);
      if p == "" { continue; }
      var negated := false;
      if p[0] == '!' {
        negated := true;
        p := p[1..];
      }
      ghost var c, rest := HostPattern(p, negated), ClausesOf(patterns[i + 1..]);
      assert Clause(patterns[i]) == Some(c);
      HitOfCons(c, rest, false, value);
      HitOfCons(c, rest, true, value);
      var hit := MatchPattern(p, value);
      if hit {
        if negated { return false; }
        matched := true;
      }
    }
    return matched;
  }

  /** HostCondition.Match */
  method MatchHostPatterns(patterns: seq<HostPattern>, host: string) returns (r: bool)
    ensures r == Selects(patterns, host)
  {
    var matched := false;
    assert patterns[0..] == patterns;
    for i := 0 to |patterns|
      invariant Selects(patterns, host) ==
                ((matched || Hit(patterns[i..], false, host)) && !Hit(patterns[i..], true, host))
    {
      var p := patterns[i];
      assert patterns[i..] == [p] + patterns[i + 1..];
      HitOfCons(p, patterns[i + 1..], false, host);
      HitOfCons(p, patterns[i + 1..], true, host);
      var hit := MatchPattern(p.pattern, host);
      if hit {
        if p.negated { return false; }
        matched := true;
      }
    }
    return matched;
  }

  /** The pattern written as one word of a Host line, and a word read as a pattern. */
  function PrintPattern(p: HostPattern): string {
    if p.negated then "!" + p.pattern else p.pattern
  }

  function ReadPattern(field: string): seq<HostPattern> {
    if "!" <= field then
      if |field| > 1 then [HostPattern(field[1..], true)] else []
    else if field != "" then [HostPattern(field, false)]
    else []
  }

  function ReadPatterns(fields: seq<string>): seq<HostPattern> {
    if fields == [] then [] else ReadPattern(fields[0]) + ReadPatterns(fields[1..])
  }

  function HostPatterns(args: string): seq<HostPattern> {
    ReadPatterns(Fields(args))
  }

  lemma {:induction false} ReadPatternsAppend(fields: seq<string>, f: string)
    ensures ReadPatterns(fields + [f]) == ReadPatterns(fields) + ReadPattern(f)
  {
    if fields != [] {
      ReadPatternsAppend(fields[1..], f);
      var longer := fields + [f];
      assert longer[0] == fields[0] && longer[1..] == fields[1..] + [f];
      var first, rest := ReadPattern(fields[0]), ReadPatterns(fields[1..]);
      assert first + (rest + ReadPattern(f)) == (first + rest) + ReadPattern(f);
    }
  }

  /** sshconfig.ParseHostPatterns */
  method ParseHostPatterns(args: string) returns (patterns: seq<HostPattern>)
    ensures patterns == HostPatterns(args)
  {
    var fields := Fields(args);
    patterns := [];
    for i := 0 to |fields|
      invariant patterns == ReadPatterns(fields[..i])
    {
      var f := fields[i];
      ReadPatternsAppend(fields[..i], f);
      assert fields[..i + 1] == fields[..i] + [f];
      var negated := false;
      if "!" <= f {
        negated := true;
        f := f[1..];
      }
      if f != "" {
        patterns := patterns + [HostPattern(f, negated)];
      }
    }
    assert fields[..|fields|] == fields;
  }

  /** A pattern a Host line can carry: it is one word, and a positive one does not start with '!'. */
  predicate PrintablePattern(p: HostPattern) {
    p.pattern != "" && NoSpace(p.pattern) && (p.negated || p.pattern[0] != '!')
  }

  function PrintWords(ps: seq<HostPattern>): seq<string> {
    if ps == [] then [] else [PrintPattern(ps[0])] + PrintWords(ps[1..])
  }

  function PrintPatterns(ps: seq<HostPattern>): string {
    Join(PrintWords(ps), ' ')
  }

  lemma {:induction false} ReadPrinted(ps: seq<HostPattern>)
    requires forall p :: p in ps ==> PrintablePattern(p)
    ensures ReadPatterns(PrintWords(ps)) == ps
    ensures forall w :: w in PrintWords(ps) ==> w != "" && NoSpace(w)
  {
    if ps != [] {
      assert PrintablePattern(ps[0]);
      ReadPrinted(ps[1..]);
      assert PrintWords(ps)[1..] == PrintWords(ps[1..]);
    }
  }

  /** A printed Host pattern list is read back exactly. */
  lemma HostPatternsRoundTrip(ps: seq<HostPattern>)
    requires forall p :: p in ps ==> PrintablePattern(p)
    ensures HostPatterns(PrintPatterns(ps)) == ps
  {
    ReadPrinted(ps);
    FieldsJoin(PrintWords(ps));
  }

  // ---- comma-separated lists printed and read back ----

  /** A clause a list can carry. */
  predicate PrintableClause(c: HostPattern) {
    && ',' !in c.pattern && (c.pattern == "" ==> c.negated)
    && (c.pattern != "" ==> !IsSpace(c.pattern[|c.pattern| - 1]))
    && (c.pattern != "" && !c.negated ==> !IsSpace(c.pattern[0]) && c.pattern[0] != '!')
  }

  /** The clauses as pieces of a list, with white space around each. */
  function ClausePieces(cs: seq<HostPattern>, w: string, v: string): seq<string> {
    if cs == [] then [] else [w + (PrintPattern(cs[0]) + v)] + ClausePieces(cs[1..], w, v)
  }

  lemma ClauseBack(c: HostPattern, w: string, v: string)
    requires PrintableClause(c) && AllSpace(w) && AllSpace(v) && ',' !in w && ',' !in v
    ensures Clause(w + (PrintPattern(c) + v)) == Some(c) && ',' !in w + (PrintPattern(c) + v)
  {
    var text := PrintPattern(c);
    TrimSpaceOf(w, text, v);
    assert TrimLeft(text) == text && TrimRight(text) == text;
    if c.negated { assert text[1..] == c.pattern; }
  }

  lemma {:induction false} PiecesBack(cs: seq<HostPattern>, w: string, v: string)
    requires AllSpace(w) && AllSpace(v) && ',' !in w && ',' !in v
    requires forall c :: c in cs ==> PrintableClause(c)
    ensures ClausesOf(ClausePieces(cs, w, v)) == cs
    ensures forall p :: p in ClausePieces(cs, w, v) ==> ',' !in p
  {
    if cs != [] {
      ClauseBack(cs[0], w, v);
      PiecesBack(cs[1..], w, v);
      assert ClausePieces(cs, w, v)[1..] == ClausePieces(cs[1..], w, v);
    }
  }

  /** A printed list is read back with every sign and pattern, whatever white space stands around the
      commas. */
  lemma ClausesRoundTrip(cs: seq<HostPattern>, w: string, v: string)
    requires AllSpace(w) && AllSpace(v) && ',' !in w && ',' !in v
    requires forall c :: c in cs ==> PrintableClause(c)
    ensures Clauses(Join(ClausePieces(cs, w, v), ',')) == cs
  {
    PiecesBack(cs, w, v);
    if cs != [] { SplitJoin(ClausePieces(cs, w, v), ','); }
  }
}
