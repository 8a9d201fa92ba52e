/** Which conditions an entry ends up with: block scoping through any nesting of includes. */
module Scoping {
  import opened Text
  import opened Conditions
  import opened Criteria
  import opened Lines
  import opened Parser

  /** The innermost block that carries conditions; the head of the list is the innermost. */
  function Nearest(scopes: seq<Scope>): Scope {
    if scopes == [] then None
    else if scopes[0].Some? then scopes[0]
    else Nearest(scopes[1..])
  }

  // The reference reader. It walks the include tree once with the stack of the enclosing blocks, its
  // own file's first, and gives every entry the nearest of them. Nothing is patched afterwards.

  function ScopedFile(env: Env, visited: set<string>, path: string, depth: nat, outer: seq<Scope>): Parsed
    decreases Room(env, depth), 2, 0
  {
    if depth > env.maxDepth then Err(DepthExceeded)
    else if env.abs(path) in visited then Ok([])
    else match env.open(env.abs(path))
      case None => Err(Unreadable(env.abs(path)))
      case Some(text) =>
        ScopedLines(env, visited + {env.abs(path)}, TextKinds(text), 0, env.abs(path), depth, [None] + outer)
  }

  function ScopedLines(env: Env, visited: set<string>, lines: seq<LineKind>, n: nat, file: string,
                       depth: nat, scopes: seq<Scope>): Parsed
    requires depth <= env.maxDepth && scopes != []
    decreases Room(env, depth), 1, |lines|
  {
    if lines == [] then Ok([])
    else
      var source := SourceInfo(file, n + 1);
      match lines[0]
      case Nothing => ScopedLines(env, visited, lines[1..], n + 1, file, depth, scopes)
      case NoKeyword => Err(EmptyKeyword(source))
      case BadMatch(e) => Err(CriteriaFailed(source, e))
      case Block(conditions) => ScopedLines(env, visited, lines[1..], n + 1, file, depth, [conditions] + scopes[1..])
      case Include(value) =>
        (match ScopedWork(env, visited, Targets(env, Words(value, false, "")), source, depth, scopes)
         case Err(e) => Err(e)
         case Ok(included) => Then(included, ScopedLines(env, visited, lines[1..], n + 1, file, depth, scopes)))
      case Setting(keyword, value) =>
        Then([Entry(Nearest(scopes), keyword, value, source)],
             ScopedLines(env, visited, lines[1..], n + 1, file, depth, scopes))
  }

  function ScopedWork(env: Env, visited: set<string>, work: seq<Work>, source: SourceInfo, depth: nat,
                      scopes: seq<Scope>): Parsed
    requires depth <= env.maxDepth
    decreases Room(env, depth), 0, |work|
  {
    if work == [] then Ok([])
    else match work[0]
      case BadGlob => Err(GlobFailed(source))
      case ReadFile(path) =>
        match ScopedFile(env, visited, path, depth + 1, scopes)
        case Err(e) => Err(e)
        case Ok(entries) => Then(entries, ScopedWork(env, visited, work[1..], source, depth, scopes))
  }

  /** Handing the conditions of an outer block to the entries of a parse. */
  function Adopt(r: Parsed, scope: Scope): Parsed {
    match r
    case Ok(entries) => Ok(Inherit(entries, scope))
    case Err(e) => Err(e)
  }

  lemma NearestOfCons(scope: Scope, outer: seq<Scope>)
    ensures Nearest([scope] + outer) == if scope.Some? then scope else Nearest(outer)
  {
    assert ([scope] + outer)[1..] == outer;
  }

  lemma AdoptThen(entries: seq<Entry>, r: Parsed, scope: Scope)
    ensures Adopt(Then(entries, r), scope) == Then(Inherit(entries, scope), Adopt(r, scope))
  {
    if r.Ok? {
      assert Inherit(entries + r.value, scope) == Inherit(entries, scope) + Inherit(r.value, scope);
    }
  }

  lemma InheritTwice(entries: seq<Entry>, inner: Scope, outer: Scope)
    ensures Inherit(Inherit(entries, inner), outer) == Inherit(entries, if inner.Some? then inner else outer)
  {
    var both := if inner.Some? then inner else outer;
    forall i | 0 <= i < |entries|
      ensures Inherit(Inherit(entries, inner), outer)[i] == Inherit(entries, both)[i]
    {
      assert Inherit(entries, inner)[i] == InheritOne(entries[i], inner);
    }
  }

  lemma {:induction false} FileScoping(env: Env, visited: set<string>, path: string, depth: nat, outer: seq<Scope>)
    ensures ScopedFile(env, visited, path, depth, outer) ==
            Adopt(FileEntries(env, visited, path, depth), Nearest(outer))
    decreases Room(env, depth), 2, 0
  {
    var a := env.abs(path);
    if depth <= env.maxDepth && a !in visited && env.open(a).Some? {
      LineScoping(env, visited + {a}, TextKinds(env.open(a).value), 0, a, depth, None, outer);
    }
  }

  lemma {:induction false} LineScoping(env: Env, visited: set<string>, lines: seq<LineKind>, n: nat, file: string,
                                       depth: nat, scope: Scope, outer: seq<Scope>)
    requires depth <= env.maxDepth
    ensures ScopedLines(env, visited, lines, n, file, depth, [scope] + outer) ==
            Adopt(LineEntries(env, visited, lines, n, file, depth, scope), Nearest(outer))
    decreases Room(env, depth), 1, |lines|
  {
    if lines != [] {
      var source := SourceInfo(file, n + 1);
      NearestOfCons(scope, outer);
      match lines[0]
      case Nothing => LineScoping(env, visited, lines[1..], n + 1, file, depth, scope, outer);
      case NoKeyword =>
      case BadMatch(_) =>
      case Block(conditions) =>
        LineScoping(env, visited, lines[1..], n + 1, file, depth, conditions, outer);
        assert [conditions] + ([scope] + outer)[1..] == [conditions] + outer;
      case Include(value) =>
        var work := Targets(env, Words(value, false, ""));
        WorkScoping(env, visited, work, source, depth, [scope] + outer);
        LineScoping(env, visited, lines[1..], n + 1, file, depth, scope, outer);
        var included := WorkEntries(env, visited, work, source, depth);
        if included.Ok? {
          InheritTwice(included.value, scope, Nearest(outer));
          AdoptThen(Inherit(included.value, scope),
                    LineEntries(env, visited, lines[1..], n + 1, file, depth, scope), Nearest(outer));
        }
      case Setting(keyword, value) =>
        LineScoping(env, visited, lines[1..], n + 1, file, depth, scope, outer);
        var own := [Entry(scope, keyword, value, source)];
        assert Inherit(own, Nearest(outer)) == [Entry(Nearest([scope] + outer), keyword, value, source)];
        AdoptThen(own, LineEntries(env, visited, lines[1..], n + 1, file, depth, scope), Nearest(outer));
    }
  }

  lemma {:induction false} WorkScoping(env: Env, visited: set<string>, work: seq<Work>, source: SourceInfo,
                                       depth: nat, scopes: seq<Scope>)
    requires depth <= env.maxDepth
    ensures ScopedWork(env, visited, work, source, depth, scopes) ==
            Adopt(WorkEntries(env, visited, work, source, depth), Nearest(scopes))
    decreases Room(env, depth), 0, |work|
  {
    if work != [] && work[0].ReadFile? {
      FileScoping(env, visited, work[0].path, depth + 1, scopes);
      var first := FileEntries(env, visited, work[0].path, depth + 1);
      if first.Ok? {
        WorkScoping(env, visited, work[1..], source, depth, scopes);
        AdoptThen(first.value, WorkEntries(env, visited, work[1..], source, depth), Nearest(scopes));
      }
    }
  }

  /** The parser patches conditions bottom-up, one include level at a time; the result is what the
      top-down reader with the full stack of blocks gives: every entry has the conditions of its nearest
      enclosing block that has any. */
  lemma BlockScoping(env: Env, path: string)
    ensures ParsedFile(env, path) == ScopedFile(env, {}, path, 0, [])
  {
    FileScoping(env, {}, path, 0, []);
    if ParsedFile(env, path).Ok? {
      assert Inherit(ParsedFile(env, path).value, None) == ParsedFile(env, path).value;
    }
  }

  // ---- every parsed entry carries buildable conditions ----

  predicate EntriesBuildable(r: Parsed) {
    r.Ok? ==> forall e :: e in r.value ==> AllBuildable(e.conditions)
  }

  predicate BlocksBuildable(lines: seq<LineKind>) {
    forall k :: k in lines && k.Block? ==> AllBuildable(k.conditions)
  }

  lemma ClassifiedIsBuildable(line: string)
    ensures Classify(line).Block? ==> AllBuildable(Classify(line).conditions)
  {
    var split := SplitLine(TrimSpace(Uncommented(line, false)));
    if split.Some? {
      ParsedAreBuildable(Words(split.value.1, false, ""), []);
    }
  }

  lemma TextIsBuildable(text: string)
    ensures BlocksBuildable(TextKinds(text))
  {
    var lines := ScanLines(text, "");
    forall i | 0 <= i < |lines| && Kinds(lines)[i].Block? ensures AllBuildable(Kinds(lines)[i].conditions) {
      ClassifiedIsBuildable(lines[i]);
    }
  }

  lemma {:induction false} FileBuildable(env: Env, visited: set<string>, path: string, depth: nat)
    ensures EntriesBuildable(FileEntries(env, visited, path, depth))
    decreases Room(env, depth), 2, 0
  {
    var a := env.abs(path);
    if depth <= env.maxDepth && a !in visited && env.open(a).Some? {
      TextIsBuildable(env.open(a).value);
      LinesBuildable(env, visited + {a}, TextKinds(env.open(a).value), 0, a, depth, None);
    }
  }

  lemma {:induction false} LinesBuildable(env: Env, visited: set<string>, lines: seq<LineKind>, n: nat, file: string,
                                          depth: nat, scope: Scope)
    requires depth <= env.maxDepth && AllBuildable(scope) && BlocksBuildable(lines)
    ensures EntriesBuildable(LineEntries(env, visited, lines, n, file, depth, scope))
    decreases Room(env, depth), 1, |lines|
  {
    if lines != [] {
      match lines[0]
      case Block(conditions) => LinesBuildable(env, visited, lines[1..], n + 1, file, depth, conditions);
      case Include(value) =>
        WorkBuildable(env, visited, Targets(env, Words(value, false, "")), SourceInfo(file, n + 1), depth);
        LinesBuildable(env, visited, lines[1..], n + 1, file, depth, scope);
      case _ => LinesBuildable(env, visited, lines[1..], n + 1, file, depth, scope);
    }
  }

  lemma {:induction false} WorkBuildable(env: Env, visited: set<string>, work: seq<Work>, source: SourceInfo,
                                         depth: nat)
    requires depth <= env.maxDepth
    ensures EntriesBuildable(WorkEntries(env, visited, work, source, depth))
    decreases Room(env, depth), 0, |work|
  {
    if work != [] && work[0].ReadFile? {
      FileBuildable(env, visited, work[0].path, depth + 1);
      WorkBuildable(env, visited, work[1..], source, depth);
    }
  }
}
