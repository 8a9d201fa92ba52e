/** The configuration parser: blocks, and Include files expanded recursively with the set of files
    on the current path kept in `visited`. */
module Parser {
  import opened Text
  import opened Conditions
  import opened Criteria
  import opened Lines

  datatype SourceInfo = SourceInfo(file: string, line: nat)

  /** The conditions in force; None before any block. */
  type Scope = Option<seq<Condition>>

  datatype Entry = Entry(conditions: Scope, keyword: string, value: string, source: SourceInfo)

  datatype Failure =
    | DepthExceeded
    | Unreadable(path: string)
    | GlobFailed(source: SourceInfo)
    | EmptyKeyword(source: SourceInfo)
    | CriteriaFailed(source: SourceInfo, error: CriteriaError)

  type Parsed = Result<seq<Entry>, Failure>

  /** The file system as the parser sees it. `expand` takes one word of an Include line to the sorted
      list of existing non-directory files it denotes (None when the glob is malformed). */
  datatype Env = Env(open: string -> Option<string>, abs: string -> string,
                     expand: string -> Option<seq<string>>, maxDepth: nat)

  /** One thing an Include line asks for. */
  datatype Work = ReadFile(path: string) | BadGlob

  function Targets(env: Env, words: seq<string>): seq<Work> {
    if words == [] then [] else WordTargets(env, words[0]) + Targets(env, words[1..])
  }

  function WordTargets(env: Env, word: string): seq<Work> {
    match env.expand(word)
    case None => [BadGlob]
    case Some(files) => seq(|files|, i requires 0 <= i < |files| => ReadFile(files[i]))
  }

  function Then(entries: seq<Entry>, r: Parsed): Parsed {
    match r
    case Ok(rest) => Ok(entries + rest)
    case Err(e) => Err(e)
  }

  function InheritOne(e: Entry, scope: Scope): Entry {
    if e.conditions.None? then e.(conditions := scope) else e
  }

  /** Included entries without conditions take those of the including block. */
  function Inherit(entries: seq<Entry>, scope: Scope): (r: seq<Entry>)
    ensures |r| == |entries|
  {
    seq(|entries|, i requires 0 <= i < |entries| => InheritOne(entries[i], scope))
  }

  function Room(env: Env, depth: nat): nat {
    if depth > env.maxDepth then 0 else env.maxDepth + 1 - depth
  }

  /** The lines of a text, each as what it does. */
  function Kinds(lines: seq<string>): (r: seq<LineKind>)
    ensures |r| == |lines|
  {
    seq(|lines|, i requires 0 <= i < |lines| => Classify(lines[i]))
  }

  function TextKinds(text: string): seq<LineKind> {
    Kinds(ScanLines(text, ""))
  }

  /** The entries of a file: an error beyond the depth limit, nothing when it is being read already. */
  function FileEntries(env: Env, visited: set<string>, path: string, depth: nat): Parsed
    decreases Room(env, depth), 2, 0
  {
    if depth > env.maxDepth then Err(DepthExceeded)
    else if env.abs(path) in visited then Ok([])
    else match env.open(env.abs(path))
      case None => Err(Unreadable(env.abs(path)))
      case Some(text) =>
        LineEntries(env, visited + {env.abs(path)}, TextKinds(text), 0, env.abs(path), depth, None)
  }

  /** The entries of the lines behind line `n`, under the conditions `scope`. */
  function LineEntries(env: Env, visited: set<string>, lines: seq<LineKind>, n: nat, file: string,
                       depth: nat, scope: Scope): Parsed
    requires depth <= env.maxDepth
    decreases Room(env, depth), 1, |lines|
  {
    if lines == [] then Ok([])
    else
      var source := SourceInfo(file, n + 1);
      match lines[0]
      case Nothing => LineEntries(env, visited, lines[1..], n + 1, file, depth, scope)
      case NoKeyword => Err(EmptyKeyword(source))
      case BadMatch(e) => Err(CriteriaFailed(source, e))
      case Block(conditions) => LineEntries(env, visited, lines[1..], n + 1, file, depth, conditions)
      case Include(value) =>
        (match WorkEntries(env, visited, Targets(env, Words(value, false, "")), source, depth)
         case Err(e) => Err(e)
         case Ok(included) =>
           Then(Inherit(included, scope), LineEntries(env, visited, lines[1..], n + 1, file, depth, scope)))
      case Setting(keyword, value) =>
        Then([Entry(scope, keyword, value, source)],
             LineEntries(env, visited, lines[1..], n + 1, file, depth, scope))
  }

  /** The entries of the files an Include line asks for, read one level deeper. */
  function WorkEntries(env: Env, visited: set<string>, work: seq<Work>, source: SourceInfo, depth: nat): Parsed
    requires depth <= env.maxDepth
    decreases Room(env, depth), 0, |work|
  {
    if work == [] then Ok([])
    else match work[0]
      case BadGlob => Err(GlobFailed(source))
      case ReadFile(path) =>
        match FileEntries(env, visited, path, depth + 1)
        case Err(e) => Err(e)
        case Ok(entries) => Then(entries, WorkEntries(env, visited, work[1..], source, depth))
  }

  lemma ThenTwice(a: seq<Entry>, b: seq<Entry>, r: Parsed)
    ensures Then(a, Then(b, r)) == Then(a + b, r)
  {
    match r
    case Ok(es) => assert a + (b + es) == a + b + es;
    case Err(_) =>
  }

  lemma ThenNothing(r: Parsed)
    ensures Then([], r) == r
  {
    match r
    case Ok(es) => assert [] + es == es;
    case Err(_) =>
  }

  /** Include targets are processed one after the other, each from the same visited set. */
  lemma {:induction false} WorkAppend(env: Env, visited: set<string>, a: seq<Work>, b: seq<Work>,
                                      source: SourceInfo, depth: nat)
    requires depth <= env.maxDepth
    ensures WorkEntries(env, visited, a + b, source, depth) ==
            match WorkEntries(env, visited, a, source, depth)
            case Err(e) => Err(e)
            case Ok(es) => Then(es, WorkEntries(env, visited, b, source, depth))
    decreases |a|
  {
    if a == [] {
      assert a + b == b;
      ThenNothing(WorkEntries(env, visited, b, source, depth));
    } else {
      assert (a + b)[0] == a[0] && (a + b)[1..] == a[1..] + b;
      WorkAppend(env, visited, a[1..], b, source, depth);
      if a[0].ReadFile? {
        var first := FileEntries(env, visited, a[0].path, depth + 1);
        var rest := WorkEntries(env, visited, a[1..], source, depth);
        if first.Ok? && rest.Ok? {
          ThenTwice(first.value, rest.value, WorkEntries(env, visited, b, source, depth));
        }
      }
    }
  }

  /** A file reached twice by siblings is expanded twice: only files on the current path are skipped. */
  lemma DiamondExpandsTwice(env: Env, visited: set<string>, path: string, source: SourceInfo, depth: nat)
    requires depth <= env.maxDepth
    requires FileEntries(env, visited, path, depth + 1).Ok?
    ensures var es := FileEntries(env, visited, path, depth + 1).value;
            WorkEntries(env, visited, [ReadFile(path), ReadFile(path)], source, depth) == Ok(es + es)
  {
    var es := FileEntries(env, visited, path, depth + 1).value;
    var one := [ReadFile(path)];
    assert es + [] == es;
    assert WorkEntries(env, visited, one, source, depth) == Ok(es);
    WorkAppend(env, visited, one, one, source, depth);
    assert one + one == [ReadFile(path), ReadFile(path)];
  }

  function EffectiveDepth(maxIncludeDepth: int): nat {
    if maxIncludeDepth <= 0 then 16 else maxIncludeDepth
  }

  /** The parser object. `base` is 0 for a run that starts at a file and 1 for one that starts at a
      string, which has a depth but no place in `visited`. Every call below states the size of
      `visited` it is made with, so the size is checked at every entry of ParseFile. */
  class Parser {
    const env: Env
    var visited: set<string>

    constructor (env: Env, maxIncludeDepth: int)
      ensures this.env == env.(maxDepth := EffectiveDepth(maxIncludeDepth))
      ensures visited == {}
    {
      this.env := env.(maxDepth := EffectiveDepth(maxIncludeDepth));
      visited := {};
    }

    /** parseFile: on every way out, success or error, `visited` is what it was. */
    method ParseFile(path: string, depth: nat, ghost base: nat) returns (r: Parsed)
      requires |visited| + base == depth
      modifies this
      ensures visited == old(visited)
      ensures r == FileEntries(env, old(visited), path, depth)
      decreases Room(env, depth), 2, 0
    {
      if depth > env.maxDepth { return Err(DepthExceeded); }
      var absPath := env.abs(path);
      if absPath in visited { return Ok([]); }
      visited := visited + {absPath};
      var file := env.open(absPath);
      match file {
        case None =>
          r := Err(Unreadable(absPath));
        case Some(text) =>
          r := ParseReader(ScanLines(text, ""), absPath, depth, base);
      }
      visited := visited - {absPath};
      assert visited == old(visited);
    }

    /** parseReader: the loop over lines that keeps the current conditions. */
    method ParseReader(lines: seq<string>, file: string, depth: nat, ghost base: nat) returns (r: Parsed)
      requires depth <= env.maxDepth && |visited| + base == depth + 1
      modifies this
      ensures visited == old(visited)
      ensures r == LineEntries(env, old(visited), Kinds(lines), 0, file, depth, None)
      decreases Room(env, depth), 1, 0
    {
      var entries: seq<Entry> := [];
      var current: Scope := None;
      ghost var kinds := Kinds(lines);
      ghost var goal := LineEntries(env, visited, kinds, 0, file, depth, None);
      assert kinds[0..] == kinds;
      ThenNothing(goal);
      for i := 0 to |lines|
        invariant visited == old(visited)
        invariant goal == Then(entries, LineEntries(env, visited, kinds[i..], i, file, depth, current))
      {
        var source := SourceInfo(file, i + 1);
        assert kinds[i..][0] == kinds[i] && kinds[i..][1..] == kinds[i + 1..];
        var kind := ReadLine(lines[i]);
        match kind {
          case Nothing =>
          case NoKeyword => return Err(EmptyKeyword(source));
          case BadMatch(e) => return Err(CriteriaFailed(source, e));
          case Block(conditions) => current := conditions;
          case Include(value) =>
            var included := HandleInclude(value, source, depth, base);
            match included {
              case Err(e) => return Err(e);
              case Ok(es) =>
                var adopted := InheritConditions(es, current);
                ThenTwice(entries, adopted, LineEntries(env, visited, kinds[i + 1..], i + 1, file, depth, current));
                entries := entries + adopted;
            }
          case Setting(keyword, value) =>
            var entry := Entry(current, keyword, value, source);
            ThenTwice(entries, [entry], LineEntries(env, visited, kinds[i + 1..], i + 1, file, depth, current));
            entries := entries + [entry];
        }
      }
      assert entries + [] == entries;
      return Ok(entries);
    }

    /** The loop that hands the current conditions to included entries without conditions. */
    method InheritConditions(included: seq<Entry>, current: Scope) returns (r: seq<Entry>)
      ensures r == Inherit(included, current)
    {
      r := included;
      for i := 0 to |r|
        invariant |r| == |included|
        invariant forall k :: 0 <= k < i ==> r[k] == InheritOne(included[k], current)
        invariant forall k :: i <= k < |r| ==> r[k] == included[k]
      {
        if r[i].conditions.None? && current.Some? {
          r := r[i := r[i].(conditions := current)];
        }
      }
    }

    /** handleInclude */
    method HandleInclude(value: string, source: SourceInfo, depth: nat, ghost base: nat) returns (r: Parsed)
      requires depth <= env.maxDepth && |visited| + base == depth + 1
      modifies this
      ensures visited == old(visited)
      ensures r == WorkEntries(env, old(visited), Targets(env, Words(value, false, "")), source, depth)
      decreases Room(env, depth), 0, 1
    {
      var paths := SplitUnquoted(value);
      var all: seq<Entry> := [];
      ghost var goal := WorkEntries(env, visited, Targets(env, paths), source, depth);
      assert paths[0..] == paths;
      ThenNothing(goal);
      for i := 0 to |paths|
        invariant visited == old(visited)
        invariant goal == Then(all, WorkEntries(env, visited, Targets(env, paths[i..]), source, depth))
      {
        ghost var rest := Targets(env, paths[i + 1..]);
        assert paths[i..][0] == paths[i] && paths[i..][1..] == paths[i + 1..];
        WorkAppend(env, visited, WordTargets(env, paths[i]), rest, source, depth);
        var matches := env.expand(paths[i]);
        if matches.None? {
          assert (WordTargets(env, paths[i]))[0] == BadGlob;
          return Err(GlobFailed(source));
        }
        var included := ReadFiles(matches.value, source, depth, base);
        match included {
          case Err(e) => return Err(e);
          case Ok(es) =>
            ThenTwice(all, es, WorkEntries(env, visited, rest, source, depth));
            all := all + es;
        }
      }
      assert all + [] == all;
      return Ok(all);
    }

    /** The inner loop of handleInclude, over the files one word denotes. */
    method ReadFiles(files: seq<string>, source: SourceInfo, depth: nat, ghost base: nat) returns (r: Parsed)
      requires depth <= env.maxDepth && |visited| + base == depth + 1
      modifies this
      ensures visited == old(visited)
      ensures r == WorkEntries(env, old(visited),
                               seq(|files|, i requires 0 <= i < |files| => ReadFile(files[i])), source, depth)
      decreases Room(env, depth), 0, 0
    {
      ghost var work := seq(|files|, i requires 0 <= i < |files| => ReadFile(files[i]));
      var all: seq<Entry> := [];
      ghost var goal := WorkEntries(env, visited, work, source, depth);
      assert work[0..] == work;
      ThenNothing(goal);
      for i := 0 to |files|
        invariant visited == old(visited)
        invariant goal == Then(all, WorkEntries(env, visited, work[i..], source, depth))
      {
        assert work[i..][0] == ReadFile(files[i]) && work[i..][1..] == work[i + 1..];
        var included := ParseFile(files[i], depth + 1, base);
        match included {
          case Err(e) => return Err(e);
          case Ok(es) =>
            ThenTwice(all, es, WorkEntries(env, visited, work[i + 1..], source, depth));
            all := all + es;
        }
      }
      assert all + [] == all;
      return Ok(all);
    }
  }

  /** What ParseFile and ParseString of the package compute. */
  function ParsedFile(env: Env, path: string): Parsed {
    FileEntries(env, {}, path, 0)
  }

  function ParsedText(env: Env, text: string, name: string): Parsed {
    LineEntries(env, {}, TextKinds(text), 0, name, 0, None)
  }

  method ParseFile(env: Env, maxIncludeDepth: int, path: string) returns (r: Parsed)
    ensures r == ParsedFile(env.(maxDepth := EffectiveDepth(maxIncludeDepth)), path)
  {
    var p := new Parser(env, maxIncludeDepth);
    r := p.ParseFile(path, 0, 0);
  }

  method ParseString(env: Env, maxIncludeDepth: int, content: string, name: string) returns (r: Parsed)
    ensures r == ParsedText(env.(maxDepth := EffectiveDepth(maxIncludeDepth)), content, name)
  {
    var p := new Parser(env, maxIncludeDepth);
    r := p.ParseReader(ScanLines(content, ""), name, 0, 1);
  }

  // ---- the order of included files ----

  /** The words of an Include are expanded in order, and the files of each in the order given. */
  lemma {:induction false} TargetsInOrder(env: Env, a: seq<string>, b: seq<string>)
    ensures Targets(env, a + b) == Targets(env, a) + Targets(env, b)
    decreases |a|
  {
    if a == [] {
      assert a + b == b;
    } else {
      assert (a + b)[0] == a[0] && (a + b)[1..] == a[1..] + b;
      TargetsInOrder(env, a[1..], b);
      assert WordTargets(env, a[0]) + (Targets(env, a[1..]) + Targets(env, b)) ==
             WordTargets(env, a[0]) + Targets(env, a[1..]) + Targets(env, b);
    }
  }

  lemma OneWordTargets(env: Env, word: string, files: seq<string>)
    requires env.expand(word) == Some(files)
    ensures |Targets(env, [word])| == |files|
    ensures forall i :: 0 <= i < |files| ==> Targets(env, [word])[i] == ReadFile(files[i])
  {
    assert [word][1..] == [] && WordTargets(env, word) + [] == WordTargets(env, word);
  }
}
