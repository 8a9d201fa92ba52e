/** When the Include depth limit can be seen, and when it cannot. */
module IncludeDepth {
  import opened Text
  import opened Criteria
  import opened Lines
  import opened Parser

  /** Every file that can be opened is in `readable`. */
  ghost predicate Readable(env: Env, readable: set<string>) {
    forall p :: env.open(p).Some? ==> p in readable
  }

  lemma SubsetSize(a: set<string>, b: set<string>)
    requires a <= b
    ensures |a| <= |b|
  {
    if a != {} {
      var x :| x in a;
      SubsetSize(a - {x}, b - {x});
    }
  }

  // ---- few enough files: the limit is never hit ----

  /** With at most `maxDepth` readable files (one less for a run that starts at a string, `base` 1)
      no call ends in the depth error, whatever the cycles. */
  lemma {:induction false} FileNeverTooDeep(env: Env, readable: set<string>, base: nat,
                                            visited: set<string>, path: string, depth: nat)
    requires Readable(env, readable) && |readable| + base <= env.maxDepth
    requires visited <= readable && |visited| + base == depth
    ensures FileEntries(env, visited, path, depth) != Err(DepthExceeded)
    decreases Room(env, depth), 2, 0
  {
    SubsetSize(visited, readable);
    var a := env.abs(path);
    if a !in visited && env.open(a).Some? {
      LinesNeverTooDeep(env, readable, base, visited + {a}, TextKinds(env.open(a).value), 0, a, depth, None);
    }
  }

  lemma {:induction false} LinesNeverTooDeep(env: Env, readable: set<string>, base: nat, visited: set<string>,
                                             lines: seq<LineKind>, n: nat, file: string, depth: nat, scope: Scope)
    requires Readable(env, readable) && |readable| + base <= env.maxDepth
    requires visited <= readable && |visited| + base == depth + 1 && depth <= env.maxDepth
    ensures LineEntries(env, visited, lines, n, file, depth, scope) != Err(DepthExceeded)
    decreases Room(env, depth), 1, |lines|
  {
    if lines != [] {
      match lines[0]
      case Block(conditions) =>
        LinesNeverTooDeep(env, readable, base, visited, lines[1..], n + 1, file, depth, conditions);
      case Include(value) =>
        var work := Targets(env, Words(value, false, ""));
        WorkNeverTooDeep(env, readable, base, visited, work, SourceInfo(file, n + 1), depth);
        LinesNeverTooDeep(env, readable, base, visited, lines[1..], n + 1, file, depth, scope);
      case _ =>
        LinesNeverTooDeep(env, readable, base, visited, lines[1..], n + 1, file, depth, scope);
    }
  }

  lemma {:induction false} WorkNeverTooDeep(env: Env, readable: set<string>, base: nat, visited: set<string>,
                                            work: seq<Work>, source: SourceInfo, depth: nat)
    requires Readable(env, readable) && |readable| + base <= env.maxDepth
    requires visited <= readable && |visited| + base == depth + 1 && depth <= env.maxDepth
    ensures WorkEntries(env, visited, work, source, depth) != Err(DepthExceeded)
    decreases Room(env, depth), 0, |work|
  {
    if work != [] && work[0].ReadFile? {
      FileNeverTooDeep(env, readable, base, visited, work[0].path, depth + 1);
      WorkNeverTooDeep(env, readable, base, visited, work[1..], source, depth);
    }
  }

  // ---- a result that is not the depth error does not depend on the limit ----

  lemma {:induction false} FileSameUnderLargerLimit(env: Env, larger: Env, visited: set<string>,
                                                    path: string, depth: nat)
    requires larger == env.(maxDepth := larger.maxDepth) && env.maxDepth <= larger.maxDepth
    requires FileEntries(env, visited, path, depth) != Err(DepthExceeded)
    ensures FileEntries(larger, visited, path, depth) == FileEntries(env, visited, path, depth)
    decreases Room(env, depth), 2, 0
  {
    var a := env.abs(path);
    if a !in visited && env.open(a).Some? {
      LinesSameUnderLargerLimit(env, larger, visited + {a}, TextKinds(env.open(a).value), 0, a, depth, None);
    }
  }

  lemma {:induction false} LinesSameUnderLargerLimit(env: Env, larger: Env, visited: set<string>, lines: seq<LineKind>,
                                                     n: nat, file: string, depth: nat, scope: Scope)
    requires larger == env.(maxDepth := larger.maxDepth) && depth <= env.maxDepth <= larger.maxDepth
    requires LineEntries(env, visited, lines, n, file, depth, scope) != Err(DepthExceeded)
    ensures LineEntries(larger, visited, lines, n, file, depth, scope) ==
            LineEntries(env, visited, lines, n, file, depth, scope)
    decreases Room(env, depth), 1, |lines|
  {
    if lines != [] {
      match lines[0]
      case NoKeyword =>
      case BadMatch(_) =>
      case Block(conditions) =>
        LinesSameUnderLargerLimit(env, larger, visited, lines[1..], n + 1, file, depth, conditions);
      case Include(value) =>
        var work, source := Targets(env, Words(value, false, "")), SourceInfo(file, n + 1);
        SameTargets(env, larger, Words(value, false, ""));
        WorkSameUnderLargerLimit(env, larger, visited, work, source, depth);
        if WorkEntries(env, visited, work, source, depth).Ok? {
          LinesSameUnderLargerLimit(env, larger, visited, lines[1..], n + 1, file, depth, scope);
        }
      case _ =>
        LinesSameUnderLargerLimit(env, larger, visited, lines[1..], n + 1, file, depth, scope);
    }
  }

  lemma {:induction false} SameTargets(env: Env, larger: Env, words: seq<string>)
    requires larger == env.(maxDepth := larger.maxDepth)
    ensures Targets(larger, words) == Targets(env, words)
  {
    if words != [] {
      SameTargets(env, larger, words[1..]);
      assert WordTargets(larger, words[0]) == WordTargets(env, words[0]);
    }
  }

  lemma {:induction false} WorkSameUnderLargerLimit(env: Env, larger: Env, visited: set<string>, work: seq<Work>,
                                                    source: SourceInfo, depth: nat)
    requires larger == env.(maxDepth := larger.maxDepth) && depth <= env.maxDepth <= larger.maxDepth
    requires WorkEntries(env, visited, work, source, depth) != Err(DepthExceeded)
    ensures WorkEntries(larger, visited, work, source, depth) == WorkEntries(env, visited, work, source, depth)
    decreases Room(env, depth), 0, |work|
  {
    if work != [] && work[0].ReadFile? {
      FileSameUnderLargerLimit(env, larger, visited, work[0].path, depth + 1);
      if FileEntries(env, visited, work[0].path, depth + 1).Ok? {
        WorkSameUnderLargerLimit(env, larger, visited, work[1..], source, depth);
      }
    }
  }

  /** Two limits that both allow as many levels as there are files give the same parse. */
  lemma LimitIsInvisible(env: Env, readable: set<string>, m: nat, path: string)
    requires Readable(env, readable) && |readable| <= m && |readable| <= env.maxDepth
    ensures ParsedFile(env.(maxDepth := m), path) == ParsedFile(env, path)
  {
    var least := env.(maxDepth := |readable|);
    assert Readable(least, readable);
    FileNeverTooDeep(least, readable, 0, {}, path, 0);
    FileSameUnderLargerLimit(least, env, {}, path, 0);
    FileSameUnderLargerLimit(least, env.(maxDepth := m), {}, path, 0);
  }

  // ---- one file more: a chain that hits the limit ----

  /** The name of the k-th file of the chain. */
  function Link(k: nat): string {
    seq(k + 1, _ => 'f')
  }

  /** Files 0 to `limit`, each including the next. */
  function Chain(limit: nat): Env {
    Env(p => if p != "" && |p| <= limit + 1 && p == Link(|p| - 1)
             then Some(PrintSetting("Include", Link(|p|))) else None,
        p => p, w => Some([w]), limit)
  }

  ghost function Links(k: nat): set<string> {
    set i | 0 <= i < k :: Link(i)
  }

  lemma {:induction false} LinksSize(k: nat)
    ensures |Links(k)| == k
  {
    if k > 0 {
      LinksSize(k - 1);
      NotYetVisited(k - 1, k - 1);
      assert Links(k) == Links(k - 1) + {Link(k - 1)};
    }
  }

  lemma LinksStep(k: nat)
    ensures Links(k) + {Link(k)} == Links(k + 1)
  {
  }

  lemma NotYetVisited(k: nat, m: nat)
    requires m >= k
    ensures Link(m) !in Links(k)
  {
    forall i | 0 <= i < k ensures Link(i) != Link(m) {
      assert |Link(i)| != |Link(m)|;
    }
  }

  lemma IncludeLink(k: nat)
    ensures TextKinds(PrintSetting("Include", Link(k))) == [Include(Link(k))]
  {
    LinkIsPlain(k);
    IncludeWord();
    IncludeLineRoundTrip(Link(k));
    IncludeLineIsOne(Link(k));
  }

  lemma LinkIsPlain(k: nat)
    ensures NoQuote(Link(k)) && '\n' !in Link(k) && NoBlank(Link(k))
  {
  }

  lemma IncludeLineIsOne(w: string)
    requires '\n' !in w
    ensures ScanLines(PrintSetting("Include", w), "") == [PrintSetting("Include", w)]
  {
    assert '\n' !in "Include";
    ScanOneLine(PrintSetting("Include", w));
  }

  lemma LinkWords(k: nat)
    ensures Words(Link(k), false, "") == [Link(k)]
  {
    LinkIsPlain(k);
    WordsPlain(Link(k), "", "");
    assert Link(k) + "" == Link(k) && "" + Link(k) == Link(k);
  }

  /** Reading `path` means including `next` and nothing else. */
  ghost predicate OneInclude(env: Env, path: string, next: string) {
    && env.abs(path) == path && env.expand(next) == Some([next]) && Words(next, false, "") == [next]
    && env.open(path).Some? && TextKinds(env.open(path).value) == [Include(next)]
  }

  ghost predicate Chained(env: Env, limit: nat) {
    env.maxDepth == limit && forall k :: 0 <= k <= limit ==> OneInclude(env, Link(k), Link(k + 1))
  }

  lemma ChainIsChained(limit: nat)
    ensures Chained(Chain(limit), limit)
  {
    forall k | 0 <= k <= limit ensures OneInclude(Chain(limit), Link(k), Link(k + 1)) {
      LinkIncludesNext(limit, k);
    }
  }

  lemma ChainOpens(limit: nat, k: nat)
    requires k <= limit
    ensures Chain(limit).open(Link(k)) == Some(PrintSetting("Include", Link(k + 1)))
  {
    assert |Link(k)| == k + 1;
  }

  lemma ChainNames(limit: nat, w: string)
    ensures Chain(limit).abs(w) == w && Chain(limit).expand(w) == Some([w])
  {
  }

  lemma LinkIncludesNext(limit: nat, k: nat)
    requires k <= limit
    ensures OneInclude(Chain(limit), Link(k), Link(k + 1))
  {
    var env, path, next := Chain(limit), Link(k), Link(k + 1);
    ChainOpens(limit, k);
    ChainNames(limit, path);
    ChainNames(limit, next);
    IncludeLink(k + 1);
    LinkWords(k + 1);
    OneIncludeOf(env, path, next, PrintSetting("Include", next));
  }

  lemma OneIncludeOf(env: Env, path: string, next: string, line: string)
    requires env.abs(path) == path && env.expand(next) == Some([next]) && Words(next, false, "") == [next]
    requires env.open(path) == Some(line) && TextKinds(line) == [Include(next)]
    ensures OneInclude(env, path, next)
  {
  }

  /** Any chain longer than the limit ends in the depth error. */
  lemma {:induction false} ChainIsTooDeep(env: Env, limit: nat, k: nat)
    requires Chained(env, limit) && k <= limit + 1
    ensures FileEntries(env, Links(k), Link(k), k) == Err(DepthExceeded)
    decreases limit + 1 - k
  {
    if k <= limit {
      ChainIsTooDeep(env, limit, k + 1);
      ChainStep(env, limit, k);
    }
  }

  lemma ChainStep(env: Env, limit: nat, k: nat)
    requires Chained(env, limit) && k <= limit
    requires FileEntries(env, Links(k + 1), Link(k + 1), k + 1) == Err(DepthExceeded)
    ensures FileEntries(env, Links(k), Link(k), k) == Err(DepthExceeded)
  {
    assert OneInclude(env, Link(k), Link(k + 1));
    NotYetVisited(k, k);
    LinksStep(k);
    OneIncludeFails(env, Links(k), Link(k), k, Link(k + 1));
  }

  lemma OneIncludeFails(env: Env, visited: set<string>, path: string, depth: nat, next: string)
    requires OneInclude(env, path, next) && path !in visited && depth <= env.maxDepth
    requires FileEntries(env, visited + {path}, next, depth + 1) == Err(DepthExceeded)
    ensures FileEntries(env, visited, path, depth) == Err(DepthExceeded)
  {
    var work := [ReadFile(next)];
    assert WordTargets(env, next) == work;
    assert Targets(env, [next]) == work + Targets(env, []) == work;
    assert WorkEntries(env, visited + {path}, work, SourceInfo(path, 1), depth) == Err(DepthExceeded);
  }

  /** At most `maxDepth` readable files exclude the depth error, for every file system ... */
  lemma FewFilesAreNeverTooDeep(env: Env, readable: set<string>, path: string)
    requires Readable(env, readable) && |readable| <= env.maxDepth
    ensures ParsedFile(env, path) != Err(DepthExceeded)
  {
    FileNeverTooDeep(env, readable, 0, {}, path, 0);
  }

  /** ... and for every limit one more readable file can produce it, so the bound is exact. */
  lemma OneMoreFileIsTooDeep(limit: nat)
    ensures Readable(Chain(limit), Links(limit + 1)) && |Links(limit + 1)| == limit + 1
    ensures Chain(limit).maxDepth == limit
    ensures ParsedFile(Chain(limit), Link(0)) == Err(DepthExceeded)
  {
    LinksSize(limit + 1);
    ChainIsChained(limit);
    ChainIsTooDeep(Chain(limit), limit, 0);
    assert Links(0) == {};
    forall p | Chain(limit).open(p).Some? ensures p in Links(limit + 1) {
      assert p == Link(|p| - 1);
    }
  }

  // ---- the default limit ----

  /** Without a limit of their own, runs read up to 16 files whatever they include, and 17 can be too many. */
  lemma SixteenFiles(env: Env, readable: set<string>, path: string, given: int)
    requires given <= 0
    ensures Readable(env, readable) && |readable| <= 16 ==>
              ParsedFile(env.(maxDepth := EffectiveDepth(given)), path) != Err(DepthExceeded)
    ensures var chain := Chain(16);
            && Readable(chain, Links(17)) && |Links(17)| == 17
            && ParsedFile(chain.(maxDepth := EffectiveDepth(given)), Link(0)) == Err(DepthExceeded)
  {
    if Readable(env, readable) && |readable| <= 16 {
      FewFilesAreNeverTooDeep(env.(maxDepth := EffectiveDepth(given)), readable, path);
    }
    OneMoreFileIsTooDeep(16);
    assert Chain(16).(maxDepth := 16) == Chain(16);
  }

  /** A limit of one's own counts. */
  lemma GivenLimit(given: int)
    requires given > 0
    ensures EffectiveDepth(given) == given
  {
  }
}
