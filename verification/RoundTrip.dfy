/** Printing a configuration, comments and indentation included, and parsing it back. */
module RoundTrip {
  import opened Text
  import opened PatternList
  import opened Conditions
  import opened Criteria
  import opened Lines
  import opened LineForms
  import opened Parser
  import Options

  type Directive = Options.Directive

  datatype Header = HostHeader(patterns: seq<HostPattern>) | MatchHeader(criteria: seq<Condition>)

  /** A line of a block: an option, perhaps with a comment behind it, or a comment alone. */
  datatype Line =
    | OptionLine(indent: string, option: Directive, comment: Option<string>)
    | CommentLine(indent: string, text: string)

  datatype ConfigBlock = ConfigBlock(header: Header, comment: Option<string>, lines: seq<Line>)

  /** A configuration: lines before any block, then Host and Match blocks. */
  datatype Config = Config(preamble: seq<Line>, blocks: seq<ConfigBlock>)

  // ---- what can be printed ----

  predicate PrintableOption(o: Directive) {
    && PlainWord(o.keyword) && ToLower(o.keyword) !in {"host", "match", "include"}
    && NoQuote(o.value) && '\n' !in o.value
  }

  /** Any text that stays on its line. */
  predicate PrintableComment(c: string) {
    '\n' !in c && (c == "" || c[|c| - 1] != '\r')
  }

  predicate PrintableTrailer(comment: Option<string>) {
    comment.Some? ==> PrintableComment(comment.value)
  }

  predicate PrintableIndent(w: string) {
    AllSpace(w) && '\n' !in w
  }

  predicate PrintableLine(l: Line) {
    match l
    case OptionLine(indent, o, comment) => PrintableIndent(indent) && PrintableOption(o) && PrintableTrailer(comment)
    case CommentLine(indent, text) => PrintableIndent(indent) && PrintableComment(text)
  }

  predicate PrintableHeader(h: Header) {
    match h
    case HostHeader(ps) => PrintableHosts(ps)
    case MatchHeader(cs) => cs != [] && forall c :: c in cs ==> PrintableCriterion(c)
  }

  predicate PrintableBlock(b: ConfigBlock) {
    PrintableHeader(b.header) && PrintableTrailer(b.comment) && forall l :: l in b.lines ==> PrintableLine(l)
  }

  predicate Printable(config: Config) {
    && (forall l :: l in config.preamble ==> PrintableLine(l))
    && (forall b :: b in config.blocks ==> PrintableBlock(b))
  }

  // ---- printing ----

  function Trailer(comment: Option<string>): string {
    match comment
    case None => ""
    case Some(c) => " #" + c
  }

  function PrintLine(l: Line): string {
    match l
    case OptionLine(indent, o, comment) => indent + (PrintSetting(o.keyword, o.value) + Trailer(comment))
    case CommentLine(indent, text) => indent + ("#" + text)
  }

  function HeaderText(h: Header): string {
    match h
    case HostHeader(ps) => PrintSetting("Host", PrintPatterns(ps))
    case MatchHeader(cs) => "Match" + PrintCriteria(cs)
  }

  function BodyLines(lines: seq<Line>): seq<string> {
    if lines == [] then [] else [PrintLine(lines[0])] + BodyLines(lines[1..])
  }

  function BlockLines(blocks: seq<ConfigBlock>): seq<string> {
    if blocks == [] then []
    else [HeaderText(blocks[0].header) + Trailer(blocks[0].comment)]
         + (BodyLines(blocks[0].lines) + BlockLines(blocks[1..]))
  }

  function Print(config: Config): string {
    TextOf(BodyLines(config.preamble) + BlockLines(config.blocks))
  }

  // ---- what the printed text means ----

  function HeaderScope(h: Header): Scope {
    match h
    case HostHeader(ps) => Some([HostCondition(ps)])
    case MatchHeader(cs) => Some(cs)
  }

  /** The entry of a line with the given number: comments have none. */
  function LineEntry(l: Line, scope: Scope, file: string, number: nat): seq<Entry> {
    match l
    case OptionLine(_, o, _) => [Entry(scope, o.keyword, o.value, SourceInfo(file, number))]
    case CommentLine(_, _) => []
  }

  /** The entries of lines printed from the line behind `n` on. */
  function BodyEntries(lines: seq<Line>, scope: Scope, file: string, n: nat): seq<Entry> {
    if lines == [] then []
    else LineEntry(lines[0], scope, file, n + 1) + BodyEntries(lines[1..], scope, file, n + 1)
  }

  function BlockEntries(blocks: seq<ConfigBlock>, file: string, n: nat): seq<Entry> {
    if blocks == [] then []
    else BodyEntries(blocks[0].lines, HeaderScope(blocks[0].header), file, n + 1)
         + BlockEntries(blocks[1..], file, n + 1 + |blocks[0].lines|)
  }

  function ConfigEntries(config: Config, file: string): seq<Entry> {
    BodyEntries(config.preamble, None, file, 0) + BlockEntries(config.blocks, file, |config.preamble|)
  }

  // ---- printed lines are single lines ----

  predicate OneLine(line: string) {
    '\n' !in line && DropReturn(line) == line
  }

  lemma QuotedIsOneLine(keyword: string, value: string)
    requires NoSpace(keyword) && '\n' !in value
    ensures OneLine(PrintSetting(keyword, value))
  {
    var line := PrintSetting(keyword, value);
    assert line[|line| - 1] == '"';
  }

  lemma {:induction false} WordsAreOneLine(words: seq<string>)
    requires forall w :: w in words ==> NoSpace(w)
    ensures '\n' !in Join(words, ' ')
  {
    if |words| > 1 {
      assert forall w :: w in words[1..] ==> w in words;
      WordsAreOneLine(words[1..]);
      assert NoSpace(words[0]);
    } else if |words| == 1 {
      assert NoSpace(words[0]);
    }
  }

  lemma {:induction false} ItemsAreOneLine(items: seq<Item>)
    requires forall item :: item in items ==> PlainItem(item)
    ensures '\n' !in PrintItems(items)
  {
    if items != [] {
      assert PlainItem(items[0]);
      ItemsAreOneLine(items[1..]);
    }
  }

  lemma HeaderIsOneLine(h: Header)
    requires PrintableHeader(h)
    ensures OneLine(HeaderText(h))
  {
    match h
    case HostHeader(ps) =>
      ReadPrinted(ps);
      WordsAreOneLine(PrintWords(ps));
      HostWord();
      QuotedIsOneLine("Host", PrintPatterns(ps));
    case MatchHeader(cs) =>
      MatchWord();
      ItemsArePlain(cs);
      ItemsAreOneLine(Items(cs));
      PrintedItemsEnds(Items(cs));
  }

  lemma CommentIsOneLine(front: string, c: string)
    requires '\n' !in front && PrintableComment(c)
    ensures OneLine(front + ("#" + c))
  {
    var line := front + ("#" + c);
    assert line[|line| - 1] == if c == "" then '#' else c[|c| - 1];
  }

  lemma TrailedIsOneLine(line: string, comment: Option<string>)
    requires OneLine(line) && PrintableTrailer(comment)
    ensures OneLine(line + Trailer(comment))
  {
    match comment
    case None => assert line + "" == line;
    case Some(c) =>
      assert line + (" #" + c) == (line + " ") + ("#" + c);
      CommentIsOneLine(line + " ", c);
  }

  lemma IndentedIsOneLine(indent: string, line: string)
    requires PrintableIndent(indent) && line != "" && OneLine(line)
    ensures OneLine(indent + line)
  {
    assert (indent + line)[|indent + line| - 1] == line[|line| - 1];
  }

  lemma LineIsOneLine(l: Line)
    requires PrintableLine(l)
    ensures OneLine(PrintLine(l))
  {
    match l
    case OptionLine(indent, o, comment) =>
      QuotedIsOneLine(o.keyword, o.value);
      TrailedIsOneLine(PrintSetting(o.keyword, o.value), comment);
      IndentedIsOneLine(indent, PrintSetting(o.keyword, o.value) + Trailer(comment));
    case CommentLine(indent, text) =>
      CommentIsOneLine(indent, text);
  }

  lemma {:induction false} BodyIsOneLine(lines: seq<Line>)
    requires forall l :: l in lines ==> PrintableLine(l)
    ensures forall t :: t in BodyLines(lines) ==> OneLine(t)
  {
    if lines != [] {
      assert PrintableLine(lines[0]);
      LineIsOneLine(lines[0]);
      BodyIsOneLine(lines[1..]);
    }
  }

  lemma {:induction false} BlocksAreOneLine(blocks: seq<ConfigBlock>)
    requires forall b :: b in blocks ==> PrintableBlock(b)
    ensures forall t :: t in BlockLines(blocks) ==> OneLine(t)
  {
    if blocks != [] {
      assert PrintableBlock(blocks[0]);
      HeaderIsOneLine(blocks[0].header);
      TrailedIsOneLine(HeaderText(blocks[0].header), blocks[0].comment);
      BodyIsOneLine(blocks[0].lines);
      BlocksAreOneLine(blocks[1..]);
    }
  }

  // ---- reading them back ----

  lemma SettingIsKept(keyword: string, value: string, rest: string)
    requires PlainWord(keyword) && NoQuote(value)
    ensures Uncommented(PrintSetting(keyword, value) + rest, false) ==
            PrintSetting(keyword, value) + Uncommented(rest, false)
  {
    var quoted := " \"" + (value + ("\"" + rest));
    assert PrintSetting(keyword, value) + rest == keyword + quoted;
    UncommentedWord(keyword, quoted);
    UncommentedQuoted(value, rest);
    assert keyword + (" \"" + (value + ("\"" + Uncommented(rest, false)))) ==
           PrintSetting(keyword, value) + Uncommented(rest, false);
  }

  lemma {:induction false} ItemsAreKept(items: seq<Item>, rest: string)
    requires forall item :: item in items ==> PlainItem(item)
    ensures Uncommented(PrintItems(items) + rest, false) == PrintItems(items) + Uncommented(rest, false)
  {
    if items == [] {
      assert PrintItems(items) + rest == rest && "" + Uncommented(rest, false) == Uncommented(rest, false);
    } else {
      var own, behind := PrintItem(items[0]), PrintItems(items[1..]);
      Assoc(own, behind, rest);
      UncommentedItem(items[0], behind + rest);
      ItemsAreKept(items[1..], rest);
      Assoc(own, behind, Uncommented(rest, false));
    }
  }

  lemma HeaderIsKept(h: Header, rest: string)
    requires PrintableHeader(h)
    ensures Uncommented(HeaderText(h) + rest, false) == HeaderText(h) + Uncommented(rest, false)
  {
    match h
    case HostHeader(ps) =>
      HostWord();
      SettingIsKept("Host", PrintPatterns(ps), rest);
    case MatchHeader(cs) =>
      MatchWord();
      ItemsArePlain(cs);
      ItemsAreKept(Items(cs), rest);
      Assoc("Match", PrintCriteria(cs), rest);
      UncommentedWord("Match", PrintCriteria(cs) + rest);
      Assoc("Match", PrintCriteria(cs), Uncommented(rest, false));
  }

  /** A trailing comment makes no difference. */
  lemma TrailerDropped(line: string, comment: Option<string>)
    requires forall rest :: Uncommented(line + rest, false) == line + Uncommented(rest, false)
    ensures Classify(line + Trailer(comment)) == Classify(line)
  {
    var nothing: string := "";
    assert line + nothing == line && Uncommented(nothing, false) == nothing;
    assert Uncommented(line + nothing, false) == line + Uncommented(nothing, false);
    match comment
    case None =>
    case Some(c) =>
      CutAfterBlank(c);
      assert Uncommented(line + (" #" + c), false) == line + " ";
      TrimSpaceOf(nothing, line, " ");
      assert nothing + (line + " ") == line + " ";
  }

  lemma CutAfterBlank(c: string)
    ensures Uncommented(" #" + c, false) == " "
  {
    assert (" #" + c)[1..] == "#" + c;
    assert Uncommented("#" + c, false) == "";
  }

  lemma HeaderBack(h: Header, comment: Option<string>)
    requires PrintableHeader(h)
    ensures Classify(HeaderText(h) + Trailer(comment)) == Block(HeaderScope(h))
  {
    forall rest ensures Uncommented(HeaderText(h) + rest, false) == HeaderText(h) + Uncommented(rest, false) {
      HeaderIsKept(h, rest);
    }
    TrailerDropped(HeaderText(h), comment);
    match h
    case HostHeader(ps) => HostLineRoundTrip(ps);
    case MatchHeader(cs) => MatchLineRoundTrip(cs);
  }

  function LineKindOf(l: Line): LineKind {
    match l
    case OptionLine(_, o, _) => Setting(o.keyword, o.value)
    case CommentLine(_, _) => Nothing
  }

  lemma LineBack(l: Line)
    requires PrintableLine(l)
    ensures Classify(PrintLine(l)) == LineKindOf(l)
  {
    match l
    case OptionLine(indent, o, comment) =>
      var line := PrintSetting(o.keyword, o.value);
      forall rest ensures Uncommented(line + rest, false) == line + Uncommented(rest, false) {
        SettingIsKept(o.keyword, o.value, rest);
      }
      MarginsDoNotMatter(indent, line + Trailer(comment), "");
      TrailerDropped(line, comment);
      SettingRoundTrip(o.keyword, o.value);
    case CommentLine(indent, text) =>
      CommentLineIsNothing(indent, text);
  }

  // The same lines, as what they do.

  function BodyKinds(lines: seq<Line>): seq<LineKind> {
    if lines == [] then [] else [LineKindOf(lines[0])] + BodyKinds(lines[1..])
  }

  function BlockKinds(blocks: seq<ConfigBlock>): seq<LineKind> {
    if blocks == [] then []
    else [Block(HeaderScope(blocks[0].header))] + (BodyKinds(blocks[0].lines) + BlockKinds(blocks[1..]))
  }

  lemma KindsAppend(a: seq<string>, b: seq<string>)
    ensures Kinds(a + b) == Kinds(a) + Kinds(b)
  {
  }

  lemma KindsOfBlock(header: string, body: seq<string>, rest: seq<string>)
    ensures Kinds([header] + (body + rest)) == [Classify(header)] + (Kinds(body) + Kinds(rest))
  {
    KindsAppend(body, rest);
    KindsAppend([header], body + rest);
  }

  lemma {:induction false} BodyClassified(lines: seq<Line>)
    requires forall l :: l in lines ==> PrintableLine(l)
    ensures Kinds(BodyLines(lines)) == BodyKinds(lines)
  {
    if lines != [] {
      assert PrintableLine(lines[0]);
      LineBack(lines[0]);
      BodyClassified(lines[1..]);
      KindsAppend([PrintLine(lines[0])], BodyLines(lines[1..]));
    }
  }

  lemma {:induction false} BlocksClassified(blocks: seq<ConfigBlock>)
    requires forall b :: b in blocks ==> PrintableBlock(b)
    ensures Kinds(BlockLines(blocks)) == BlockKinds(blocks)
  {
    if blocks != [] {
      assert PrintableBlock(blocks[0]);
      HeaderBack(blocks[0].header, blocks[0].comment);
      BodyClassified(blocks[0].lines);
      BlocksClassified(blocks[1..]);
      KindsOfBlock(HeaderText(blocks[0].header) + Trailer(blocks[0].comment), BodyLines(blocks[0].lines),
                   BlockLines(blocks[1..]));
    }
  }

  /** The lines of a block contribute exactly their options under the scope they stand in. */
  lemma {:induction false} BodyBack(env: Env, lines: seq<Line>, rest: seq<LineKind>,
                                    n: nat, file: string, scope: Scope)
    ensures LineEntries(env, {}, BodyKinds(lines) + rest, n, file, 0, scope) ==
            Then(BodyEntries(lines, scope, file, n), LineEntries(env, {}, rest, n + |lines|, file, 0, scope))
    decreases |lines|
  {
    var last := LineEntries(env, {}, rest, n + |lines|, file, 0, scope);
    var kinds := BodyKinds(lines);
    if lines == [] {
      assert kinds + rest == rest;
      ThenNothing(last);
    } else {
      assert (kinds + rest)[0] == kinds[0] && (kinds + rest)[1..] == BodyKinds(lines[1..]) + rest;
      BodyBack(env, lines[1..], rest, n + 1, file, scope);
      ThenTwice(LineEntry(lines[0], scope, file, n + 1), BodyEntries(lines[1..], scope, file, n + 1), last);
      ThenNothing(Then(BodyEntries(lines[1..], scope, file, n + 1), last));
    }
  }

  lemma {:induction false} BlocksBack(env: Env, blocks: seq<ConfigBlock>, n: nat, file: string, scope: Scope)
    ensures LineEntries(env, {}, BlockKinds(blocks), n, file, 0, scope) == Ok(BlockEntries(blocks, file, n))
    decreases |blocks|
  {
    if blocks != [] {
      var b, rest := blocks[0], BlockKinds(blocks[1..]);
      var kinds := BlockKinds(blocks);
      assert kinds[0] == Block(HeaderScope(b.header)) && kinds[1..] == BodyKinds(b.lines) + rest;
      BodyBack(env, b.lines, rest, n + 1, file, HeaderScope(b.header));
      BlocksBack(env, blocks[1..], n + 1 + |b.lines|, file, HeaderScope(b.header));
    }
  }

  lemma PrintedKinds(config: Config)
    requires Printable(config)
    ensures TextKinds(Print(config)) == BodyKinds(config.preamble) + BlockKinds(config.blocks)
  {
    var lines := BodyLines(config.preamble) + BlockLines(config.blocks);
    BodyIsOneLine(config.preamble);
    BlocksAreOneLine(config.blocks);
    ScanTextOf(lines);
    BodyClassified(config.preamble);
    BlocksClassified(config.blocks);
    KindsAppend(BodyLines(config.preamble), BlockLines(config.blocks));
  }

  /** Parsing a printed configuration returns exactly its options, in order, each with its keyword,
      its value, its line and the conditions of its block. */
  lemma ConfigRoundTrip(env: Env, config: Config, name: string)
    requires Printable(config)
    ensures ParsedText(env, Print(config), name) == Ok(ConfigEntries(config, name))
  {
    PrintedKinds(config);
    KindsBack(env, config, BodyKinds(config.preamble) + BlockKinds(config.blocks), name);
  }

  lemma KindsBack(env: Env, config: Config, kinds: seq<LineKind>, name: string)
    requires kinds == BodyKinds(config.preamble) + BlockKinds(config.blocks)
    ensures LineEntries(env, {}, kinds, 0, name, 0, None) == Ok(ConfigEntries(config, name))
  {
    BodyBack(env, config.preamble, BlockKinds(config.blocks), 0, name, None);
    BlocksBack(env, config.blocks, |config.preamble|, name, None);
  }
}
