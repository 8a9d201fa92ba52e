/** Single configuration lines: comment stripping, the keyword/value split, and what a line means. */
module Lines {
  import opened Text
  import opened PatternList
  import opened Conditions
  import opened Criteria

  // ---- comments ----

  /** The line up to the first '#' outside double quotes. */
  function Uncommented(line: string, inQuote: bool): string {
    if line == "" then ""
    else if line[0] == '"' then [line[0]] + Uncommented(line[1..], !inQuote)
    else if line[0] == '#' && !inQuote then ""
    else [line[0]] + Uncommented(line[1..], inQuote)
  }

  /** stripComment */
  method StripComment(line: string) returns (r: string)
    ensures r == Uncommented(line, false)
  {
    var inQuote := false;
    for i := 0 to |line|
      invariant Uncommented(line, false) == line[..i] + Uncommented(line[i..], inQuote)
    {
      Shift(line[..i], line, i, Uncommented(line[i + 1..], if line[i] == '"' then !inQuote else inQuote));
      if line[i] == '"' {
        inQuote := !inQuote;
      } else if line[i] == '#' {
        if !inQuote { return line[..i]; }
      }
    }
    return line;
  }

  // ---- keyword and value ----

  predicate EndsKeyword(c: char) {
    c == ' ' || c == '\t' || c == '='
  }

  function KeywordOf(line: string): string {
    if line == "" || EndsKeyword(line[0]) then "" else [line[0]] + KeywordOf(line[1..])
  }

  function SkipBlanks(s: string): string {
    if s != "" && IsBlank(s[0]) then SkipBlanks(s[1..]) else s
  }

  function Unquoted(value: string): string {
    if |value| >= 2 && value[0] == '"' && value[|value| - 1] == '"' then value[1..|value| - 1] else value
  }

  /** What follows the separator: an optional '=' among blanks. */
  function AfterSeparator(behind: string): string {
    var s := SkipBlanks(behind);
    if s != "" && s[0] == '=' then SkipBlanks(s[1..]) else s
  }

  lemma {:induction false} KeywordIsPrefix(line: string)
    ensures KeywordOf(line) <= line
  {
    if line != "" && !EndsKeyword(line[0]) { KeywordIsPrefix(line[1..]); }
  }

  function SplitLine(line: string): Option<(string, string)> {
    KeywordIsPrefix(line);
    var keyword := KeywordOf(line);
    if keyword == "" then None else Some((keyword, Unquoted(AfterSeparator(line[|keyword|..]))))
  }

  method KeywordEnd(line: string) returns (i: nat)
    ensures i <= |line| && line[..i] == KeywordOf(line)
  {
    i := 0;
    while i < |line| && line[i] != ' ' && line[i] != '\t' && line[i] != '='
      invariant 0 <= i <= |line|
      invariant KeywordOf(line) == line[..i] + KeywordOf(line[i..])
    {
      Shift(line[..i], line, i, KeywordOf(line[i + 1..]));
      i := i + 1;
    }
  }

  /** parseLine, by indices as the program has it; None is its "empty keyword" error. */
  method ParseLine(line: string) returns (r: Option<(string, string)>)
    ensures r == SplitLine(line)
  {
    var i := KeywordEnd(line);
    if i == 0 { return None; }
    var keyword := line[..i];
    i := SeparatorEnd(line, i);
    if i >= |line| { return Some((keyword, "")); }
    var value := line[i..];
    if |value| >= 2 && value[0] == '"' && value[|value| - 1] == '"' {
      value := value[1..|value| - 1];
    }
    return Some((keyword, value));
  }

  /** Its middle part: blanks, perhaps an '=', and blanks again. */
  method SeparatorEnd(line: string, start: nat) returns (i: nat)
    requires start <= |line|
    ensures i <= |line| && line[i..] == AfterSeparator(line[start..])
  {
    i := BlanksEnd(line, start);
    if i < |line| && line[i] == '=' {
      assert line[i..][1..] == line[i + 1..];
      i := BlanksEnd(line, i + 1);
    }
  }

  method BlanksEnd(line: string, start: nat) returns (i: nat)
    requires start <= |line|
    ensures start <= i <= |line| && line[i..] == SkipBlanks(line[start..])
  {
    i := start;
    while i < |line| && (line[i] == ' ' || line[i] == '\t')
      invariant start <= i <= |line|
      invariant SkipBlanks(line[start..]) == SkipBlanks(line[i..])
    {
      assert line[i..][0] == line[i] && line[i..][1..] == line[i + 1..];
      i := i + 1;
    }
  }

  // ---- the meaning of a line ----

  /** What one line of a configuration file does. `Block` carries the conditions from here on;
      a Match without criteria leaves none. */
  datatype LineKind =
    | Nothing
    | NoKeyword
    | Block(conditions: Option<seq<Condition>>)
    | BadMatch(error: CriteriaError)
    | Include(value: string)
    | Setting(keyword: string, value: string)

  /** The criteria parser appends to a nil slice, so no criteria means nil conditions. */
  function NilIfEmpty(cs: seq<Condition>): Option<seq<Condition>> {
    if cs == [] then None else Some(cs)
  }

  function Dispatch(keyword: string, value: string): LineKind {
    var key := ToLower(keyword);
    if key == "host" then Block(Some([HostCondition(HostPatterns(value))]))
    else if key == "match" then
      match MatchCriteria(value)
      case Ok(cs) => Block(NilIfEmpty(cs))
      case Err(e) => BadMatch(e)
    else if key == "include" then Include(value)
    else Setting(keyword, value)
  }

  function Classify(raw: string): LineKind {
    var line := TrimSpace(Uncommented(raw, false));
    if line == "" then Nothing
    else match SplitLine(line)
      case None => NoKeyword
      case Some((keyword, value)) => Dispatch(keyword, value)
  }

  /** The head of the parser's loop body: from the raw line to what it does. */
  method ReadLine(raw: string) returns (kind: LineKind)
    ensures kind == Classify(raw)
  {
    var line := StripComment(raw);
    line := TrimSpace(line);
    if line == "" { return Nothing; }
    var split := ParseLine(line);
    match split {
      case None => return NoKeyword;
      case Some((keyword, value)) =>
        var key := ToLower(keyword);
        if key == "host" {
          var patterns := ParseHostPatterns(value);
          return Block(Some([HostCondition(patterns)]));
        } else if key == "match" {
          var criteria := ParseMatchCriteria(value);
          match criteria {
            case Ok(cs) => return Block(NilIfEmpty(cs));
            case Err(e) => return BadMatch(e);
          }
        } else if key == "include" {
          return Include(value);
        } else {
          return Setting(keyword, value);
        }
    }
  }

  // ---- printed lines are read back ----

  /** A word that survives in front of a line: no blanks, '=', quotes or comment marks. */
  predicate PlainWord(w: string) {
    && w != "" && NoSpace(w)
    && forall i :: 0 <= i < |w| ==> w[i] != '=' && w[i] != '"' && w[i] != '#'
  }

  lemma {:induction false} UncommentedWord(w: string, rest: string)
    requires forall i :: 0 <= i < |w| ==> w[i] != '"' && w[i] != '#'
    ensures Uncommented(w + rest, false) == w + Uncommented(rest, false)
  {
    if w == "" {
      assert w + rest == rest && w + Uncommented(rest, false) == Uncommented(rest, false);
    } else {
      UncommentedWord(w[1..], rest);
      assert (w + rest)[1..] == w[1..] + rest;
      assert [w[0]] + (w[1..] + Uncommented(rest, false)) == w + Uncommented(rest, false);
    }
  }

  lemma {:induction false} UncommentedInQuotes(v: string, rest: string)
    requires NoQuote(v)
    ensures Uncommented(v + ("\"" + rest), true) == v + ("\"" + Uncommented(rest, false))
  {
    if v == "" {
      assert v + ("\"" + rest) == "\"" + rest && ("\"" + rest)[1..] == rest;
      assert v + ("\"" + Uncommented(rest, false)) == "\"" + Uncommented(rest, false);
    } else {
      UncommentedInQuotes(v[1..], rest);
      assert (v + ("\"" + rest))[1..] == v[1..] + ("\"" + rest);
      assert [v[0]] + (v[1..] + ("\"" + Uncommented(rest, false))) == v + ("\"" + Uncommented(rest, false));
    }
  }

  lemma UncommentedQuoted(v: string, rest: string)
    requires NoQuote(v)
    ensures Uncommented(" \"" + (v + ("\"" + rest)), false) == " \"" + (v + ("\"" + Uncommented(rest, false)))
  {
    UncommentedInQuotes(v, rest);
    var inner := v + ("\"" + rest);
    assert " \"" + inner == " " + ("\"" + inner);
    assert (" " + ("\"" + inner))[1..] == "\"" + inner;
    assert ("\"" + inner)[1..] == inner;
    var done := v + ("\"" + Uncommented(rest, false));
    assert [' '] + (['"'] + done) == " \"" + done;
  }

  lemma TrimIsIdentity(s: string)
    requires s != "" && !IsSpace(s[0]) && !IsSpace(s[|s| - 1])
    ensures TrimSpace(s) == s
  {
  }

  lemma {:induction false} KeywordOfWord(w: string, rest: string)
    requires forall i :: 0 <= i < |w| ==> !EndsKeyword(w[i])
    requires rest != "" && EndsKeyword(rest[0])
    ensures KeywordOf(w + rest) == w
  {
    if w == "" {
      assert w + rest == rest;
    } else {
      KeywordOfWord(w[1..], rest);
      assert (w + rest)[1..] == w[1..] + rest;
    }
  }

  /** keyword, blank, value in double quotes. */
  function PrintSetting(keyword: string, value: string): string {
    keyword + (" \"" + (value + "\""))
  }

  lemma QuotedLineSurvives(keyword: string, value: string)
    requires PlainWord(keyword) && NoQuote(value)
    ensures TrimSpace(Uncommented(PrintSetting(keyword, value), false)) == PrintSetting(keyword, value)
  {
    UncommentedWord(keyword, " \"" + (value + "\""));
    UncommentedQuoted(value, "");
    assert value + ("\"" + "") == value + "\"";
    TrimIsIdentity(PrintSetting(keyword, value));
  }

  lemma QuotedValue(value: string)
    ensures Unquoted(AfterSeparator(" \"" + (value + "\""))) == value
  {
    var quoted := "\"" + (value + "\"");
    var behind := " \"" + (value + "\"");
    assert behind[1..] == quoted;
    assert SkipBlanks(behind) == SkipBlanks(quoted) == quoted;
    assert quoted[1..|quoted| - 1] == value;
  }

  lemma QuotedLineSplits(keyword: string, value: string)
    requires PlainWord(keyword)
    ensures SplitLine(PrintSetting(keyword, value)) == Some((keyword, value))
  {
    var line, behind := PrintSetting(keyword, value), " \"" + (value + "\"");
    KeywordOfWord(keyword, behind);
    assert line[|keyword|..] == behind;
    QuotedValue(value);
  }

  lemma SettingRoundTrip(keyword: string, value: string)
    requires PlainWord(keyword) && NoQuote(value)
    requires ToLower(keyword) !in {"host", "match", "include"}
    ensures Classify(PrintSetting(keyword, value)) == Setting(keyword, value)
  {
    QuotedLineSurvives(keyword, value);
    QuotedLineSplits(keyword, value);
  }

  lemma HostWord()
    ensures PlainWord("Host") && ToLower("Host") == "host"
  {
  }

  lemma IncludeWord()
    ensures PlainWord("Include") && ToLower("Include") == "include"
  {
  }

  lemma IncludeLineRoundTrip(value: string)
    requires NoQuote(value)
    ensures Classify(PrintSetting("Include", value)) == Include(value)
  {
    IncludeWord();
    QuotedLineSurvives("Include", value);
    QuotedLineSplits("Include", value);
  }

  predicate PrintableHosts(ps: seq<HostPattern>) {
    NoQuote(PrintPatterns(ps)) && forall p :: p in ps ==> PrintablePattern(p)
  }

  lemma HostLineRoundTrip(ps: seq<HostPattern>)
    requires PrintableHosts(ps)
    ensures Classify(PrintSetting("Host", PrintPatterns(ps))) == Block(Some([HostCondition(ps)]))
  {
    HostWord();
    QuotedLineSurvives("Host", PrintPatterns(ps));
    QuotedLineSplits("Host", PrintPatterns(ps));
    HostPatternsRoundTrip(ps);
  }

  lemma {:induction false} UncommentedItems(items: seq<Item>)
    requires forall item :: item in items ==> PlainItem(item)
    ensures Uncommented(PrintItems(items), false) == PrintItems(items)
  {
    if items != [] {
      UncommentedItems(items[1..]);
      UncommentedItem(items[0], PrintItems(items[1..]));
    }
  }

  lemma UncommentedItem(item: Item, rest: string)
    requires PlainItem(item)
    ensures Uncommented(PrintItem(item) + rest, false) == PrintItem(item) + Uncommented(rest, false)
  {
    var word := " " + item.word;
    match item.arg
    case None =>
      UncommentedWord(word, rest);
    case Some(arg) =>
      var quoted := " \"" + (arg + ("\"" + rest));
      assert PrintItem(item) + rest == word + quoted;
      UncommentedWord(word, quoted);
      UncommentedQuoted(arg, rest);
      assert word + (" \"" + (arg + ("\"" + Uncommented(rest, false)))) == PrintItem(item) + Uncommented(rest, false);
  }

  lemma PrintedItemEnds(item: Item)
    requires PlainItem(item)
    ensures |PrintItem(item)| > 1 && PrintItem(item)[0] == ' '
    ensures !IsBlank(PrintItem(item)[1]) && PrintItem(item)[1] !in {'=', '"'}
    ensures !IsSpace(PrintItem(item)[|PrintItem(item)| - 1])
  {
    assert PrintItem(item)[1] == item.word[0];
  }

  lemma {:induction false} PrintedItemsEnds(items: seq<Item>)
    requires items != [] && forall item :: item in items ==> PlainItem(item)
    ensures |PrintItems(items)| > 1 && PrintItems(items)[0] == ' '
    ensures !IsBlank(PrintItems(items)[1]) && PrintItems(items)[1] !in {'=', '"'}
    ensures !IsSpace(PrintItems(items)[|PrintItems(items)| - 1])
  {
    var own, rest := PrintItem(items[0]), PrintItems(items[1..]);
    PrintedItemEnds(items[0]);
    if items[1..] != [] {
      PrintedItemsEnds(items[1..]);
    } else {
      assert own + rest == own;
    }
  }

  lemma MatchWord()
    ensures PlainWord("Match") && ToLower("Match") == "match"
  {
  }

  lemma MatchLineSplits(args: string)
    requires |args| > 1 && args[0] == ' ' && !IsBlank(args[1]) && args[1] !in {'=', '"'}
    ensures SplitLine("Match" + args) == Some(("Match", args[1..]))
  {
    MatchWord();
    KeywordOfWord("Match", args);
    assert ("Match" + args)[|"Match"|..] == args;
    assert SkipBlanks(args) == SkipBlanks(args[1..]) == args[1..];
  }

  lemma MatchLineRoundTrip(cs: seq<Condition>)
    requires cs != [] && forall c :: c in cs ==> PrintableCriterion(c)
    ensures Classify("Match" + PrintCriteria(cs)) == Block(Some(cs))
  {
    var args := PrintCriteria(cs);
    ItemsArePlain(cs);
    MatchWord();
    UncommentedItems(Items(cs));
    UncommentedWord("Match", args);
    PrintedItemsEnds(Items(cs));
    TrimIsIdentity("Match" + args);
    MatchLineSplits(args);
    CriteriaRoundTrip(cs);
  }

  // ---- text and lines ----

  function DropReturn(line: string): string {
    if line != "" && line[|line| - 1] == '\r' then line[..|line| - 1] else line
  }

  /** bufio.ScanLines over a whole text, the line being read in `current`. */
  function ScanLines(text: string, current: string): seq<string> {
    if text == "" then (if current == "" then [] else [DropReturn(current)])
    else if text[0] == '\n' then [DropReturn(current)] + ScanLines(text[1..], "")
    else ScanLines(text[1..], current + [text[0]])
  }

  function TextOf(lines: seq<string>): string {
    if lines == [] then "" else lines[0] + ("\n" + TextOf(lines[1..]))
  }

  lemma {:induction false} ScanWord(w: string, rest: string, current: string)
    requires '\n' !in w
    ensures ScanLines(w + rest, current) == ScanLines(rest, current + w)
  {
    if w == "" {
      assert w + rest == rest && current + w == current;
    } else {
      ScanWord(w[1..], rest, current + [w[0]]);
      assert (w + rest)[1..] == w[1..] + rest;
      assert current + [w[0]] + w[1..] == current + w;
    }
  }

  lemma ScanOneLine(line: string)
    requires line != "" && '\n' !in line && DropReturn(line) == line
    ensures ScanLines(line, "") == [line]
  {
    ScanWord(line, "", "");
    assert line + "" == line && "" + line == line;
  }

  lemma {:induction false} ScanTextOf(lines: seq<string>)
    requires forall l :: l in lines ==> '\n' !in l && DropReturn(l) == l
    ensures ScanLines(TextOf(lines), "") == lines
  {
    if lines != [] {
      var rest := "\n" + TextOf(lines[1..]);
      ScanWord(lines[0], rest, "");
      assert "" + lines[0] == lines[0];
      assert rest[1..] == TextOf(lines[1..]);
      ScanTextOf(lines[1..]);
    }
  }
}
