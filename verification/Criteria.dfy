/** The tokenizer and the parser of Match arguments, with the printer they undo. */
module Criteria {
  import opened Text
  import opened Conditions

  // ---- tokens ----

  /** Blank-separated words; double quotes group and are dropped, an empty word disappears. */
  function Words(s: string, inQuote: bool, current: string): seq<string> {
    if s == "" then Emit(current)
    else if s[0] == '"' then Words(s[1..], !inQuote, current)
    else if IsBlank(s[0]) && !inQuote then Emit(current) + Words(s[1..], false, "")
    else Words(s[1..], inQuote, current + [s[0]])
  }

  /** tokenizeMatchArgs */
  method TokenizeMatchArgs(args: string) returns (tokens: seq<string>)
    ensures tokens == Words(args, false, "")
  {
    tokens := [];
    var current, inQuote := "", false;
    for i := 0 to |args|
      invariant Words(args, false, "") == tokens + Words(args[i..], inQuote, current)
    {
      var ch := args[i];
      assert args[i..][0] == ch && args[i..][1..] == args[i + 1..];
      if ch == '"' {
        inQuote := !inQuote;
      } else if ch == ' ' || ch == '\t' {
        if inQuote {
          current := current + [ch];
        } else if |current| > 0 {
          tokens := tokens + [current];
          current := "";
        }
      } else {
        current := current + [ch];
      }
    }
    if |current| > 0 {
      tokens := tokens + [current];
    }
  }

  /** splitUnquoted, the parser's own copy of the same splitter with the branches in another shape. */
  method SplitUnquoted(s: string) returns (result: seq<string>)
    ensures result == Words(s, false, "")
  {
    result := [];
    var current, inQuote := "", false;
    for i := 0 to |s|
      invariant Words(s, false, "") == result + Words(s[i..], inQuote, current)
    {
      var ch := s[i];
      assert s[i..][0] == ch && s[i..][1..] == s[i + 1..];
      if {
        case ch == '"' =>
          inQuote := !inQuote;
        case (ch == ' ' || ch == '\t') && !inQuote =>
          if |current| > 0 {
            result := result + [current];
            current := "";
          }
        case ch != '"' && !((ch == ' ' || ch == '\t') && !inQuote) =>
          current := current + [ch];
      }
    }
    if |current| > 0 {
      result := result + [current];
    }
  }

  predicate NoQuote(s: string) {
    '"' !in s
  }

  predicate NoBlank(s: string) {
    forall i :: 0 <= i < |s| ==> !IsBlank(s[i])
  }

  lemma {:induction false} WordsPlain(w: string, rest: string, current: string)
    requires NoQuote(w) && NoBlank(w)
    ensures Words(w + rest, false, current) == Words(rest, false, current + w)
  {
    if w == "" {
      assert w + rest == rest && current + w == current;
    } else {
      WordsPlain(w[1..], rest, current + [w[0]]);
      assert (w + rest)[1..] == w[1..] + rest;
      assert current + [w[0]] + w[1..] == current + w;
    }
  }

  lemma {:induction false} WordsQuoted(w: string, rest: string, current: string)
    requires NoQuote(w)
    ensures Words(w + rest, true, current) == Words(rest, true, current + w)
  {
    if w == "" {
      assert w + rest == rest && current + w == current;
    } else {
      WordsQuoted(w[1..], rest, current + [w[0]]);
      assert (w + rest)[1..] == w[1..] + rest;
      assert current + [w[0]] + w[1..] == current + w;
    }
  }

  // ---- keywords ----

  datatype CriteriaError = NeedsArgument(keyword: string) | UnknownKeyword(keyword: string)

  /** The criteria keywords that take no argument, those that take one, and everything else. */
  datatype Keyword =
    | Bare(condition: Condition)
    | Exec
    | LocalNetwork
    | Address(side: AddressField)
    | Field(field: MatchField)
    | Unknown

  function BareKeyword(word: string): Keyword {
    if word == "all" then Bare(MatchAll)
    else if word == "canonical" then Bare(MatchCanonical)
    else if word == "final" then Bare(MatchFinal)
    else if word == "invalid-user" then Bare(MatchInvalidUser)
    else Unknown
  }

  function ArgumentKeyword(word: string): Keyword {
    if word == "exec" then Exec
    else if word == "localnetwork" then LocalNetwork
    else if word == "address" then Address(RemoteAddress)
    else if word == "localaddress" then Address(LocalAddress)
    else if word == "host" then Field(FieldHost)
    else if word == "originalhost" then Field(FieldOriginalHost)
    else if word == "user" then Field(FieldUser)
    else if word == "localuser" then Field(FieldLocalUser)
    else if word == "tagged" then Field(FieldTagged)
    else if word == "command" then Field(FieldCommand)
    else if word == "version" then Field(FieldVersion)
    else if word == "sessiontype" then Field(FieldSessionType)
    else if word == "group" then Field(FieldGroup)
    else if word == "localport" then Field(FieldLocalPort)
    else if word == "rdomain" then Field(FieldRDomain)
    else Unknown
  }

  /** The keyword a lower-case word stands for, and whether it carried a '!'. Only a keyword with an
      argument can be negated. */
  function ReadKeyword(word: string): (Keyword, bool) {
    if BareKeyword(word) != Unknown then (BareKeyword(word), false)
    else if word != "" && word[0] == '!' then (ArgumentKeyword(word[1..]), true)
    else (ArgumentKeyword(word), false)
  }

  function MakeCriterion(k: Keyword, negated: bool, arg: string): Condition {
    match k
    case Bare(c) => c
    case Exec => if negated then NegatedCondition(MatchExec(arg)) else MatchExec(arg)
    case LocalNetwork =>
      var c := MatchLocalNetwork(Split(arg, ','));
      if negated then NegatedCondition(c) else c
    case Address(side) => MatchAddressList(side, arg, negated)
    case Field(field) => MatchFieldList(field, arg, negated)
    case Unknown => MatchAll
  }

  /** One criterion at the front of the tokens, with the number of tokens it takes. */
  function NextCriterion(tokens: seq<string>): (r: Result<(Condition, nat), CriteriaError>)
    requires tokens != []
    ensures r.Ok? ==> 1 <= r.value.1 <= |tokens|
  {
    var word := ToLower(tokens[0]);
    var (keyword, negated) := ReadKeyword(word);
    match keyword
    case Unknown => Err(UnknownKeyword(word))
    case Bare(c) => Ok((c, 1))
    case _ =>
      if |tokens| == 1 then Err(NeedsArgument(word))
      else Ok((MakeCriterion(keyword, negated, tokens[1]), 2))
  }

  /** Reads criteria to the end of the tokens, behind those already read. */
  function ParseTokens(tokens: seq<string>, before: seq<Condition>): Result<seq<Condition>, CriteriaError> {
    if tokens == [] then Ok(before)
    else
      match NextCriterion(tokens)
      case Err(e) => Err(e)
      case Ok((c, used)) => ParseTokens(tokens[used..], before + [c])
  }

  /** What a Match line means: the criteria of its argument text. */
  function MatchCriteria(args: string): Result<seq<Condition>, CriteriaError> {
    ParseTokens(Words(args, false, ""), [])
  }

  lemma ParseStep(tokens: seq<string>, i: nat, before: seq<Condition>, c: Condition, used: nat)
    requires i < |tokens| && NextCriterion(tokens[i..]) == Ok((c, used))
    ensures i + used <= |tokens|
    ensures ParseTokens(tokens[i..], before) == ParseTokens(tokens[i + used..], before + [c])
  {
    assert tokens[i..][used..] == tokens[i + used..];
  }

  /** ParseMatchCriteria */
  method ParseMatchCriteria(args: string) returns (r: Result<seq<Condition>, CriteriaError>)
    ensures r == MatchCriteria(args)
  {
    var tokens := TokenizeMatchArgs(args);
    var conditions: seq<Condition> := [];
    var i := 0;
    assert tokens[0..] == tokens;
    while i < |tokens|
      invariant 0 <= i <= |tokens|
      invariant MatchCriteria(args) == ParseTokens(tokens[i..], conditions)
    {
      var next := ReadCriterion(tokens, i);
      if next.Err? { return Err(next.error); }
      var (c, used) := next.value;
      ParseStep(tokens, i, conditions, c, used);
      conditions := conditions + [c];
      i := i + used;
    }
    return Ok(conditions);
  }

  /** The body of the loop of ParseMatchCriteria: dispatch on the keyword, take its argument. */
  method ReadCriterion(tokens: seq<string>, i: nat) returns (r: Result<(Condition, nat), CriteriaError>)
    requires i < |tokens|
    ensures r == NextCriterion(tokens[i..])
  {
    var word := ToLower(tokens[i]);
    assert tokens[i..][0] == tokens[i];
    var (keyword, negated) := ReadKeyword(word);
    match keyword {
      case Unknown => return Err(UnknownKeyword(word));
      case Bare(c) => return Ok((c, 1));
      case _ =>
        if i + 1 >= |tokens| { return Err(NeedsArgument(word)); }
        assert tokens[i..][1] == tokens[i + 1];
        return Ok((MakeCriterion(keyword, negated, tokens[i + 1]), 2));
    }
  }

  lemma MadeIsBuildable(k: Keyword, negated: bool, arg: string)
    requires k.Bare? ==> Buildable(k.condition)
    ensures Buildable(MakeCriterion(k, negated, arg))
  {
  }

  lemma NextIsBuildable(tokens: seq<string>)
    requires tokens != [] && NextCriterion(tokens).Ok?
    ensures Buildable(NextCriterion(tokens).value.0)
  {
    var word := ToLower(tokens[0]);
    BareIsBuildable(word);
    if !ReadKeyword(word).0.Bare? { MadeIsBuildable(ReadKeyword(word).0, ReadKeyword(word).1, tokens[1]); }
  }

  lemma BareIsBuildable(word: string)
    ensures ReadKeyword(word).0.Bare? ==> Buildable(ReadKeyword(word).0.condition)
  {
  }

  /** Everything the criteria parser returns is buildable, so raising pass flags is monotone on it. */
  lemma {:induction false} ParsedAreBuildable(tokens: seq<string>, before: seq<Condition>)
    requires forall c :: c in before ==> Buildable(c)
    ensures ParseTokens(tokens, before).Ok? ==>
              forall c :: c in ParseTokens(tokens, before).value ==> Buildable(c)
    decreases |tokens|
  {
    if tokens != [] && NextCriterion(tokens).Ok? {
      NextIsBuildable(tokens);
      var (c, used) := NextCriterion(tokens).value;
      ParsedAreBuildable(tokens[used..], before + [c]);
    }
  }

  // ---- printing ----

  function FieldName(field: MatchField): string {
    match field
    case FieldHost => "host"
    case FieldOriginalHost => "originalhost"
    case FieldUser => "user"
    case FieldLocalUser => "localuser"
    case FieldTagged => "tagged"
    case FieldCommand => "command"
    case FieldVersion => "version"
    case FieldSessionType => "sessiontype"
    case FieldGroup => "group"
    case FieldLocalPort => "localport"
    case FieldRDomain => "rdomain"
  }

  function KeywordName(k: Keyword): string {
    match k
    case Bare(MatchCanonical) => "canonical"
    case Bare(MatchFinal) => "final"
    case Bare(MatchInvalidUser) => "invalid-user"
    case Bare(_) => "all"
    case Exec => "exec"
    case LocalNetwork => "localnetwork"
    case Address(RemoteAddress) => "address"
    case Address(LocalAddress) => "localaddress"
    case Field(field) => FieldName(field)
    case Unknown => "unknown"
  }

  /** A criterion taken apart: keyword, sign, argument. */
  datatype Parts = Parts(keyword: Keyword, negated: bool, arg: string)

  function PartsOf(c: Condition): Parts {
    match c
    case MatchExec(command) => Parts(Exec, false, command)
    case MatchLocalNetwork(networks) => Parts(LocalNetwork, false, Join(networks, ','))
    case MatchFieldList(field, patterns, negated) => Parts(Field(field), negated, patterns)
    case MatchAddressList(side, patterns, negated) => Parts(Address(side), negated, patterns)
    case NegatedCondition(MatchExec(command)) => Parts(Exec, true, command)
    case NegatedCondition(MatchLocalNetwork(networks)) => Parts(LocalNetwork, true, Join(networks, ','))
    case _ => Parts(Bare(c), false, "")
  }

  /** Conditions a Match line can carry. Arguments are single non-empty quoted words. */
  predicate PrintableArg(arg: string) {
    arg != "" && NoQuote(arg) && '\n' !in arg
  }

  predicate PrintableNetworks(networks: seq<string>) {
    networks != [] && PrintableArg(Join(networks, ',')) && forall n :: n in networks ==> ',' !in n
  }

  predicate PrintableCriterion(c: Condition) {
    match c
    case HostCondition(_) => false
    case MatchExec(command) => PrintableArg(command)
    case MatchLocalNetwork(networks) => PrintableNetworks(networks)
    case MatchFieldList(_, patterns, _) => PrintableArg(patterns)
    case MatchAddressList(_, patterns, _) => PrintableArg(patterns)
    case NegatedCondition(MatchExec(command)) => PrintableArg(command)
    case NegatedCondition(MatchLocalNetwork(networks)) => PrintableNetworks(networks)
    case NegatedCondition(_) => false
    case _ => true
  }

  function Word(p: Parts): string {
    if p.negated then "!" + KeywordName(p.keyword) else KeywordName(p.keyword)
  }

  /** A printed criterion: a bare word, perhaps followed by a quoted argument. */
  datatype Item = Item(word: string, arg: Option<string>)

  function ItemOf(p: Parts): Item {
    Item(Word(p), if p.keyword.Bare? then None else Some(p.arg))
  }

  function Items(cs: seq<Condition>): seq<Item> {
    if cs == [] then [] else [ItemOf(PartsOf(cs[0]))] + Items(cs[1..])
  }

  function PrintItem(item: Item): string {
    match item.arg
    case None => " " + item.word
    case Some(arg) => " " + (item.word + (" \"" + (arg + "\"")))
  }

  function PrintItems(items: seq<Item>): string {
    if items == [] then "" else PrintItem(items[0]) + PrintItems(items[1..])
  }

  function ItemTokens(item: Item): seq<string> {
    match item.arg
    case None => [item.word]
    case Some(arg) => [item.word, arg]
  }

  function TokensOf(items: seq<Item>): seq<string> {
    if items == [] then [] else ItemTokens(items[0]) + TokensOf(items[1..])
  }

  /** The argument text of a Match line: every criterion behind a blank. */
  function PrintCriteria(cs: seq<Condition>): string {
    PrintItems(Items(cs))
  }

  /** A keyword as the printer writes it: lower case letters and '-', perhaps after a '!'. */
  predicate PlainKeyword(w: string) {
    && w != ""
    && forall i :: 0 <= i < |w| ==> 'a' <= w[i] <= 'z' || w[i] == '-' || w[i] == '!'
  }

  lemma PlainIsLower(w: string)
    requires PlainKeyword(w)
    ensures ToLower(w) == w && NoQuote(w) && NoBlank(w)
  {
  }

  /** The keywords a condition can have. */
  predicate Nameable(k: Keyword) {
    k != Unknown && (k.Bare? ==> k.condition in {MatchAll, MatchCanonical, MatchFinal, MatchInvalidUser})
  }

  lemma FieldNameBack(field: MatchField)
    ensures ArgumentKeyword(FieldName(field)) == Field(field)
  {
    match field case _ =>
  }

  lemma FieldNamePlain(field: MatchField)
    ensures PlainKeyword(FieldName(field)) && FieldName(field)[0] != '!'
  {
    match field case _ =>
  }

  lemma FieldNameNotBare(field: MatchField)
    ensures BareKeyword(FieldName(field)) == Unknown
  {
    match field case _ =>
  }

  lemma BareNameBack(k: Keyword)
    requires Nameable(k) && k.Bare?
    ensures PlainKeyword(KeywordName(k)) && KeywordName(k)[0] != '!'
    ensures BareKeyword(KeywordName(k)) == k
  {
  }

  lemma OtherNameBack(k: Keyword)
    requires k.Exec? || k.LocalNetwork? || k.Address?
    ensures PlainKeyword(KeywordName(k)) && KeywordName(k)[0] != '!'
    ensures BareKeyword(KeywordName(k)) == Unknown && ArgumentKeyword(KeywordName(k)) == k
  {
    match k
    case Address(side) => match side { case _ => }
    case _ =>
  }

  /** Every keyword name is read back as the keyword it names. */
  lemma NameBack(k: Keyword)
    requires Nameable(k)
    ensures PlainKeyword(KeywordName(k)) && KeywordName(k)[0] != '!'
    ensures k.Bare? ==> BareKeyword(KeywordName(k)) == k
    ensures !k.Bare? ==> BareKeyword(KeywordName(k)) == Unknown && ArgumentKeyword(KeywordName(k)) == k
  {
    match k
    case Field(field) =>
      FieldNameBack(field);
      FieldNamePlain(field);
      FieldNameNotBare(field);
    case Bare(_) => BareNameBack(k);
    case _ => OtherNameBack(k);
  }

  lemma WordBack(p: Parts)
    requires Nameable(p.keyword) && (p.keyword.Bare? ==> !p.negated)
    ensures PlainKeyword(Word(p))
    ensures ReadKeyword(Word(p)) == (p.keyword, p.negated)
  {
    NameBack(p.keyword);
    if p.negated {
      assert Word(p)[1..] == KeywordName(p.keyword);
      assert Word(p)[0] == '!';
    }
  }

  lemma PartsBack(c: Condition)
    requires PrintableCriterion(c)
    ensures Nameable(PartsOf(c).keyword) && (PartsOf(c).keyword.Bare? ==> !PartsOf(c).negated)
    ensures !PartsOf(c).keyword.Bare? ==> PrintableArg(PartsOf(c).arg)
    ensures MakeCriterion(PartsOf(c).keyword, PartsOf(c).negated, PartsOf(c).arg) == c
  {
    match c
    case MatchLocalNetwork(networks) => SplitJoin(networks, ',');
    case NegatedCondition(MatchLocalNetwork(networks)) => SplitJoin(networks, ',');
    case _ =>
  }

  predicate PlainItem(item: Item) {
    PlainKeyword(item.word) && (item.arg.Some? ==> PrintableArg(item.arg.value))
  }

  lemma ItemBack(c: Condition, rest: seq<string>)
    requires PrintableCriterion(c)
    ensures PlainItem(ItemOf(PartsOf(c)))
    ensures NextCriterion(ItemTokens(ItemOf(PartsOf(c))) + rest) == Ok((c, |ItemTokens(ItemOf(PartsOf(c)))|))
  {
    var p := PartsOf(c);
    PartsBack(c);
    WordBack(p);
    PlainIsLower(Word(p));
    var tokens := ItemTokens(ItemOf(p)) + rest;
    assert tokens[0] == Word(p);
    if !p.keyword.Bare? {
      assert tokens[1] == p.arg;
    }
  }

  /** In front of any further tokens, the item is read as the condition. */
  ghost predicate ReadsAs(item: Item, c: Condition) {
    forall rest :: NextCriterion(ItemTokens(item) + rest) == Ok((c, |ItemTokens(item)|))
  }

  lemma {:induction false} ItemsRead(cs: seq<Condition>)
    requires forall c :: c in cs ==> PrintableCriterion(c)
    ensures |Items(cs)| == |cs|
    ensures forall i :: 0 <= i < |cs| ==> PlainItem(Items(cs)[i]) && ReadsAs(Items(cs)[i], cs[i])
  {
    if cs != [] {
      forall rest ensures NextCriterion(ItemTokens(ItemOf(PartsOf(cs[0]))) + rest) ==
                          Ok((cs[0], |ItemTokens(ItemOf(PartsOf(cs[0])))|)) {
        ItemBack(cs[0], rest);
      }
      ItemBack(cs[0], []);
      ItemsRead(cs[1..]);
    }
  }

  lemma ItemsArePlain(cs: seq<Condition>)
    requires forall c :: c in cs ==> PrintableCriterion(c)
    ensures forall item :: item in Items(cs) ==> PlainItem(item)
  {
    ItemsRead(cs);
  }

  lemma ParseOne(item: Item, c: Condition, rest: seq<string>, before: seq<Condition>)
    requires ReadsAs(item, c)
    ensures ParseTokens(ItemTokens(item) + rest, before) == ParseTokens(rest, before + [c])
  {
    var own := ItemTokens(item);
    assert (own + rest)[|own|..] == rest;
  }

  lemma {:induction false} TokensParse(items: seq<Item>, cs: seq<Condition>, before: seq<Condition>)
    requires |items| == |cs| && forall i :: 0 <= i < |cs| ==> ReadsAs(items[i], cs[i])
    ensures ParseTokens(TokensOf(items), before) == Ok(before + cs)
    decreases |cs|
  {
    if cs == [] {
      assert before + cs == before;
    } else {
      calc {
        ParseTokens(TokensOf(items), before);
        ParseTokens(ItemTokens(items[0]) + TokensOf(items[1..]), before);
        { ParseOne(items[0], cs[0], TokensOf(items[1..]), before); }
        ParseTokens(TokensOf(items[1..]), before + [cs[0]]);
        { TokensParse(items[1..], cs[1..], before + [cs[0]]); }
        Ok(before + [cs[0]] + cs[1..]);
        { assert before + [cs[0]] + cs[1..] == before + cs; }
        Ok(before + cs);
      }
    }
  }

  lemma WordsAfterBlank(rest: string, current: string)
    ensures Words(" " + rest, false, current) == Emit(current) + Words(rest, false, "")
  {
    assert (" " + rest)[1..] == rest;
  }

  lemma WordsAtQuote(rest: string, inQuote: bool, current: string)
    ensures Words("\"" + rest, inQuote, current) == Words(rest, !inQuote, current)
  {
    assert ("\"" + rest)[1..] == rest;
  }

  lemma PrintedArgument(arg: string, rest: string, current: string)
    requires PrintableArg(arg)
    ensures Words(" \"" + (arg + "\"") + rest, false, current) == Emit(current) + Words(rest, false, arg)
  {
    var closing := "\"" + rest;
    calc {
      Words(" \"" + (arg + "\"") + rest, false, current);
      { assert " \"" + (arg + "\"") + rest == " " + ("\"" + (arg + closing)); }
      Words(" " + ("\"" + (arg + closing)), false, current);
      { WordsAfterBlank("\"" + (arg + closing), current); }
      Emit(current) + Words("\"" + (arg + closing), false, "");
      { WordsAtQuote(arg + closing, false, ""); }
      Emit(current) + Words(arg + closing, true, "");
      { WordsQuoted(arg, closing, ""); assert "" + arg == arg; }
      Emit(current) + Words(closing, true, arg);
      { WordsAtQuote(rest, true, arg); }
      Emit(current) + Words(rest, false, arg);
    }
  }

  lemma PrintedWord(word: string, rest: string, current: string)
    requires PlainKeyword(word)
    ensures Words(" " + (word + rest), false, current) == Emit(current) + Words(rest, false, word)
  {
    PlainIsLower(word);
    WordsAfterBlank(word + rest, current);
    WordsPlain(word, rest, "");
    assert "" + word == word;
  }

  lemma PrintedItem(item: Item, rest: string, current: string)
    requires PlainItem(item)
    ensures Words(PrintItem(item) + rest, false, current) ==
            Emit(current) + match item.arg
                            case None => Words(rest, false, item.word)
                            case Some(arg) => [item.word] + Words(rest, false, arg)
  {
    match item.arg
    case None =>
      assert PrintItem(item) + rest == " " + (item.word + rest);
      PrintedWord(item.word, rest, current);
    case Some(arg) =>
      var quoted := " \"" + (arg + "\"") + rest;
      assert PrintItem(item) + rest == " " + (item.word + quoted);
      PrintedWord(item.word, quoted, current);
      PrintedArgument(arg, rest, item.word);
  }

  lemma TwoTokens(word: string, arg: string, rest: seq<string>)
    requires arg != ""
    ensures [word] + (Emit(arg) + rest) == [word, arg] + rest
  {
  }

  lemma {:induction false} PrintedTokens(items: seq<Item>, current: string)
    requires forall item :: item in items ==> PlainItem(item)
    ensures Words(PrintItems(items), false, current) == Emit(current) + TokensOf(items)
  {
    if items != [] {
      var item, rest := items[0], PrintItems(items[1..]);
      assert PlainItem(item);
      PrintedItem(item, rest, current);
      match item.arg
      case None =>
        PrintedTokens(items[1..], item.word);
      case Some(arg) =>
        PrintedTokens(items[1..], arg);
        TwoTokens(item.word, arg, TokensOf(items[1..]));
    }
  }

  lemma WordsBehindBlank(s: string, rest: string)
    requires s == " " + rest
    ensures Words(s, false, "") == Words(rest, false, "")
  {
    WordsAfterBlank(rest, "");
    assert Emit("") + Words(rest, false, "") == Words(rest, false, "");
  }

  lemma PrintedWords(items: seq<Item>)
    requires forall item :: item in items ==> PlainItem(item)
    ensures Words(PrintItems(items), false, "") == TokensOf(items)
  {
    PrintedTokens(items, "");
    assert Emit("") + TokensOf(items) == TokensOf(items);
  }

  lemma PrintedStartsBlank(items: seq<Item>)
    requires items != []
    ensures PrintItems(items) == " " + PrintItems(items)[1..]
  {
    assert PrintItem(items[0])[0] == ' ';
  }

  /** A printed criteria list is read back exactly, negated exec and localnetwork included. */
  lemma CriteriaRoundTrip(cs: seq<Condition>)
    requires forall c :: c in cs ==> PrintableCriterion(c)
    ensures MatchCriteria(PrintCriteria(cs)) == Ok(cs)
    ensures cs != [] ==> MatchCriteria(PrintCriteria(cs)[1..]) == Ok(cs)
  {
    ItemsArePlain(cs);
    ItemsRead(cs);
    TokensParse(Items(cs), cs, []);
    PrintedWords(Items(cs));
    assert [] + cs == cs;
    if cs != [] {
      PrintedStartsBlank(Items(cs));
      WordsBehindBlank(PrintCriteria(cs), PrintCriteria(cs)[1..]);
    }
  }
}
