/** What each Match criterion asks, from its keyword to the context. */
module CriteriaMeaning {
  import opened Text
  import opened Glob
  import opened PatternList
  import opened Conditions
  import opened Criteria

  /** A criterion as it stands in a Match line. */
  function Alone(word: string): string {
    PrintItem(Item(word, None))
  }

  function With(word: string, arg: string): string {
    PrintItem(Item(word, Some(arg)))
  }

  /** The Match line is read, and holds in the context exactly as said. */
  predicate Means(o: Outside, ctx: MatchContext, args: string, holds: bool) {
    match MatchCriteria(args)
    case Ok(cs) => AllHold(o, Some(cs), ctx) == holds
    case Err(_) => false
  }

  lemma OneCriterion(o: Outside, ctx: MatchContext, c: Condition, item: Item)
    requires PrintableCriterion(c) && ItemOf(PartsOf(c)) == item
    ensures Means(o, ctx, PrintItem(item), Holds(o, c, ctx))
  {
    CriteriaRoundTrip([c]);
    assert Items([c]) == [item] + Items([]) == [item] by { assert [c][1..] == []; }
    assert PrintItems([item]) == PrintItem(item) + "" == PrintItem(item) by { assert [item][1..] == []; }
  }

  /** all, canonical, final, invalid-user. */
  lemma BareMeans(o: Outside, ctx: MatchContext)
    ensures Means(o, ctx, Alone("all"), true)
    ensures Means(o, ctx, Alone("canonical"), ctx.isCanonical)
    ensures Means(o, ctx, Alone("final"), ctx.isFinal)
    ensures Means(o, ctx, Alone("invalid-user"), ctx.invalidUser)
  {
    OneCriterion(o, ctx, MatchAll, Item("all", None));
    OneCriterion(o, ctx, MatchCanonical, Item("canonical", None));
    OneCriterion(o, ctx, MatchFinal, Item("final", None));
    OneCriterion(o, ctx, MatchInvalidUser, Item("invalid-user", None));
  }

  /** The value is selected, or with a '!' in front of the keyword it is not. */
  predicate Asks(o: Outside, ctx: MatchContext, word: string, arg: string, holds: bool) {
    Means(o, ctx, With(word, arg), holds) && Means(o, ctx, With("!" + word, arg), !holds)
  }

  lemma BothAsk(o: Outside, ctx: MatchContext, c: Condition, d: Condition, word: string, arg: string, holds: bool)
    requires PrintableCriterion(c) && ItemOf(PartsOf(c)) == Item(word, Some(arg)) && Holds(o, c, ctx) == holds
    requires PrintableCriterion(d) && ItemOf(PartsOf(d)) == Item("!" + word, Some(arg)) && Holds(o, d, ctx) == !holds
    ensures Asks(o, ctx, word, arg, holds)
  {
    OneCriterion(o, ctx, c, Item(word, Some(arg)));
    OneCriterion(o, ctx, d, Item("!" + word, Some(arg)));
  }

  lemma FieldAsks(o: Outside, ctx: MatchContext, field: MatchField, arg: string, word: string, value: string)
    requires PrintableArg(arg) && field != FieldGroup && FieldName(field) == word && FieldValue(field, ctx) == value
    ensures Asks(o, ctx, word, arg, Selects(Clauses(arg), value))
  {
    BothAsk(o, ctx, MatchFieldList(field, arg, false), MatchFieldList(field, arg, true), word, arg,
            Selects(Clauses(arg), value));
  }

  /** The value of the context a keyword stands for. */
  function ValueAsked(word: string, ctx: MatchContext): Option<string> {
    if word == "host" then Some(ctx.host)
    else if word == "originalhost" then Some(ctx.originalHost)
    else if word == "user" then Some(ctx.user)
    else if word == "localuser" then Some(ctx.localUser)
    else if word == "tagged" then Some(ctx.tag)
    else if word == "command" then Some(ctx.command)
    else if word == "version" then Some(ctx.version)
    else if word == "sessiontype" then Some(ctx.sessionType)
    else if word == "localport" then Some(ctx.localPort)
    else if word == "rdomain" then Some(ctx.rdomain)
    else None
  }

  /** The criteria on a value of the context hold when the list selects it. */
  lemma ValuesAsk(o: Outside, ctx: MatchContext, word: string, arg: string)
    requires PrintableArg(arg) && ValueAsked(word, ctx).Some?
    ensures Asks(o, ctx, word, arg, Selects(Clauses(arg), ValueAsked(word, ctx).value))
  {
    var field := FieldFor(word, ctx);
    FieldAsks(o, ctx, field, arg, word, ValueAsked(word, ctx).value);
  }

  lemma FieldFor(word: string, ctx: MatchContext) returns (field: MatchField)
    requires ValueAsked(word, ctx).Some?
    ensures field != FieldGroup && FieldName(field) == word && FieldValue(field, ctx) == ValueAsked(word, ctx).value
  {
    if word == "host" { field := FieldHost; }
    else if word == "originalhost" { field := FieldOriginalHost; }
    else if word == "user" { field := FieldUser; }
    else if word == "localuser" { field := FieldLocalUser; }
    else if word == "tagged" { field := FieldTagged; }
    else if word == "command" { field := FieldCommand; }
    else if word == "version" { field := FieldVersion; }
    else if word == "sessiontype" { field := FieldSessionType; }
    else if word == "localport" { field := FieldLocalPort; }
    else { field := FieldRDomain; }
  }

  /** Some group is selected. */
  lemma GroupAsks(o: Outside, ctx: MatchContext, arg: string)
    requires PrintableArg(arg)
    ensures Asks(o, ctx, "group", arg, exists i :: 0 <= i < |ctx.groups| && Selects(Clauses(arg), ctx.groups[i]))
  {
    BothAsk(o, ctx, MatchFieldList(FieldGroup, arg, false), MatchFieldList(FieldGroup, arg, true), "group", arg,
            exists i :: 0 <= i < |ctx.groups| && Selects(Clauses(arg), ctx.groups[i]));
  }

  /** The command succeeds, which it never does without a hook. */
  lemma ExecAsks(o: Outside, ctx: MatchContext, command: string)
    requires PrintableArg(command)
    ensures Asks(o, ctx, "exec", command, o.exec.Some? && o.exec.value(command))
  {
    BothAsk(o, ctx, MatchExec(command), NegatedCondition(MatchExec(command)), "exec", command,
            o.exec.Some? && o.exec.value(command));
  }

  predicate LocalIn(o: Outside, ctx: MatchContext, networks: seq<string>) {
    exists i, j :: 0 <= i < |networks| && 0 <= j < |ctx.localAddresses|
                   && o.inNetwork(networks[i], ctx.localAddresses[j])
  }

  /** Some local address lies in some listed network. */
  lemma NetworkAsks(o: Outside, ctx: MatchContext, networks: seq<string>)
    requires PrintableNetworks(networks)
    ensures Asks(o, ctx, "localnetwork", Join(networks, ','), LocalIn(o, ctx, networks))
  {
    NetworkHolds(o, ctx, networks);
    BothAsk(o, ctx, MatchLocalNetwork(networks), NegatedCondition(MatchLocalNetwork(networks)), "localnetwork",
            Join(networks, ','), LocalIn(o, ctx, networks));
  }

  lemma NetworkHolds(o: Outside, ctx: MatchContext, networks: seq<string>)
    ensures Holds(o, MatchLocalNetwork(networks), ctx) == LocalIn(o, ctx, networks)
  {
  }

  // ---- addresses ----

  /** One element of an address list, against a known address in a network and else against the text. */
  predicate Fits(o: Outside, pattern: string, text: string, ip: Option<IP>) {
    ('/' in pattern && ip.Some? && o.inNetwork(pattern, ip.value))
    || (('/' !in pattern || ip.None?) && Matches(pattern, text))
  }

  predicate SomeFits(o: Outside, arg: string, negated: bool, text: string, ip: Option<IP>) {
    var ps := Clauses(arg);
    exists i :: 0 <= i < |ps| && ps[i].negated == negated && Fits(o, ps[i].pattern, text, ip)
  }

  /** Some element fits and no negated one does; with a '!' in front of the keyword, none fits at all. */
  predicate AddressMeans(o: Outside, ctx: MatchContext, word: string, arg: string, text: string, ip: Option<IP>) {
    && Means(o, ctx, With(word, arg), !SomeFits(o, arg, true, text, ip) && SomeFits(o, arg, false, text, ip))
    && Means(o, ctx, With("!" + word, arg), !SomeFits(o, arg, true, text, ip) && !SomeFits(o, arg, false, text, ip))
  }

  lemma AddressAsks(o: Outside, ctx: MatchContext, side: AddressField, arg: string, word: string,
                    text: string, ip: Option<IP>)
    requires PrintableArg(arg) && KeywordName(Address(side)) == word
    requires side.RemoteAddress? ==> text == ctx.remoteAddr && ip == ctx.remoteIP
    requires side.LocalAddress? ==> text == ctx.localAddr && ip == ctx.localIP
    ensures AddressMeans(o, ctx, word, arg, text, ip)
  {
    OneCriterion(o, ctx, MatchAddressList(side, arg, false), Item(word, Some(arg)));
    OneCriterion(o, ctx, MatchAddressList(side, arg, true), Item("!" + word, Some(arg)));
    SameHits(o, arg, true, text, ip);
    SameHits(o, arg, false, text, ip);
  }

  lemma SameHits(o: Outside, arg: string, negated: bool, text: string, ip: Option<IP>)
    ensures SomeFits(o, arg, negated, text, ip) == AddressHit(o, Clauses(arg), negated, text, ip)
  {
    forall pattern ensures Fits(o, pattern, text, ip) == AddressFits(o, pattern, text, ip) {
    }
  }

  /** The two address criteria, for the remote and the local end. */
  lemma RemoteAddressAsks(o: Outside, ctx: MatchContext, arg: string)
    requires PrintableArg(arg)
    ensures AddressMeans(o, ctx, "address", arg, ctx.remoteAddr, ctx.remoteIP)
  {
    AddressAsks(o, ctx, RemoteAddress, arg, "address", ctx.remoteAddr, ctx.remoteIP);
  }

  lemma LocalAddressAsks(o: Outside, ctx: MatchContext, arg: string)
    requires PrintableArg(arg)
    ensures AddressMeans(o, ctx, "localaddress", arg, ctx.localAddr, ctx.localIP)
  {
    AddressAsks(o, ctx, LocalAddress, arg, "localaddress", ctx.localAddr, ctx.localIP);
  }

  // ---- the case of keywords, and errors ----

  lemma LowerTwice(s: string)
    ensures ToLower(ToLower(s)) == ToLower(s)
  {
    var t := ToLower(s);
    forall i | 0 <= i < |s| ensures ToLower(t)[i] == t[i] {
      assert t[i] == Lower(s[i]);
    }
  }

  /** The case of a criterion keyword makes no difference. */
  lemma KeywordCase(word: string, rest: seq<string>)
    ensures NextCriterion([word] + rest) == NextCriterion([ToLower(word)] + rest)
  {
    LowerTwice(word);
    if rest != [] {
      assert ([word] + rest)[1] == rest[0] && ([ToLower(word)] + rest)[1] == rest[0];
    }
  }

  lemma {:induction false} TokensParseThen(items: seq<Item>, cs: seq<Condition>, before: seq<Condition>,
                                           rest: seq<string>)
    requires |items| == |cs| && forall i :: 0 <= i < |cs| ==> ReadsAs(items[i], cs[i])
    ensures ParseTokens(TokensOf(items) + rest, before) == ParseTokens(rest, before + cs)
    decreases |cs|
  {
    if cs == [] {
      assert before + cs == before && TokensOf(items) + rest == rest;
    } else {
      var c, behind := cs[0], TokensOf(items[1..]) + rest;
      FirstItem(items, rest);
      ParseOne(items[0], c, behind, before);
      TokensParseThen(items[1..], cs[1..], before + [c], rest);
      FirstOf(before, cs);
    }
  }

  lemma FirstItem(items: seq<Item>, rest: seq<string>)
    requires items != []
    ensures TokensOf(items) + rest == ItemTokens(items[0]) + (TokensOf(items[1..]) + rest)
  {
    Assoc(ItemTokens(items[0]), TokensOf(items[1..]), rest);
  }

  lemma FirstOf(before: seq<Condition>, cs: seq<Condition>)
    requires cs != []
    ensures before + [cs[0]] + cs[1..] == before + cs
  {
  }

  lemma {:induction false} TokensAppend(items: seq<Item>, last: Item)
    ensures TokensOf(items + [last]) == TokensOf(items) + ItemTokens(last)
    ensures PrintItems(items + [last]) == PrintItems(items) + PrintItem(last)
  {
    if items == [] {
      assert items + [last] == [last] && [last][1..] == [];
      assert ItemTokens(last) + [] == ItemTokens(last) && PrintItem(last) + "" == PrintItem(last);
    } else {
      assert (items + [last])[0] == items[0] && (items + [last])[1..] == items[1..] + [last];
      TokensAppend(items[1..], last);
      Assoc(ItemTokens(items[0]), TokensOf(items[1..]), ItemTokens(last));
      Assoc(PrintItem(items[0]), PrintItems(items[1..]), PrintItem(last));
    }
  }

  /** A lone word behind any criteria. */
  lemma WordBehind(cs: seq<Condition>, word: string)
    requires PlainKeyword(word) && forall c :: c in cs ==> PrintableCriterion(c)
    ensures MatchCriteria(PrintCriteria(cs) + Alone(word)) == ParseTokens([word], cs)
  {
    var items, last := Items(cs), Item(word, None);
    ItemsRead(cs);
    ItemsArePlain(cs);
    TokensAppend(items, last);
    PrintedWords(items + [last]);
    TokensParseThen(items, cs, [], [word]);
    assert [] + cs == cs;
  }

  predicate TakesNoArgument(word: string) {
    word == "all" || word == "canonical" || word == "final" || word == "invalid-user"
  }

  predicate TakesOne(word: string) {
    || word == "exec" || word == "localnetwork" || word == "address" || word == "localaddress"
    || word == "host" || word == "originalhost" || word == "user" || word == "localuser" || word == "tagged"
    || word == "command" || word == "version" || word == "sessiontype" || word == "group"
    || word == "localport" || word == "rdomain"
  }

  /** Behind any criteria, a keyword that takes an argument and has none fails, with or without a '!', and so
      does every word that is no keyword; a '!' in front of a keyword without argument makes it none. */
  lemma CriteriaFailIff(cs: seq<Condition>, word: string)
    requires PlainKeyword(word) && forall c :: c in cs ==> PrintableCriterion(c)
    ensures var r := MatchCriteria(PrintCriteria(cs) + Alone(word));
            var positive := if word[0] == '!' then word[1..] else word;
            && (TakesNoArgument(word) <==> r.Ok?)
            && (TakesOne(positive) <==> r == Err(NeedsArgument(word)))
            && (!TakesNoArgument(word) && !TakesOne(positive) <==> r == Err(UnknownKeyword(word)))
  {
    WordBehind(cs, word);
    PlainIsLower(word);
    LoneWord(word);
    assert [word][1..] == [];
  }

  lemma LoneWord(word: string)
    requires PlainKeyword(word) && ToLower(word) == word
    ensures var positive := if word[0] == '!' then word[1..] else word;
            && (TakesNoArgument(word) <==> NextCriterion([word]).Ok?)
            && (TakesOne(positive) <==> NextCriterion([word]) == Err(NeedsArgument(word)))
            && (!TakesNoArgument(word) && !TakesOne(positive) <==> NextCriterion([word]) == Err(UnknownKeyword(word)))
            && (NextCriterion([word]).Ok? ==> NextCriterion([word]).value.1 == 1)
  {
    BareWordsIff(word);
    ArgumentWordsIff(if word[0] == '!' then word[1..] else word);
    NoKeywordIsBoth(word);
  }

  lemma BareWordsIff(word: string)
    ensures BareKeyword(word) != Unknown <==> TakesNoArgument(word)
    ensures BareKeyword(word).Bare? || BareKeyword(word).Unknown?
    ensures BareKeyword(word) != Unknown ==> word[0] != '!'
  {
  }

  lemma ArgumentWordsIff(word: string)
    ensures ArgumentKeyword(word) != Unknown <==> TakesOne(word)
    ensures !ArgumentKeyword(word).Bare?
  {
  }

  lemma NoKeywordIsBoth(word: string)
    ensures TakesNoArgument(word) ==> !TakesOne(word)
  {
  }

  // ---- separators and quotes ----

  /** A word as it can stand in a list: plain, or in double quotes when it holds blanks. */
  function Worded(w: string, quoted: bool): string {
    if quoted then "\"" + (w + "\"") else w
  }

  /** Blanks and tabs only. */
  predicate Separator(s: string) {
    s != "" && forall i :: 0 <= i < |s| ==> s[i] == ' ' || s[i] == '\t'
  }

  lemma {:induction false} SeparatorSkipped(s: string, rest: string)
    requires forall i :: 0 <= i < |s| ==> s[i] == ' ' || s[i] == '\t'
    ensures Words(s + rest, false, "") == Words(rest, false, "")
  {
    if s == "" {
      assert s + rest == rest;
    } else {
      assert (s + rest)[0] == s[0] && (s + rest)[1..] == s[1..] + rest;
      SeparatorSkipped(s[1..], rest);
      assert [] + Words(rest, false, "") == Words(rest, false, "");
    }
  }

  lemma SeparatorEnds(w: string, s: string, rest: string)
    requires w != "" && Separator(s)
    ensures Words(s + rest, false, w) == [w] + Words(rest, false, "")
  {
    assert (s + rest)[0] == s[0] && (s + rest)[1..] == s[1..] + rest;
    SeparatorSkipped(s[1..], rest);
  }

  lemma WordedRead(w: string, quoted: bool, rest: string)
    requires NoQuote(w) && (quoted || NoBlank(w))
    ensures Words(Worded(w, quoted) + rest, false, "") == Words(rest, false, w)
  {
    assert "" + w == w;
    if quoted {
      var closing := "\"" + rest;
      assert Worded(w, quoted) + rest == "\"" + (w + closing);
      WordsAtQuote(w + closing, false, "");
      WordsQuoted(w, closing, "");
      WordsAtQuote(rest, true, w);
    } else {
      WordsPlain(w, rest, "");
    }
  }

  function Separated(ws: seq<string>, quoted: bool, s: string): string {
    if ws == [] then "" else Worded(ws[0], quoted) + (s + Separated(ws[1..], quoted, s))
  }

  /** Words separated by any run of blanks and tabs are read back, with blanks inside when they are quoted. */
  lemma {:induction false} SeparatedWordsRead(ws: seq<string>, quoted: bool, s: string)
    requires Separator(s) && forall w :: w in ws ==> w != "" && NoQuote(w) && (quoted || NoBlank(w))
    ensures Words(Separated(ws, quoted, s), false, "") == ws
  {
    if ws != [] {
      var w, rest := ws[0], Separated(ws[1..], quoted, s);
      assert w in ws;
      Assoc(Worded(w, quoted), s, rest);
      WordedRead(w, quoted, s + rest);
      SeparatorEnds(w, s, rest);
      assert forall v :: v in ws[1..] ==> v in ws;
      SeparatedWordsRead(ws[1..], quoted, s);
    }
  }
}
