# A verified model of the sshconf configuration engine

sshconf reads OpenSSH configuration files, resolves the options of a host, parses ssh command lines and
runs the protocol-side state machines of an SSH client and server. This project models the parts with the
most branching and state in Dafny and proves what they promise for every input, every run or every
interleaving.

`dafny verify dfyconfig.toml` checks everything.

## Shape of the model

| file | part of the program |
|---|---|
| `Text.dfy` | ASCII classification, splitting and joining, subsequences |
| `Glob.dfy`, `PatternList.dfy`, `Conditions.dfy` | the three glob matchers, lists with negation, Host and Match conditions |
| `Criteria.dfy`, `CriteriaMeaning.dfy`, `Lines.dfy`, `LineForms.dfy`, `Parser.dfy` | Match arguments and what they ask, lines and the forms they can have, the recursive parser with its visited set |
| `IncludeDepth.dfy`, `Scoping.dfy`, `RoundTrip.dfy` | when the depth limit shows, which block an entry belongs to, printing and parsing back |
| `Options.dfy`, `MergeLaw.dfy` | applying directives, merging, the homomorphism law |
| `Override.dfy`, `PathExpansion.dfy`, `Resolve.dfy`, `ResolveLaws.dfy`, `PassLaws.dfy` | `-o` options, expansion of paths, resolution from its sources to the result, and what it leaves in every field |
| `Args.dfy`, `FlagMeaning.dfy`, `Bundling.dfy`, `Consumption.dfy`, `ForwardSpec.dfy` | the command-line parser, what each flag does to the options, bundled flags, the use of every argument, forward specifications through two parsers |
| `Escape.dfy`, `Session.dfy`, `SessionMeaning.dfy`, `Forwarder.dfy` | the escape transducer, the session request loop and what each request does, the registry of remote forwards |
| `Decimal.dfy`, `ListOp.dfy`, `Token.dfy` | itoa and time values, algorithm lists, %-tokens |

Loops that update variables are methods with loops, proved equal to a function of their inputs; objects whose
fields change (`Parser`, `OptionSet`, `CLIArgs`, `EscapeReader`, `ChannelExitReporter`,
`DefaultTcpForwarder`) are classes. What the source promises is then proved about those functions.

A Go string is a sequence of bytes; here a byte is one `char`, and case and white space are the ASCII ones.
Several things are parameters: the keyword table (a map from keyword to handler kind and field) and the
defaults; the file system (`Parser.Env`: reading a file, absolute paths, the sorted files an Include word
denotes); exec hooks and network membership (`Conditions.Outside`); the host canonicalizer; what the machine says of
itself, the expansion of a leading tilde and the connection hash (`Resolve.Machine`); what a launcher
and a subsystem handler do; what `net.Listen` returns. They are total and deterministic, and nothing else is
assumed about them.

## What the code does that its documentation or a reader may not expect

- Lists gathered in the first pass are gathered again in the final one, so entries repeat
  (`ResolvedPlainList`).
- `Match` without criteria leaves nil conditions, so a block's entries can take the conditions of an
  including block (`Lines.NilIfEmpty`, `BlockScoping`). A block in an included file replaces
  the conditions of the including file.
- `!address` is the complement of `address` exactly when no negated clause of the list matches
  (`NegatedAddressIsComplementIff`).
- An algorithm list without an operator keeps its duplicates, against the comment on `ApplyListOp`
  (`ResultDistinctIff`).
- `port:[v6::address]:hostport` and `bind:port:[v6::address]:hostport` are not rewritten correctly: an IPv6
  target is lost without a bracketed bind address (`BracketedTargetAloneRecoveredIff`,
  `BracketedTargetWithBindRecoveredIff`). `:host:port` with an empty listen port is not either
  (`ThreePartsRecoveredIff`).
- `itoa` renders the smallest 64-bit integer as "-" (`Itoa`, `ItoaReadsBackIff`).
- Splitting `-x-` would give `-x --`, which means something else (`SplitFlagIff`); behind a flag that still
  waits for its argument, or behind a positional, splitting a bundle does change the meaning (`SplitsHereIff`).
- "none" for IdentityFile and a removal in SendEnv reach only the current pass, so the merge law fails for
  these two lists in exactly the cases `OtherListsLawIff` names. For all other fields an IgnoreUnknown in the
  first list is what can break it (`MergeLawIff`, `IgnoreUnknownBreaksTheLaw`).
- `-o "SetEnv A=b"` is taken apart at the "=", not at the blank (`BlankFormIff`).
- A resolved host name is expanded with itself as the remote host, which differs from the expansion with
  another host exactly when it mentions %h (`HostnameExpansionIff`, `OwnHostTokenIff`): "%h.example.com" becomes
  "%h.example.com.example.com" (`OwnHostToken`). All tokens are expanded there, against the comment at
  `pkg/sshclient/resolve.go:350`.
- A time value wraps silently once it exceeds 64 bits (`ExactIff`, `TimeRoundTripIff`).
- A one-byte buffer loses the byte behind an unrecognised escape (`OneByteBuffer`), and a newline begins a
  line exactly when no escape or disconnect swallows it (`NewlineBeginsLineIff`).
- Doubling an escape byte is undone for every escape byte except 0, CR, LF, '.' and '?' (`DoublingIsUndoneIff`).
- A subsystem with a command but no launcher is accepted and then exits with status 1 (`Session.Final`).

## Model

| member | source | states |
|---|---|---|
| Glob.MatchesIffCut | pkg/sshconfig/pattern.go:5-11 | the glob relation holds exactly when the value can be cut into one fitting piece for each pattern character |
| Glob.MatchPattern | pkg/sshconfig/pattern.go:12-47 | the backtracking matcher decides the glob relation |
| Glob.MatchGlob | pkg/session/match.go:15-44 | the second matcher, which drops one star at a time, decides the same relation |
| Glob.MatchEnvPattern | pkg/sshserver/default_session.go:367-398 | the third matcher decides the same relation |
| Glob.ConcatIff | pkg/sshconfig/pattern.go:12-47 | a concatenated pattern matches exactly the values that split into a match of each part |
| Glob.CollapseKeepsMeaning | pkg/sshconfig/pattern.go:16-22 | writing every run of stars as one star does not change what a pattern matches |
| Glob.LiteralMatchesItself | pkg/sshconfig/pattern.go:38-46 | a pattern without wildcards matches itself only |
| PatternList.MatchPatternList | pkg/sshconfig/pattern.go:58-79 | with its early return it decides "some positive pattern matches and no negated one does" |
| PatternList.MatchHostPatterns | pkg/sshconfig/match.go:12-23 | the same for Host patterns |
| PatternList.PatternListOrderFree | pkg/sshconfig/pattern.go:49-57 | permuting or repeating the elements of a list does not change what it matches |
| PatternList.SelectsOrderFree | pkg/sshconfig/match.go:8-11 | Host pattern lists with the same members match the same hosts |
| PatternList.ParseHostPatterns | pkg/sshconfig/match.go:184-198 | the patterns of a Host line, a lone "!" dropped |
| PatternList.HostPatternsRoundTrip | pkg/sshconfig/match.go:184-198 | printed Host patterns are read back exactly |
| PatternList.ClausesRoundTrip | pkg/sshconfig/pattern.go:59-70 | a printed list is read back with every sign and pattern, whatever white space stands around the commas |
| Conditions.MatchGroups | pkg/sshconfig/match.go:64-76 | a group criterion holds when some group is selected, or none under negation |
| Conditions.MatchNetworks | pkg/sshconfig/match.go:44-60 | some local address lies in some listed network |
| Conditions.MatchAddress | pkg/sshconfig/match.go:115-161 | no negated clause hits, and a positive one does or, under negation, does not |
| Conditions.Match | pkg/sshconfig/match.go:12-166 | every kind of condition decides its order-free meaning |
| Conditions.EvaluateConditions | pkg/sshconfig/match.go:168-180 | all conditions hold; an absent list always does |
| Conditions.ListsHoldTogether | pkg/sshconfig/match.go:168-180 | conditions hold together when each part does, and none always hold |
| Conditions.NegatedAddressIsComplementIff | pkg/sshconfig/match.go:150-160 | `!address` is the complement of `address` exactly when no negated clause hits |
| Conditions.RaisingFlagsKeepsMatches | pkg/sshconfig/match.go:29-35 | setting the canonical or final flag never makes a parser-built condition list stop matching |
| Criteria.TokenizeMatchArgs | pkg/sshconfig/match.go:384-409 | splits at blanks outside double quotes, dropping quotes and empty words |
| Criteria.SplitUnquoted | pkg/sshconfig/parser.go:250-273 | the parser's own splitter computes the same function |
| Criteria.ParseMatchCriteria | pkg/sshconfig/match.go:200-344 | reads the criteria left to right, failing on an unknown keyword or a missing argument |
| Criteria.ParsedAreBuildable | pkg/sshconfig/match.go:278-340 | only exec and localnetwork conditions are ever wrapped in a negation |
| Criteria.NameBack | pkg/sshconfig/match.go:355-382 | every criterion keyword names exactly its own kind |
| Criteria.CriteriaRoundTrip | pkg/sshconfig/match.go:207-344 | printed criteria are parsed back to the same condition list, negated ones included |
| CriteriaMeaning.BareMeans | pkg/sshconfig/match.go:25-35 | all, canonical, final and invalid-user ask for what they say |
| CriteriaMeaning.ValuesAsk | pkg/sshconfig/match.go:78-108 | each keyword on a value asks whether the list selects that value of the context, and with "!" whether it does not |
| CriteriaMeaning.GroupAsks | pkg/sshconfig/match.go:62-76 | group asks for some selected group |
| CriteriaMeaning.ExecAsks | pkg/sshconfig/match.go:37-42 | exec asks whether the command succeeds, never without a hook |
| CriteriaMeaning.NetworkAsks | pkg/sshconfig/match.go:44-60 | localnetwork asks for a local address in a listed network |
| CriteriaMeaning.RemoteAddressAsks | pkg/sshconfig/match.go:111-161 | address asks for a fitting element and no fitting negated one, and with "!" for no fitting element at all |
| CriteriaMeaning.LocalAddressAsks | pkg/sshconfig/match.go:111-161 | the same for localaddress |
| CriteriaMeaning.KeywordCase | pkg/sshconfig/match.go:213 | the case of a criterion keyword makes no difference |
| CriteriaMeaning.CriteriaFailIff | pkg/sshconfig/match.go:229-340 | behind any criteria, exactly which lone words are criteria, which lack an argument and which are unknown |
| CriteriaMeaning.SeparatedWordsRead | pkg/sshconfig/parser.go:250-273 | words separated by any blanks and tabs are read back, with blanks inside when quoted |
| Lines.StripComment | pkg/sshconfig/parser.go:234-248 | cuts at the first "#" outside double quotes |
| Lines.ParseLine | pkg/sshconfig/parser.go:195-232 | keyword, optional "=", value without its outer quotes; an empty keyword is an error |
| Lines.ReadLine | pkg/sshconfig/parser.go:86-131 | from a raw line to what it does: nothing, a block, an include, a setting or an error |
| Lines.SettingRoundTrip | pkg/sshconfig/parser.go:198-248 | a keyword with a quoted value is read back, whatever the value without quotes contains |
| Lines.HostLineRoundTrip | pkg/sshconfig/parser.go:100-103 | a printed Host line opens the block it was printed from |
| Lines.MatchLineRoundTrip | pkg/sshconfig/parser.go:105-114 | a printed Match line opens the block it was printed from |
| Lines.IncludeLineRoundTrip | pkg/sshconfig/parser.go:116-117 | a printed Include line is read back as that Include |
| Lines.ScanTextOf | pkg/sshconfig/parser.go:76-83 | scanning newline-terminated lines gives the lines back |
| LineForms.CommentIsCut | pkg/sshconfig/parser.go:234-248 | a "#" outside double quotes and everything behind it are cut, so a line means what it means without its comment |
| LineForms.QuotedMarkIsKept | pkg/sshconfig/parser.go:238-246 | inside double quotes it is kept |
| LineForms.NothingIff | pkg/sshconfig/parser.go:86-91 | exactly the lines of white space and comments do nothing |
| LineForms.CommentLineIsNothing | pkg/sshconfig/parser.go:86-91 | an indented comment does nothing |
| LineForms.MarginsDoNotMatter | pkg/sshconfig/parser.go:88 | indentation and trailing white space make no difference |
| LineForms.BlankSeparated | pkg/sshconfig/parser.go:209-231 | keyword and value with any blanks and tabs between them |
| LineForms.EqualsSeparated | pkg/sshconfig/parser.go:209-231 | keyword and value with an "=" among any blanks between them |
| LineForms.KeywordOnly | pkg/sshconfig/parser.go:220-222 | a keyword alone has the empty value |
| LineForms.CaseDoesNotMatter | pkg/sshconfig/parser.go:98-100 | the case of Host, Match and Include makes no difference |
| LineForms.NoKeywordIff | pkg/sshconfig/parser.go:204-206 | exactly the lines that start with "=" have no keyword |
| Parser.Parser.ParseFile | pkg/sshconfig/parser.go:50-73 | entered with exactly `depth` visited files (one less under ParseString), which are there again on every return; a file being read already gives nothing |
| Parser.Parser.ParseReader | pkg/sshconfig/parser.go:75-146 | the loop over lines computes the entries under the conditions in force, and restores the visited set |
| Parser.Parser.HandleInclude | pkg/sshconfig/parser.go:148-193 | the entries of all files of all words in order, one level deeper, from one and the same visited set |
| Parser.Parser.ReadFiles | pkg/sshconfig/parser.go:176-189 | the files of one word in order, stopping at the first error |
| Parser.Parser.InheritConditions | pkg/sshconfig/parser.go:121-127 | only entries without conditions take the including block's |
| Parser.WorkAppend | pkg/sshconfig/parser.go:148-193 | Include targets are processed one after the other, each from the same visited set |
| Parser.TargetsInOrder | pkg/sshconfig/parser.go:150-153 | the words of an Include are expanded in order |
| Parser.OneWordTargets | pkg/sshconfig/parser.go:173-189 | the files of one word are read in the order given |
| Parser.DiamondExpandsTwice | pkg/sshconfig/parser.go:60-64 | a file reached twice by siblings is expanded twice |
| Parser.ParseFile | pkg/sshconfig/parser.go:14-19 | a run from a file starts at depth 0 with nothing visited |
| Parser.ParseString | pkg/sshconfig/parser.go:21-25 | a run from a string starts at depth 0 with nothing visited |
| IncludeDepth.FewFilesAreNeverTooDeep | pkg/sshconfig/parser.go:50-64 | with at most `maxDepth` readable files the depth error is unreachable, whatever the cycles |
| IncludeDepth.OneMoreFileIsTooDeep | pkg/sshconfig/parser.go:51-53 | for every limit, one more readable file can reach it, so the bound is exact |
| IncludeDepth.FileNeverTooDeep | pkg/sshconfig/parser.go:50-73 | the same from any point of a run, also for runs that start at a string |
| IncludeDepth.FileSameUnderLargerLimit | pkg/sshconfig/parser.go:50-53 | a result other than the depth error does not depend on the limit |
| IncludeDepth.LimitIsInvisible | pkg/sshconfig/parser.go:33-37 | limits at or above the number of files all give the same parse |
| IncludeDepth.SixteenFiles | pkg/sshconfig/parser.go:12 | without a limit of their own, runs never fail on 16 readable files, and can on 17 |
| IncludeDepth.GivenLimit | pkg/sshconfig/parser.go:34-37 | a positive limit of one's own counts |
| Scoping.BlockScoping | pkg/sshconfig/parser.go:100-138 | every entry has the conditions of its nearest enclosing block that has any, its own file first, for any nesting |
| Scoping.FileScoping | pkg/sshconfig/parser.go:121-127 | the same for an included file under any stack of enclosing blocks |
| Scoping.FileBuildable | pkg/sshconfig/parser.go:100-138 | every parsed entry carries conditions of the shapes the criteria parser builds |
| RoundTrip.ConfigRoundTrip | pkg/sshconfig/parser.go:75-146 | parsing a printed list of Host and Match blocks, with indentation, comment lines and trailing comments, returns exactly its options in order, with keyword, value, line and conditions |
| RoundTrip.BodyBack | pkg/sshconfig/parser.go:129-137 | the lines of a block contribute exactly the entries of its options under the conditions they stand in |
| Options.OptionSet.SetBool | pkg/sshclient/apply.go:48-61 | the first valid value wins; other texts are ignored |
| Options.OptionSet.SetInt | pkg/sshclient/apply.go:63-73 | the first valid integer wins |
| Options.OptionSet.AddIgnored | pkg/sshclient/keyword.go:248-260 | the non-empty lower-case patterns of the value join the ignored set |
| Options.OptionSet.Dispatch | pkg/sshclient/keyword.go:155-260 | what each kind of handler does to scalars, lists and the ignored set; only an empty forward is rejected |
| Options.OptionSet.ApplyDirective | pkg/sshclient/apply.go:11-39 | an exact ignored name suppresses even known keywords, a wildcard only unknown ones; errors change nothing |
| Options.IgnoreUnknownMeans | pkg/sshclient/apply.go:14-39 | after an IgnoreUnknown, exactly which directives are dropped, which are errors and which are applied |
| Options.NoForwardIff | pkg/sshclient/apply.go:81-85 | exactly the blank values have no forward |
| Options.SwitchTexts | pkg/sshclient/apply.go:53-60 | exactly the texts of a switch, in any case |
| Options.WordsTaken | pkg/sshclient/keyword.go:188-245 | lists set once, ChannelTimeout and SendEnv take all words of their value in order |
| Options.WordRemoves | pkg/sshclient/apply.go:130-139 | a word with a dash removes exactly the names its pattern matches |
| Options.AppendSendEnv | pkg/sshclient/apply.go:124-145 | words are added, "-pattern" removes what it matches among those so far |
| Options.KeepUnmatched | pkg/sshclient/apply.go:130-139 | what one removal spares, in order |
| MergeLaw.ApplyAllRuns | pkg/sshclient/apply.go:14-39 | a directive list is its first error or the run of its effective handlers |
| MergeLaw.RunScalar | pkg/sshclient/keyword.go:156-198 | a scalar is the first valid value |
| MergeLaw.RunPlainList | pkg/sshclient/keyword.go:179-186 | an append-only list is everything appended, in order |
| MergeLaw.MergeLawIff | pkg/sshclient/resolve.go:372-663 | applying A and then B equals merging the two results, errors included, on every scalar and append-only list, exactly when A fails or what A ignores changes neither B's error nor any value B shows |
| MergeLaw.MergeIsHomomorphism | pkg/sshclient/resolve.go:226-239 | in particular when A's IgnoreUnknown suppresses no directive of B |
| MergeLaw.IgnoreFreeLeavesUntouched | pkg/sshclient/apply.go:17-33 | a list without IgnoreUnknown suppresses nothing, so it always meets that condition |
| MergeLaw.IgnoreUnknownBreaksTheLaw | pkg/sshclient/apply.go:17-20 | a concrete pair of lists for which the law fails: an ignored known keyword is set by the merge but not by the run |
| MergeLaw.OtherListsLawIff | pkg/sshclient/keyword.go:205-239 | for IdentityFile the law holds exactly when A leaves it empty or B has no "none"; for SendEnv exactly when B removes nothing A sends |
| MergeLaw.IdentityFileLawIff | pkg/sshclient/keyword.go:205-213 | the IdentityFile half over handler runs |
| MergeLaw.SendEnvLawIff | pkg/sshclient/apply.go:124-145 | the SendEnv half over handler runs |
| Resolve.RunNormalPass | pkg/sshclient/resolve.go:173-198 | the first pass with its moving context, stopping at the first error |
| Resolve.RunFixedPass | pkg/sshclient/resolve.go:226-237 | a later pass applies the entries that match a fixed context to fresh options |
| Resolve.GatherEntries | pkg/sshclient/resolve.go:97-149 | the entries of flags, `-o` options, user file and system file in this order, or the first error |
| Resolve.RunLaterPasses | pkg/sshclient/resolve.go:214-254 | the canonical pass when there is a canonical name, and the final pass, each merged in |
| Resolve.RunPasses | pkg/sshclient/resolve.go:151-274 | the three passes with names, merges, port, defaults, cleared forwardings and refusal |
| Resolve.RunResolve | pkg/sshclient/resolve.go:72-305 | the whole resolution, from the lookup and the sources to the expanded options |
| ResolveLaws.ResolvedScalar | pkg/sshclient/resolve.go:173-262 | every scalar but Hostname, User and Port is the first valid value over the three passes in order, else its default |
| ResolveLaws.ResolvedNames | pkg/sshclient/resolve.go:200-259 | a canonical name wins over everything, otherwise only the first pass sets host name and user; a command-line port wins over everything |
| ResolveLaws.ResolvedPlainList | pkg/sshclient/resolve.go:643-652 | every append-only list is the exact concatenation of what the passes append; forwardings are dropped when asked for |
| ResolveLaws.ResolvedIdentityFile | pkg/sshclient/keyword.go:205-213 | the three passes' IdentityFile lists in a row, "none" clearing within its pass only, else the defaults |
| ResolveLaws.ResolvedSendEnv | pkg/sshclient/resolve.go:648 | SendEnv is the three passes' lists in a row, a removal reaching its own pass only |
| ResolveLaws.ResolutionScalar | pkg/sshclient/resolve.go:276-304 | path expansion keeps which fields are set and changes each value by itself |
| ResolveLaws.CommandLineWins | pkg/sshclient/resolve.go:64-71 | a scalar set on the command line is resolved to that value whatever the files say; a canonical name and the lookup's port are the only exceptions |
| PassLaws.CanonicalPassIff | pkg/sshclient/resolve.go:214-254 | the canonical pass runs exactly when the first pass's first valid CanonicalizeHostname is "yes" or "always" and the canonicalizer has a name; that name is then the host name and the name the later passes match; otherwise the result is the first and final runs alone |
| PassLaws.RefusedIff | pkg/sshclient/resolve.go:271-274 | once the passes run through, resolution is refused exactly when RefuseConnection has a value, with that value |
| PassLaws.ContextFollows | pkg/sshclient/resolve.go:192-197 | before every entry the context's user and tag are the first valid ones so far, behind the lookup's user and in front of its tag |
| PassLaws.StartSees | pkg/sshclient/resolve.go:75-95 | what the first entry sees, with the fallbacks of original host, local user, version and port |
| PassLaws.UserFileWins | pkg/sshclient/resolve.go:64-71 | what the user's file sets unconditionally wins over the system's file |
| PassLaws.FlagsComeFirst | pkg/sshclient/resolve.go:97-104 | the directives of the flags come first, as they are |
| PassLaws.SourcesMean | pkg/sshclient/resolve.go:97-149 | the entries of all sources in order, or the error of the first source that fails |
| PassLaws.AbsentFilesSayNothing | pkg/sshclient/resolve.go:115-142 | without the two files only the command line counts |
| PassLaws.TokensMean | pkg/sshclient/resolve.go:276-299 | what every token stands for in a resolved path |
| Override.ParseOverrides | pkg/sshclient/override.go:9-32 | every option becomes an unconditional entry with its number, or the first wrong one is reported |
| Override.OverridesFailIff | pkg/sshclient/override.go:14-18 | overrides are read exactly when each is right; otherwise the first wrong one is reported by its number |
| Override.EqualsForm | pkg/sshconfig/helpers.go:190-199 | keyword=value is taken apart at its first "=" whatever the value contains |
| Override.BlankFormIff | pkg/sshconfig/helpers.go:201-210 | keyword and value around a blank are recovered exactly when the value has no "=" |
| PathExpansion.SplitFields | pkg/sshconfig/helpers.go:77-97 | the non-empty fields between blanks and tabs |
| PathExpansion.ExpandPathList | pkg/sshclient/resolve.go:356-370 | the fields with their tildes expanded, joined by single blanks |
| PathExpansion.PathListOfJoin | pkg/sshclient/resolve.go:356-370 | a list of blank-free paths is expanded path by path |
| PathExpansion.ExpandPathTokens | pkg/sshclient/resolve.go:307-354 | the steps over one object expand every field of the list once, and nothing else |
| PathExpansion.FieldsMean | pkg/sshclient/resolve.go:308-353 | which fields get tokens, tildes or both, and where "none" and nothing stay |
| PathExpansion.ListsMean | pkg/sshclient/resolve.go:316-330 | IdentityFile and CertificateFile are expanded item by item, other lists are left alone |
| PathExpansion.DoubledComesBack | pkg/sshclient/resolve.go:342-353 | proxies and host names with doubled percent signs come out as written, in every context |
| PathExpansion.OwnHostTokenIff | pkg/sshclient/resolve.go:277-278 | expanding a host name with itself in place of another host gives something else exactly when the two differ and it mentions %h |
| ResolveLaws.OwnHostname | pkg/sshclient/resolve.go:276-353 | the resolved host name is the expansion of the unexpanded one in the context built from it |
| ResolveLaws.HostnameExpansionIff | pkg/sshclient/resolve.go:276-353 | the resolved host name is its expansion with a given host exactly when it is that host or mentions no %h |
| ResolveLaws.TraceIsThePass | pkg/sshclient/resolve.go:173-198 | the first pass is its trace of contexts: entry by entry it decides what is applied |
| ResolveLaws.ContextSettles | pkg/sshclient/resolve.go:181-197 | in the first pass the host never changes, and user and tag change at most once each |
| ResolveLaws.HostBlockAllOrNothing | pkg/sshclient/resolve.go:185-191 | a Host block is decided by the lookup's host alone, wherever the pass stands, so its entries apply together |
| ResolveLaws.ParsedEntriesAreBuildable | pkg/sshconfig/match.go:278-340 | the entries of any configuration file meet the condition of the two lemmas below |
| ResolveLaws.RaisedMatchesMore | pkg/sshclient/resolve.go:243-253 | raising pass flags only adds matching directives |
| ResolveLaws.FinalPassRepeatsTheFirst | pkg/sshclient/resolve.go:243-254 | without canonicalization, and with user and tag as they began, what the first pass applied is a subsequence of what the final one applies |
| Bundling.ArgumentIsKeptIff | pkg/sshclient/args.go:247-384 | nothing of a flag's argument is lost: two arguments leave the same fields exactly when they are equal or, for -L and -R, are rewritten to the same forward |
| Args.CLIArgs.ParseWord | pkg/sshclient/args.go:166-389 | the inner loop with both indices moving: fields, arguments left and error of one word |
| Args.CLIArgs.Parse | pkg/sshclient/args.go:146-393 | the two-level loop ends and computes the parse of the argument list |
| FlagMeaning.BareFlagMeans | pkg/sshclient/args.go:189-229 | through parser and keyword table, each flag without argument sets exactly the options it stands for |
| FlagMeaning.TextFlagMeans | pkg/sshclient/args.go:247-384 | so does each flag whose argument is taken as it is; the others of that kind give no option |
| FlagMeaning.PathFlagsMean | pkg/sshclient/args.go:291-357 | -J and -S set the proxy jump and the control path |
| FlagMeaning.ForwardFlagsMean | pkg/sshclient/args.go:297-351 | -L and -R append exactly the forward of their argument to LocalForward and RemoteForward and leave everything else alone |
| FlagMeaning.DynamicFlagMeans | pkg/sshclient/args.go:266-271 | -D appends to DynamicForward |
| FlagMeaning.IdentityFlagMeans | pkg/sshclient/args.go:285-290 | -i appends to IdentityFile, and "none" empties it |
| FlagMeaning.PortFlagMeans | pkg/sshclient/args.go:333-339 | -p sets the port when its argument is a number |
| FlagMeaning.SwitchFlagFields | pkg/sshclient/args.go:210-235 | the record field -N, -s, -T, -G and -V set |
| FlagMeaning.CountFlagFields | pkg/sshclient/args.go:236-245 | the record field -y, -q, -v and -t set |
| FlagMeaning.NamedFlagFields | pkg/sshclient/args.go:278-332 | the record field -I, -l, -O, -o and -P set |
| FlagMeaning.FiledFlagFields | pkg/sshclient/args.go:333-384 | the record field -p, -Q, -W, -E and -F set |
| FlagMeaning.OtherFlagFields | pkg/sshclient/args.go:191-226 | the other flags without argument set no field |
| FlagMeaning.OtherArgumentFields | pkg/sshclient/args.go:248-370 | the other flags with an argument set no field |
| FlagMeaning.UnknownLetter | pkg/sshclient/args.go:386-387 | every other letter is an error and does nothing |
| FlagMeaning.MissingArgument | pkg/sshclient/args.go:181-186 | a flag without the argument it needs is an error and does nothing |
| FlagMeaning.RestKept | pkg/sshclient/args.go:401-403 | with options only, positionals go to the rest in order |
| FlagMeaning.HostKept | pkg/sshclient/args.go:404-409 | with a host, the first one becomes the destination if there is none, the others the rest |
| FlagMeaning.CommandKept | pkg/sshclient/args.go:410-415 | with a command, the others become the command |
| FlagMeaning.DashesEnd | pkg/sshclient/args.go:155-159 | "--" ends the options |
| FlagMeaning.WordEnds | pkg/sshclient/args.go:161-164 | so do "-" and a word without a dash, positional themselves |
| Consumption.EveryArgumentUsedOnce | pkg/sshclient/args.go:149-393 | what the parser makes of the words, in order, concatenates to exactly the argument list up to a wrong word, does to the fields what parsing does, and leaves nothing exactly when parsing succeeds |
| Bundling.SplitFlagIff | pkg/sshclient/args.go:161-175 | `-xyz` means `-x -yz` for a flag x without argument, exactly unless the second word would be `--` |
| Bundling.SplitArgument | pkg/sshclient/args.go:173-187 | `-oVAL` means `-o VAL`, also at the end of a bundle |
| Bundling.ParsedAfter | pkg/sshclient/args.go:149-187 | what follows is parsed from where the arguments before it leave the parser |
| Bundling.SplitsHereIff | pkg/sshclient/args.go:149-187 | the surroundings in which splitting off a flag is always harmless, and those in which splitting off an argument is, are both exactly these: nothing pending and no positional read, or parsing has failed |
| Bundling.UnbundleKeepsMeaning | pkg/sshclient/args.go:149-393 | a command line that parses means the same with every letter in a word of its own and every argument behind its flag |
| ForwardSpec.ThreePartsRecoveredIff | pkg/sshclient/args.go:457-459 | port:host:hostport goes through both parsers unchanged exactly when the port is not empty or nothing is given |
| ForwardSpec.FourPartsRecovered | pkg/sshclient/args.go:460-462 | bind:port:host:hostport is recovered |
| ForwardSpec.BracketedBindRecovered | pkg/sshclient/args.go:434-446 | [bind]:port:host:hostport is recovered |
| ForwardSpec.BracketedBindAndTargetRecovered | pkg/sshclient/args.go:434-446 | so is [bind]:port:[host]:hostport |
| ForwardSpec.BracketedTargetAloneRecoveredIff | pkg/sshclient/args.go:448-465 | port:[host]:hostport is recovered exactly when the host has no colon and the port is not empty, or nothing is given |
| ForwardSpec.BracketedTargetWithBindRecoveredIff | pkg/sshclient/args.go:448-465 | bind:port:[host]:hostport with a plain bind is recovered exactly when the host has no colon |
| ForwardSpec.PairEndpoint | pkg/sshclient/apply.go:89-102 | one endpoint of the configuration form is split into address and port |
| ForwardSpec.SocketPathsRecovered | pkg/sshclient/apply.go:91-110 | two socket paths are taken whole |
| ForwardSpec.ListenOnlyRecovered | pkg/sshclient/args.go:451-456 | a port alone, and bind:port, are recovered without a target |
| ForwardSpec.BracketedListenRecovered | pkg/sshclient/args.go:435-445 | so is [bind]:port |
| ForwardSpec.BoxedSplits | pkg/sshconfig/helpers.go:36-49 | [address]:port is split into its two parts |
| Escape.EscapeReader.Read | pkg/terminal/escape.go:40-105 | one call: bytes stored, bytes taken, line-start flag, end-of-file, disconnect |
| Escape.CallsForwardIff | pkg/terminal/escape.go:40-105 | through any buffers, what the calls store and what is left to forward is the transducer's output exactly when no one-byte buffer meets an unrecognised escape |
| Escape.ReadAll | pkg/terminal/escape.go:40-105 | the calls in a row store and leave what the specification of calls says |
| Escape.Drain | pkg/terminal/escape.go:40-105 | the same exact law for the reader itself; with enough calls the end is reported and closeFn called exactly at a disconnect |
| Escape.DrainPlain | pkg/terminal/escape.go:41-44 | without an escape byte everything comes through as it is |
| Escape.ForwardedConcat | pkg/terminal/escape.go:40-105 | the first part of an input decides, by the place it leads to, how the rest is read; behind an escape byte the rest is read as if that byte stood in front of it |
| Escape.DisconnectsIff | pkg/terminal/escape.go:69-75 | the user disconnects exactly when the input leads behind a disconnect |
| Escape.EscapesMean | pkg/terminal/escape.go:59-99 | what comes of an escape at any line start, for every byte behind it |
| Escape.UnchangedIff | pkg/terminal/escape.go:40-105 | a text comes through unchanged exactly when no escape with a meaning stands at a line start, and gets shorter otherwise |
| Escape.SettingsMean | pkg/terminal/escape.go:21-31 | the escape byte of every kind of setting |
| Escape.NewlineBeginsLineIff | pkg/terminal/escape.go:53-104 | a newline behind any input begins a line exactly when the input does not end within an escape or behind a disconnect |
| Escape.DoublingIsUndoneIff | pkg/terminal/escape.go:53-104 | doubling line-start escape bytes is undone for every text, exactly for the escape bytes that are not special |
| Session.EnvNameAccepted | pkg/sshserver/default_session.go:348-361 | TERM, or a name some pattern matches |
| Session.ChannelExitReporter.Exit | pkg/sshserver/default_session.go:242-276 | the first message is sent, later ones are not |
| Session.RunProcess | pkg/sshserver/default_session.go:232-240 | the launcher's first report is sent, else status 1 after an error, else nothing |
| Session.RunSubsystem | pkg/sshserver/default_session.go:190-221 | refusals, internal handlers, missing launchers and launched commands |
| Session.Finish | pkg/sshserver/default_session.go:150-221 | the effects of the request that ends the loop, ForceCommand included |
| Session.Prepare | pkg/sshserver/default_session.go:105-148 | effects and kept state of every other request |
| Session.HandleSession | pkg/sshserver/default_session.go:96-230 | the request loop has exactly the effects of the specification |
| Session.SessionShape | pkg/sshserver/default_session.go:104-230 | a session is the effects of the requests up to the one that ends it |
| Session.SessionSafety | pkg/sshserver/default_session.go:96-276 | at most one start, at most one exit message, and exactly the replies owed, for every request sequence |
| Session.ExitOfStarted | pkg/sshserver/default_session.go:232-276 | a started process gets one exit message exactly when its launcher reported or failed, and which one |
| Session.StartedEnvironment | pkg/sshserver/default_session.go:119-128 | a started process has exactly the accepted environment in order, and the last granted terminal unless it is a subsystem |
| Session.NothingReadAfterTheEnd | pkg/sshserver/default_session.go:150-221 | requests behind the one that ends the session make no difference |
| SessionMeaning.StartedIff | pkg/sshserver/default_session.go:150-221 | exactly which process is started: the command of the ending request with ForceCommand and the subsystem's command in their places, and its user, environment and terminal |
| SessionMeaning.InternalIff | pkg/sshserver/default_session.go:202-208 | exactly when a subsystem handler runs |
| SessionMeaning.EndReply | pkg/sshserver/default_session.go:150-201 | the reply to the ending request, before anything it starts |
| SessionMeaning.TerminalReply | pkg/sshserver/default_session.go:106-117 | a terminal is granted and kept exactly when the request decodes and PermitTTY does not forbid it |
| SessionMeaning.VariableReply | pkg/sshserver/default_session.go:119-128 | a decoded variable is acknowledged whether it is passed on or not, and TERM always is |
| SessionMeaning.UnknownReply | pkg/sshserver/default_session.go:223-226 | unknown requests are refused if they want a reply |
| SessionMeaning.LauncherHears | pkg/sshserver/default_session.go:130-148 | the launcher hears exactly the decoded window changes and signals, in order |
| SessionMeaning.ExitWithoutLaunch | pkg/sshserver/default_session.go:201-213 | the exit message where nothing is launched |
| Forwarder.KeyInjective | pkg/sshserver/default_forward.go:183-186 | different addresses or ports never share a key |
| Forwarder.PermitListenAllows | pkg/sshserver/default_forward.go:163-181 | the loop decides: no list, or an entry that lets the address through with no "none" before it |
| Forwarder.DefaultTcpForwarder.StartRemoteForward | pkg/sshserver/default_forward.go:64-88 | on success the listener is registered under the requested address and the bound port; otherwise nothing changes |
| Forwarder.DefaultTcpForwarder.StopRemoteForward | pkg/sshserver/default_forward.go:90-103 | the registered listener is handed out for closing and its entry removed |
| Forwarder.DefaultTcpForwarder.HandleGlobalRequests | pkg/sshserver/ssh.go:417-493 | the replies to any list of requests, Unix-socket ones included, and the registry after them |
| Forwarder.ForwardReply | pkg/sshserver/ssh.go:422-437 | a forward is accepted exactly when it inserts a listener, with the port that listener is bound to, which then finds it |
| Forwarder.CancelReply | pkg/sshserver/ssh.go:439-453 | a cancel is accepted exactly when it hits and closing works |
| Forwarder.StreamReply | pkg/sshserver/ssh.go:455-485 | when Unix-socket requests are accepted, and that they leave the registry alone |
| Forwarder.EveryRequestReplied | pkg/sshserver/ssh.go:419-492 | one reply to every request but an unknown one that wants none |
| Forwarder.RepliedPortCancels | pkg/sshserver/ssh.go:419-453 | a forward can be cancelled with the port its reply named, after any requests without such a cancel |
| Forwarder.PermitListenMeans | pkg/sshserver/default_forward.go:163-181 | what each kind of PermitListen entry lets through |
| Forwarder.ServeIsARun | pkg/sshserver/ssh.go:419-493 | each request of the loop takes possible steps of the interleaved system and leaves the registry they leave |
| Forwarder.ServeAllIsARun | pkg/sshserver/ssh.go:417-493 | the whole loop is a possible run of the interleaved system that ends in the same registry, as long as the system keeps its word along it |
| Forwarder.RunKeepsInv | pkg/sshserver/default_forward.go:66-103 | under every interleaving the registered listeners are open and distinct, each open listener being starting, registered or stopping |
| Forwarder.InsertIsFresh | pkg/sshserver/default_forward.go:78-84 | an insert never replaces a live entry |
| Forwarder.Quiescence | pkg/sshserver/default_forward.go:66-103 | with no start or stop under way the open listeners are exactly the registered ones, each once |
| Forwarder.ClosedAtMostOnce | pkg/sshserver/default_forward.go:94-102 | no listener is closed twice |
| Forwarder.StopsBalanceStarts | pkg/sshserver/default_forward.go:83-97 | successful stops of a key plus what is still registered equal the registrations |
| Forwarder.OfTwoStopsOneSucceeds | pkg/sshserver/default_forward.go:93-101 | of any concurrent stops of one registered key exactly one succeeds |
| Forwarder.PortZeroIsFoundAgain | pkg/sshserver/default_forward.go:76-87 | a start with port 0 is found by a stop with the port it returned, unless such a stop came before |
| Decimal.Itoa | pkg/sshconfig/match.go:424-445 | never leaves its 20-byte buffer and gives the decimal text, "-" for the smallest integer |
| Decimal.FillDigits | pkg/sshconfig/match.go:435-439 | the digit loop writes the digits and leaves room for a sign |
| Decimal.ItoaReadsBackIff | pkg/sshconfig/match.go:424-445 | the text is read back as its argument for every 64-bit integer but the smallest |
| Decimal.ParseTimeSeconds | pkg/sshconfig/helpers.go:153-186 | the accumulation with 64-bit wrap-around at every operation |
| Decimal.ResultIsWrapped | pkg/sshconfig/helpers.go:156-186 | however often the program's integers wrap, its result is the true value reduced to 64 bits |
| Decimal.ExactIff | pkg/sshconfig/helpers.go:156-186 | the result is the true value exactly when that fits into 64 bits, and exactly then no step overflows |
| Decimal.ThirteenDigitsNeverOverflow | pkg/sshconfig/helpers.go:156-186 | with at most 13 digit characters no step overflows |
| Decimal.TimeAddsUpIff | pkg/sshconfig/helpers.go:156-186 | in 64-bit arithmetic the result of a concatenation is the sum of the results exactly when the weight the right part adds to the pending digits of the left vanishes modulo 2^64 |
| Decimal.FittingTimeAddsUpIff | pkg/sshconfig/helpers.go:156-186 | when the whole fits into 64 bits, it is the sum exactly when nothing is pending or the right part gives it the weight of seconds |
| Decimal.TimeRoundTripIff | pkg/sshconfig/helpers.go:156-186 | weeks, days, hours, minutes and seconds rendered and read give their sum in seconds exactly when that fits into 64 bits |
| Decimal.CaseOfUnits | pkg/sshconfig/helpers.go:166-180 | the case of unit letters makes no difference |
| Decimal.StrangersIgnored | pkg/sshconfig/helpers.go:155 | any other character can be left out, even between digits |
| ListOp.SplitList | pkg/sshconfig/listop.go:88-98 | the trimmed non-empty names of a list |
| ListOp.NamesRoundTrip | pkg/sshconfig/listop.go:88-98 | a printed list is read back, whatever white space stands around the commas |
| ListOp.BlankPieceDropped | pkg/sshconfig/listop.go:92-95 | an empty or blank piece names nothing |
| ListOp.AddUnseen | pkg/sshconfig/listop.go:40-45 | the loop with the seen map adds each unseen name once, in order |
| ListOp.ApplyAppend | pkg/sshconfig/listop.go:32-47 | the defaults and then the new names |
| ListOp.ApplyPrepend | pkg/sshconfig/listop.go:60-77 | the given names and then the other defaults |
| ListOp.ApplyRemove | pkg/sshconfig/listop.go:49-58 | the defaults no pattern matches |
| ListOp.ApplyListOp | pkg/sshconfig/listop.go:15-30 | the dispatch on the operator |
| ListOp.AppendLaw | pkg/sshconfig/listop.go:9 | "+": the defaults unchanged in front, then every further name once in the order of first appearance |
| ListOp.PrependLaw | pkg/sshconfig/listop.go:11 | "^": the given names once each in the order of first appearance, then defaults in their order, nothing twice |
| ListOp.PrependKeepsTheRest | pkg/sshconfig/listop.go:70-75 | "^" drops no default but the names put in front |
| ListOp.RemoveLaw | pkg/sshconfig/listop.go:10 | "-": the largest subsequence of the defaults that no removal pattern matches |
| ListOp.ResultDistinctIff | pkg/sshconfig/listop.go:13-28 | the result has no duplicates exactly when there is an operator, no value, or a value naming nothing twice |
| ListOp.FilterSupported | pkg/sshclient/crypto.go:92-115 | the filter with wildcards expanded against the supported names |
| ListOp.FilteredKeepsOrder | pkg/sshclient/crypto.go:102-104 | without wildcards the filter only drops unsupported names |
| ListOp.FilteredIff | pkg/sshclient/crypto.go:92-115 | the names left are exactly the supported ones that some candidate names or matches |
| ListOp.ResolveAlgorithmList | pkg/sshclient/crypto.go:48-55 | only supported names are left, whatever the raw value |
| Token.ExpandTokens | pkg/sshconfig/token.go:13-36 | the loop computes the expansion; no context, no expansion |
| Token.LettersMean | pkg/sshconfig/token.go:38-77 | what every token stands for |
| Token.OtherLettersStay | pkg/sshconfig/token.go:78-80 | any other letter stays, with its percent sign |
| Token.DoublingIsUndone | pkg/sshconfig/token.go:40-41 | doubling every percent sign is undone in every context |
| Token.ExpansionIsOnePass | pkg/sshconfig/token.go:21-34 | a value is cut into tokens and plain characters before any replacement is looked at: replaced text is never scanned |
| Token.CutsAtConcatIff | pkg/sshconfig/token.go:22-31 | a concatenation is cut where its parts are cut, exactly unless a lone "%" meets a token letter |
| Token.ExpansionDistributesIff | pkg/sshconfig/token.go:15-36 | expansion distributes over a concatenation in every context exactly unless the left part ends on a lone "%" and the right one starts with an odd number of them, or with a token letter behind an even number |

## Left out

- The expansion of tildes, tokens, environment variables, relative paths and globs in Include values is one
  parameter, `expand`; so are file reading and absolute paths. The scanner's line-length limit, read errors
  in the middle of a file and a failing `filepath.Abs` are not modelled.
- Non-ASCII white space and case, and bytes that are not characters, are outside the string model.
- The keyword table's 120 or so lines and the default values are parameters; `MergeLaw.TableOk`,
  `ResolveLaws.HostnameIsText` and `FlagMeaning.FlagTable` state the facts used about the table.
- ResolveLaws.HostnameExpansionIff: assumes, as in the keyword table, that only text handlers set the host name.
- Resolve.RunResolve: the dialer settings derived at the very end are left out; what tilde expansion does to
  one path, and the connection hash, are parameters.
- MergeLaw.OtherListsLawIff: assumes that A's IgnoreUnknown suppresses nothing of B and that both lists apply.
- ResolveLaws.FinalPassRepeatsTheFirst: compares the directives that pass their conditions, so one suppressed
  by IgnoreUnknown counts as applied.
- Parse errors of `Match` are kept as data (keyword and kind), not as message texts; error messages in
  general are left out.
- Args.CLIArgs.Parse: the struct's fields are kept in a record that the methods replace; `Directives`,
  `LookupUser` and `LookupPort` are loop-free and left out.
- ForwardSpec.ThreePartsRecoveredIff: components contain no ':', '/', '[' or white space; socket paths go
  through both parsers as they are.
- Escape.EscapeReader.Read: the wrapped reader delivers bytes and then end-of-file, no other error and no
  error together with a byte; `closeFn` is counted rather than called, and the help text is not written.
- Session.HandleSession: a reply is the call of the library's `Reply`, which stays silent when the client
  asked for none; payload decoding and errors of replies and of the launcher's resize and signal are left
  out, and streams are not modelled.
- Session.RunProcess: a launcher is its list of reports and whether it fails; it runs to its end before the
  handler returns.
- Forwarder.DefaultTcpForwarder.HandleGlobalRequests: whether AllowTcpForwarding, AllowStreamLocalForwarding
  and DisableForwarding let requests through is a parameter, settled by one branch of the source each; the
  Unix-socket forwarder is the outcome it reports. The accept loop, the forwarded channels and connection
  teardown are left out.
- Forwarder.RunKeepsInv: assumes that the system hands out new listeners, honours a requested port and never
  has two open listeners on one address and port.
- ListOp.FilterSupported: says nothing of repetition, which the source does not exclude for a wildcard behind
  a plain name.
- Token.ExpandTokens: the connection hash is one more field of the context.
- `ParseSize`, `ParseRekeyLimit` and `ParseDestination` are left out: they would only add easy members. So is
  the server's configuration resolution, the same fold with one pass.
- SSH transport, keys, agents, known_hosts, GSSAPI, DNS, dialers and the terminal user interface are left out.
