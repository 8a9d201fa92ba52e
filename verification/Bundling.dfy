/** Bundling flags into one word does not change what a command line means. */
module Bundling {
  import opened Text
  import opened ForwardSpec
  import opened Args

  function Dash(word: string): string {
    "-" + word
  }

  lemma DashIsOption(word: string)
    requires word != "" && word != "-"
    ensures Dash(word) != "--" && !IsPositional(Dash(word)) && Dash(word)[1..] == word
  {
    assert Dash(word)[1..] == word;
  }

  lemma ParsedOption(a: Args, mode: Mode, word: string, next: seq<string>)
    requires word != "" && word != "-"
    ensures Parsed(a, mode, [Dash(word)] + next) ==
            var (a', left, error) := Letters(a, word, next);
            if error.Some? then Outcome(a', error) else Parsed(a', mode, left)
  {
    DashIsOption(word);
    assert ([Dash(word)] + next)[1..] == next;
  }

  lemma LettersStep(a: Args, x: char, word: string, next: seq<string>)
    requires IsBare(x)
    ensures Letters(a, [x] + word, next) == Letters(SetBare(a, x), word, next)
  {
    assert ([x] + word)[1..] == word;
  }

  lemma BareIsNoDash(x: char)
    ensures IsBare(x) || TakesArgument(x) ==> x != '-'
  {
  }

  lemma ParsedBare(a: Args, mode: Mode, x: char, more: seq<string>)
    requires IsBare(x)
    ensures Parsed(a, mode, [Dash([x])] + more) == Parsed(SetBare(a, x), mode, more)
  {
    BareIsNoDash(x);
    ParsedOption(a, mode, [x], more);
    assert [x] + "" == [x];
    LettersStep(a, x, "", more);
  }

  lemma ParsedBundle(a: Args, mode: Mode, x: char, yz: string, next: seq<string>)
    requires IsBare(x)
    ensures Parsed(a, mode, [Dash([x] + yz)] + next) ==
            var (b, left, error) := Letters(SetBare(a, x), yz, next);
            if error.Some? then Outcome(b, error) else Parsed(b, mode, left)
  {
    BareIsNoDash(x);
    assert [x] + yz != "-" by { assert ([x] + yz)[0] == x; }
    ParsedOption(a, mode, [x] + yz, next);
    LettersStep(a, x, yz, next);
  }

  /** `-xyz` means `-x -yz` when x takes no argument, exactly unless the second word would be `--`. */
  lemma SplitFlagIff(a: Args, mode: Mode, x: char, yz: string, next: seq<string>)
    requires IsBare(x) && yz != ""
    ensures Parsed(a, mode, [Dash([x] + yz)] + next) == Parsed(a, mode, [Dash([x]), Dash(yz)] + next)
            <==> yz != "-"
  {
    ParsedBundle(a, mode, x, yz, next);
    assert [Dash([x]), Dash(yz)] + next == [Dash([x])] + ([Dash(yz)] + next);
    ParsedBare(a, mode, x, [Dash(yz)] + next);
    if yz == "-" {
      DashLetter(SetBare(a, x), next);
      assert ([Dash(yz)] + next)[0] == "--";
    } else {
      ParsedOption(SetBare(a, x), mode, yz, next);
    }
  }

  lemma DashLetter(a: Args, next: seq<string>)
    ensures Letters(a, "-", next) == (a, next, Some(UnknownFlag('-')))
  {
  }

  /** A word of flags without argument. */
  predicate BareWord(p: string) {
    forall i :: 0 <= i < |p| ==> IsBare(p[i])
  }

  lemma LettersOfArgument(a: Args, o: char, value: string, next: seq<string>)
    requires TakesArgument(o) && value != ""
    ensures Letters(a, [o] + value, next) == (SetArgument(a, o, value), next, None)
    ensures Letters(a, [o], [value] + next) == (SetArgument(a, o, value), next, None)
  {
    NotBoth(o);
    assert ([o] + value)[1..] == value;
    assert ([value] + next)[1..] == next;
  }

  lemma NotBoth(o: char)
    requires TakesArgument(o)
    ensures !IsBare(o)
  {
  }

  lemma {:induction false} LettersOfBare(a: Args, p: string, o: char, value: string, next: seq<string>)
    requires BareWord(p) && TakesArgument(o) && value != ""
    ensures Letters(a, p + ([o] + value), next) == Letters(a, p + [o], [value] + next)
    decreases |p|
  {
    if p == "" {
      assert p + ([o] + value) == [o] + value && p + [o] == [o];
      LettersOfArgument(a, o, value, next);
    } else {
      var x, rest := p[0], p[1..];
      calc {
        Letters(a, p + ([o] + value), next);
        { assert p + ([o] + value) == [x] + (rest + ([o] + value)); }
        Letters(a, [x] + (rest + ([o] + value)), next);
        { LettersStep(a, x, rest + ([o] + value), next); }
        Letters(SetBare(a, x), rest + ([o] + value), next);
        { LettersOfBare(SetBare(a, x), rest, o, value, next); }
        Letters(SetBare(a, x), rest + [o], [value] + next);
        { LettersStep(a, x, rest + [o], [value] + next); }
        Letters(a, [x] + (rest + [o]), [value] + next);
        { assert [x] + (rest + [o]) == p + [o]; }
        Letters(a, p + [o], [value] + next);
      }
    }
  }

  /** `-oVAL` means `-o VAL`, also at the end of a bundle. */
  lemma SplitArgument(a: Args, mode: Mode, p: string, o: char, value: string, next: seq<string>)
    requires BareWord(p) && TakesArgument(o) && value != ""
    ensures Parsed(a, mode, [Dash(p + ([o] + value))] + next) == Parsed(a, mode, [Dash(p + [o]), value] + next)
  {
    LettersOfBare(a, p, o, value, next);
    assert [Dash(p + [o]), value] + next == [Dash(p + [o])] + ([value] + next);
    assert (p + [o])[|p|] == o && (p + ([o] + value))[|p|] == o;
    NotADash(p, o, value);
    ParsedOption(a, mode, p + ([o] + value), next);
    ParsedOption(a, mode, p + [o], [value] + next);
  }

  lemma NotADash(p: string, o: char, value: string)
    requires BareWord(p) && TakesArgument(o)
    ensures p + ([o] + value) != "-" && p + [o] != "-"
  {
    var first := if p == "" then o else p[0];
    BareIsNoDash(first);
    assert (p + ([o] + value))[0] == first && (p + [o])[0] == first;
  }

  // ---- in any surroundings ----

  /** Where the parser stands after a list of arguments. */
  datatype Position =
    | AtBoundary(args: Args)
    | Pending(args: Args, flag: char)
    | Stopped(args: Args, words: seq<string>)
    | Failing(args: Args, error: ArgError)

  function After(a: Args, pre: seq<string>): Position
    decreases |pre|
  {
    if pre == [] then AtBoundary(a)
    else if pre[0] == "--" then Stopped(a, pre[1..])
    else if IsPositional(pre[0]) then Stopped(a, pre)
    else
      var (a', next, error) := Letters(a, pre[0][1..], pre[1..]);
      match error
      case None => After(a', next)
      case Some(NeedsArgument(flag)) => Pending(a', flag)
      case Some(e) => Failing(a', e)
  }

  lemma {:induction false} LettersWithMore(a: Args, word: string, next: seq<string>, more: seq<string>)
    ensures var r, s := Letters(a, word, next), Letters(a, word, next + more);
            match r.2
            case None => s == (r.0, r.1 + more, None)
            case Some(UnknownFlag(f)) => s.0 == r.0 && s.2 == r.2
            case Some(NeedsArgument(f)) =>
              TakesArgument(f) && (more != [] ==> s == (SetArgument(r.0, f, more[0]), more[1..], None))
    decreases |word|
  {
    if word != "" {
      var flag := word[0];
      if IsBare(flag) {
        LettersWithMore(SetBare(a, flag), word[1..], next, more);
      } else if TakesArgument(flag) {
        if next == [] {
          assert next + more == more;
        } else {
          assert (next + more)[0] == next[0] && (next + more)[1..] == next[1..] + more;
        }
      }
    }
  }

  /** What follows is parsed from where the arguments before it leave the parser. */
  lemma {:induction false} ParsedAfter(a: Args, mode: Mode, pre: seq<string>, more: seq<string>)
    ensures match After(a, pre)
            case AtBoundary(a') => Parsed(a, mode, pre + more) == Parsed(a', mode, more)
            case Pending(a', f) =>
              TakesArgument(f)
              && (more != [] ==> Parsed(a, mode, pre + more) == Parsed(SetArgument(a', f, more[0]), mode, more[1..]))
            case Stopped(a', words) => Parsed(a, mode, pre + more) == Outcome(Positional(a', words + more, mode), None)
            case Failing(a', e) => Parsed(a, mode, pre + more) == Outcome(a', Some(e))
    decreases |pre|
  {
    if pre == [] {
      assert pre + more == more;
    } else {
      assert (pre + more)[0] == pre[0] && (pre + more)[1..] == pre[1..] + more;
      if pre[0] != "--" && !IsPositional(pre[0]) {
        LettersWithMore(a, pre[0][1..], pre[1..], more);
        var (a', next, error) := Letters(a, pre[0][1..], pre[1..]);
        if error == None {
          ParsedAfter(a', mode, next, more);
        }
      }
    }
  }

  /** Splitting off a flag without argument changes nothing here. */
  ghost predicate FlagSplitsHere(a: Args, pre: seq<string>) {
    forall mode: Mode, x: char, yz: string, post: seq<string> ::
      IsBare(x) && yz != "" && yz != "-" ==>
      Parsed(a, mode, pre + ([Dash([x] + yz)] + post)) == Parsed(a, mode, pre + ([Dash([x]), Dash(yz)] + post))
  }

  /** Splitting off an argument changes nothing here. */
  ghost predicate ArgumentSplitsHere(a: Args, pre: seq<string>) {
    forall mode: Mode, p: string, o: char, value: string, post: seq<string> ::
      BareWord(p) && TakesArgument(o) && value != "" ==>
      Parsed(a, mode, pre + ([Dash(p + ([o] + value))] + post)) ==
      Parsed(a, mode, pre + ([Dash(p + [o]), value] + post))
  }

  /** Nothing is pending and no positional has been read, or parsing has failed already. */
  predicate SplitsHere(a: Args, pre: seq<string>) {
    After(a, pre).AtBoundary? || After(a, pre).Failing?
  }

  /** These are exactly the surroundings in which either kind of splitting never changes what a command
      line means. */
  lemma SplitsHereIff(a: Args, pre: seq<string>)
    ensures FlagSplitsHere(a, pre) <==> SplitsHere(a, pre)
    ensures ArgumentSplitsHere(a, pre) <==> SplitsHere(a, pre)
  {
    if SplitsHere(a, pre) {
      forall mode: Mode, x: char, yz: string, post: seq<string> | IsBare(x) && yz != "" && yz != "-"
        ensures Parsed(a, mode, pre + ([Dash([x] + yz)] + post)) ==
                Parsed(a, mode, pre + ([Dash([x]), Dash(yz)] + post))
      {
        ParsedAfter(a, mode, pre, [Dash([x] + yz)] + post);
        ParsedAfter(a, mode, pre, [Dash([x]), Dash(yz)] + post);
        if After(a, pre).AtBoundary? {
          SplitFlagIff(After(a, pre).args, mode, x, yz, post);
        }
      }
      forall mode: Mode, p: string, o: char, value: string, post: seq<string>
        | BareWord(p) && TakesArgument(o) && value != ""
        ensures Parsed(a, mode, pre + ([Dash(p + ([o] + value))] + post)) ==
                Parsed(a, mode, pre + ([Dash(p + [o]), value] + post))
      {
        ParsedAfter(a, mode, pre, [Dash(p + ([o] + value))] + post);
        ParsedAfter(a, mode, pre, [Dash(p + [o]), value] + post);
        if After(a, pre).AtBoundary? {
          SplitArgument(After(a, pre).args, mode, p, o, value, post);
        }
      }
    } else {
      SplitChanges(a, pre);
      ArgumentSplitChanges(a, pre);
    }
  }

  /** Behind a pending flag or a positional, `-oq` and `-o q` differ: what is pending takes the whole
      word, and the q is left over as a positional. */
  lemma ArgumentSplitChanges(a: Args, pre: seq<string>)
    requires After(a, pre).Pending? || After(a, pre).Stopped?
    ensures !ArgumentSplitsHere(a, pre)
  {
    var none: string, value: string := "", "q";
    assert BareWord(none) && TakesArgument('o');
    var v, w := Dash(none + (['o'] + value)), Dash(none + ['o']);
    assert v == "-oq" && w == "-o";
    OneOrTwo(a, pre, v, w, value);
    assert [v] + [] == [v] && [w, value] + [] == [w, value];
    assert Parsed(a, OptionsOnly, pre + ([v] + [])) != Parsed(a, OptionsOnly, pre + ([w, value] + []));
  }

  lemma OneOrTwo(a: Args, pre: seq<string>, v: string, w: string, value: string)
    requires After(a, pre).Pending? || After(a, pre).Stopped?
    requires v == "-oq" && w == "-o" && value == "q"
    ensures Parsed(a, OptionsOnly, pre + [v]) != Parsed(a, OptionsOnly, pre + [w, value])
  {
    ParsedAfter(a, OptionsOnly, pre, [v]);
    ParsedAfter(a, OptionsOnly, pre, [w, value]);
    match After(a, pre)
    case Pending(a', f) =>
      assert [v][1..] == [] && [w, value][1..] == [value];
      PlainStays(v);
      PlainStays(w);
      LeftOverDiffers(a', f, v, w);
    case Stopped(a', words) =>
      assert |a'.rest + (words + [v])| != |a'.rest + (words + [w, value])|;
  }

  lemma RestTellsNothing(a: Args, f: char, words: seq<string>)
    ensures Told(a.(rest := words), f) == Told(a, f)
  {
  }

  lemma LeftOverDiffers(a: Args, f: char, v: string, w: string)
    requires TakesArgument(f) && v != w && ConvertForwardSpec(v) == v && ConvertForwardSpec(w) == w
    ensures Parsed(SetArgument(a, f, v), OptionsOnly, []) != Parsed(SetArgument(a, f, w), OptionsOnly, ["q"])
  {
    var b := SetArgument(a, f, w);
    assert Parsed(b, OptionsOnly, ["q"]) == Outcome(b.(rest := b.rest + ["q"]), None);
    ArgumentTold(a, f, v);
    ArgumentTold(a, f, w);
    RestTellsNothing(b, f, b.rest + ["q"]);
  }

  /** Behind a pending flag or a positional, `-qq` and `-q -q` differ. */
  lemma SplitChanges(a: Args, pre: seq<string>)
    requires After(a, pre).Pending? || After(a, pre).Stopped?
    ensures !FlagSplitsHere(a, pre)
  {
    var one, two: seq<string> := [Dash(['q'] + ['q'])] + [], [Dash(['q']), Dash(['q'])] + [];
    ParsedAfter(a, OptionsOnly, pre, one);
    ParsedAfter(a, OptionsOnly, pre, two);
    assert Parsed(a, OptionsOnly, pre + one) != Parsed(a, OptionsOnly, pre + two) by {
      match After(a, pre)
      case Pending(a', f) =>
        assert one[1..] == [] && two[1..] == [Dash(['q'])];
        PendingDiffers(a', f, one[0], two[0]);
      case Stopped(a', words) =>
        assert |a'.rest + (words + one)| != |a'.rest + (words + two)|;
    }
  }

  lemma ParsedQuiet(a: Args, word: string)
    requires word == Dash(['q'])
    ensures Parsed(a, OptionsOnly, [word]) == Outcome(SetBare(a, 'q'), None)
  {
    assert [word] == [Dash(['q'])] + [];
    ParsedBare(a, OptionsOnly, 'q', []);
  }

  lemma PendingDiffers(a: Args, f: char, v: string, w: string)
    requires TakesArgument(f) && v == Dash(['q'] + ['q']) && w == Dash(['q'])
    ensures Parsed(SetArgument(a, f, v), OptionsOnly, []) != Parsed(SetArgument(a, f, w), OptionsOnly, [Dash(['q'])])
  {
    ParsedQuiet(SetArgument(a, f, w), w);
    assert |v| != |w|;
    PlainStays(v);
    PlainStays(w);
    ArgumentIsSeen(a, f, v, w);
  }

  /** A word of the two letters used as witnesses here. */
  predicate Short(v: string) {
    forall i :: 0 <= i < |v| ==> v[i] in {'-', 'q', 'o'}
  }

  lemma PlainStays(v: string)
    requires Short(v)
    ensures ConvertForwardSpec(v) == v
  {
    SplitPlain(v);
  }

  function LastOption(options: seq<string>): string {
    if options == [] then "" else options[|options| - 1]
  }

  function LastValue(ds: seq<Directive>): string {
    if ds == [] then "" else ds[|ds| - 1].value
  }

  /** Where the argument of a flag shows in the fields. */
  function Told(a: Args, f: char): string {
    match f
    case 'l' => a.settings.user
    case 'O' => a.settings.ctlCmd
    case 'o' => LastOption(a.settings.options)
    case 'P' => a.settings.tag
    case 'Q' => a.settings.queryType
    case 'W' => a.settings.stdioFwd
    case 'E' => a.settings.logFile
    case 'F' => a.settings.configFile
    case _ => LastValue(a.directives)
  }

  /** The flags whose argument goes into a field of its own. */
  predicate ByField(f: char) {
    f in {'l', 'O', 'o', 'P', 'Q', 'W', 'E', 'F'}
  }

  lemma PlainDirectiveTold(f: char, v: string)
    requires TakesArgument(f) && !ByField(f) && f != 'L' && f != 'R'
    ensures LastValue(ArgumentDirectives(f, v)) == v && ArgumentDirectives(f, v) != []
  {
  }

  lemma DirectiveTold(f: char, v: string)
    requires TakesArgument(f) && !ByField(f) && ConvertForwardSpec(v) == v
    ensures LastValue(ArgumentDirectives(f, v)) == v && ArgumentDirectives(f, v) != []
  {
  }

  function Filled(a: Args, f: char, v: string): Args {
    a.(settings := ArgumentField(a.settings, f, v))
  }

  lemma NameTold(a: Args, f: char, v: string)
    requires f in {'l', 'O', 'P', 'Q'}
    ensures Told(Filled(a, f, v), f) == v
  {
  }

  lemma FileTold(a: Args, f: char, v: string)
    requires f in {'W', 'E', 'F'}
    ensures Told(Filled(a, f, v), f) == v
  {
  }

  lemma OptionTold(a: Args, v: string)
    ensures Told(Filled(a, 'o', v), 'o') == v
  {
    var options := a.settings.options;
    assert Filled(a, 'o', v).settings.options == options + [v];
    assert (options + [v])[|options|] == v;
  }

  lemma DirectivesTellNothing(a: Args, f: char, ds: seq<Directive>)
    requires ByField(f)
    ensures Told(AddAll(a, ds), f) == Told(a, f)
  {
  }

  lemma FieldTold(a: Args, f: char, v: string)
    requires ByField(f)
    ensures Told(SetArgument(a, f, v), f) == v
  {
    if f == 'o' { OptionTold(a, v); }
    else if f in {'W', 'E', 'F'} { FileTold(a, f, v); }
    else { NameTold(a, f, v); }
    DirectivesTellNothing(Filled(a, f, v), f, ArgumentDirectives(f, v));
  }

  lemma ArgumentTold(a: Args, f: char, v: string)
    requires TakesArgument(f) && ConvertForwardSpec(v) == v
    ensures Told(SetArgument(a, f, v), f) == v
  {
    if ByField(f) {
      FieldTold(a, f, v);
    } else {
      DirectiveTold(f, v);
      LastOfBoth(a.directives, ArgumentDirectives(f, v));
    }
  }

  lemma LastOfBoth(x: seq<Directive>, y: seq<Directive>)
    requires y != []
    ensures LastValue(x + y) == LastValue(y)
  {
  }

  lemma QuietTellsNothing(a: Args, f: char)
    ensures Told(SetBare(a, 'q'), f) == Told(a, f)
  {
    assert a.directives + [] == a.directives;
  }

  /** Two different arguments leave different fields, whatever is done to `quiet`. */
  lemma ArgumentIsSeen(a: Args, f: char, v: string, w: string)
    requires TakesArgument(f) && v != w && ConvertForwardSpec(v) == v && ConvertForwardSpec(w) == w
    ensures SetArgument(a, f, v) != SetBare(SetArgument(a, f, w), 'q')
  {
    ArgumentTold(a, f, v);
    ArgumentTold(a, f, w);
    QuietTellsNothing(SetArgument(a, f, w), f);
  }

  lemma ForwardDirective(f: char, v: string)
    requires f == 'L' || f == 'R'
    ensures LastValue(ArgumentDirectives(f, v)) == ConvertForwardSpec(v) && ArgumentDirectives(f, v) != []
  {
  }

  lemma ForwardTold(a: Args, f: char, v: string)
    requires f == 'L' || f == 'R'
    ensures Told(SetArgument(a, f, v), f) == ConvertForwardSpec(v)
  {
    ForwardDirective(f, v);
    LastOfBoth(a.directives, ArgumentDirectives(f, v));
  }

  lemma PlainTold(a: Args, f: char, v: string)
    requires TakesArgument(f) && f != 'L' && f != 'R'
    ensures Told(SetArgument(a, f, v), f) == v
  {
    if ByField(f) {
      FieldTold(a, f, v);
    } else {
      PlainDirectiveTold(f, v);
      LastOfBoth(a.directives, ArgumentDirectives(f, v));
    }
  }

  /** Nothing of an argument is lost: two arguments of a flag leave the same fields exactly when they are
      equal or, for -L and -R, are rewritten to the same forward. */
  lemma ArgumentIsKeptIff(a: Args, f: char, v: string, w: string)
    requires TakesArgument(f)
    ensures SetArgument(a, f, v) == SetArgument(a, f, w)
            <==> v == w || (f in {'L', 'R'} && ConvertForwardSpec(v) == ConvertForwardSpec(w))
  {
    if f == 'L' || f == 'R' {
      ForwardTold(a, f, v);
      ForwardTold(a, f, w);
    } else {
      PlainTold(a, f, v);
      PlainTold(a, f, w);
    }
  }

  // ---- the unbundled form of a command line ----

  /** The letters of one word as words of their own, each argument behind its flag. */
  function Singles(word: string, next: seq<string>): (r: (seq<string>, seq<string>))
    ensures |r.1| <= |next|
    decreases |word|
  {
    if word == "" then ([], next)
    else if IsBare(word[0]) then
      var (words, left) := Singles(word[1..], next);
      ([Dash([word[0]])] + words, left)
    else if |word| > 1 then ([Dash([word[0]]), word[1..]], next)
    else if next == [] then ([Dash(word)], next)
    else ([Dash(word), next[0]], next[1..])
  }

  function Unbundle(args: seq<string>): seq<string>
    decreases |args|
  {
    if args == [] || args[0] == "--" || IsPositional(args[0]) then args
    else
      var (words, left) := Singles(args[0][1..], args[1..]);
      words + Unbundle(left)
  }

  /** Every option word has one letter, and a flag with argument is followed by it. */
  predicate Unbundled(args: seq<string>)
    decreases |args|
  {
    if args == [] || args[0] == "--" || IsPositional(args[0]) then true
    else if |args[0]| != 2 then false
    else if IsBare(args[0][1]) then Unbundled(args[1..])
    else TakesArgument(args[0][1]) && |args| > 1 && Unbundled(args[2..])
  }

  lemma ParsedArgument(a: Args, mode: Mode, o: char, value: string, more: seq<string>)
    requires TakesArgument(o)
    ensures Parsed(a, mode, [Dash([o]), value] + more) == Parsed(SetArgument(a, o, value), mode, more)
    ensures Unbundled([Dash([o]), value] + more) == Unbundled(more)
  {
    var words := [Dash([o]), value] + more;
    BareIsNoDash(o);
    NotBoth(o);
    ParsedOption(a, mode, [o], [value] + more);
    assert words == [Dash([o])] + ([value] + more);
    assert ([value] + more)[1..] == more;
    DashIsOption([o]);
    assert words[2..] == more;
  }

  lemma UnbundledBare(x: char, more: seq<string>)
    requires IsBare(x)
    ensures Unbundled([Dash([x])] + more) == Unbundled(more)
  {
    BareIsNoDash(x);
    DashIsOption([x]);
    assert ([Dash([x])] + more)[1..] == more;
  }

  lemma SingleBare(a: Args, mode: Mode, x: char, words: seq<string>, more: seq<string>)
    requires IsBare(x)
    ensures Parsed(a, mode, [Dash([x])] + words + more) == Parsed(SetBare(a, x), mode, words + more)
    ensures Unbundled([Dash([x])] + words + more) == Unbundled(words + more)
  {
    Assoc([Dash([x])], words, more);
    ParsedBare(a, mode, x, words + more);
    UnbundledBare(x, words + more);
  }

  lemma SinglesArgument(a: Args, mode: Mode, word: string, next: seq<string>, more: seq<string>)
    requires word != "" && !IsBare(word[0]) && Letters(a, word, next).2 == None
    ensures Singles(word, next).1 == Letters(a, word, next).1
    ensures Parsed(a, mode, Singles(word, next).0 + more) == Parsed(Letters(a, word, next).0, mode, more)
    ensures Unbundled(Singles(word, next).0 + more) == Unbundled(more)
  {
    if |word| > 1 {
      ParsedArgument(a, mode, word[0], word[1..], more);
    } else {
      assert word == [word[0]];
      ParsedArgument(a, mode, word[0], next[0], more);
    }
  }

  lemma {:induction false} SinglesMean(a: Args, mode: Mode, word: string, next: seq<string>, more: seq<string>)
    requires Letters(a, word, next).2 == None
    ensures Singles(word, next).1 == Letters(a, word, next).1
    ensures Parsed(a, mode, Singles(word, next).0 + more) == Parsed(Letters(a, word, next).0, mode, more)
    ensures Unbundled(Singles(word, next).0 + more) == Unbundled(more)
    decreases |word|
  {
    if word == "" {
      assert [] + more == more;
    } else if IsBare(word[0]) {
      var b, words := SetBare(a, word[0]), Singles(word[1..], next).0;
      SinglesMean(b, mode, word[1..], next, more);
      SingleBare(a, mode, word[0], words, more);
    } else {
      SinglesArgument(a, mode, word, next, more);
    }
  }

  /** A command line that parses means the same in its unbundled form. */
  lemma {:induction false} UnbundleKeepsMeaning(a: Args, mode: Mode, args: seq<string>)
    requires Parsed(a, mode, args).error == None
    ensures Parsed(a, mode, Unbundle(args)) == Parsed(a, mode, args)
    ensures Unbundled(Unbundle(args))
    decreases |args|
  {
    if !(args == [] || args[0] == "--" || IsPositional(args[0])) {
      var (b, left, _) := Letters(a, args[0][1..], args[1..]);
      UnbundleKeepsMeaning(b, mode, left);
      SinglesMean(a, mode, args[0][1..], args[1..], Unbundle(left));
    }
  }
}
