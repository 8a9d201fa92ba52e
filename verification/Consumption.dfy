/** The parser uses every argument exactly once, in order. */
module Consumption {
  import opened Text
  import opened Args
  import opened Bundling

  /** What is made of one or two arguments, or of the positionals. `flags` are flags without argument. */
  datatype Use =
    | Flags(flags: string)
    | Attached(flags: string, flag: char, value: string)
    | Separate(flags: string, flag: char, value: string)
    | Positionals(dashes: bool, words: seq<string>)

  /** The arguments a use is made of. */
  function Spelled(u: Use): seq<string> {
    match u
    case Flags(p) => [Dash(p)]
    case Attached(p, f, value) => [Dash(p + ([f] + value))]
    case Separate(p, f, value) => [Dash(p + [f]), value]
    case Positionals(dashes, words) => if dashes then ["--"] + words else words
  }

  function SpelledAll(us: seq<Use>): seq<string> {
    if us == [] then [] else Spelled(us[0]) + SpelledAll(us[1..])
  }

  function SetFlags(a: Args, flags: string): Args
    decreases |flags|
  {
    if flags == "" then a else SetFlags(SetBare(a, flags[0]), flags[1..])
  }

  /** What a use does to the fields. */
  function Play(a: Args, mode: Mode, u: Use): Args {
    match u
    case Flags(p) => SetFlags(a, p)
    case Attached(p, f, value) => SetArgument(SetFlags(a, p), f, value)
    case Separate(p, f, value) => SetArgument(SetFlags(a, p), f, value)
    case Positionals(_, words) => Positional(a, words, mode)
  }

  function PlayAll(a: Args, mode: Mode, us: seq<Use>): Args
    decreases |us|
  {
    if us == [] then a else PlayAll(Play(a, mode, us[0]), mode, us[1..])
  }

  /** The use of an option word; None when it is wrong. */
  function WordUse(word: string, next: seq<string>): (r: Option<Use>)
    ensures r.Some? ==> !r.value.Positionals? && 1 <= |Spelled(r.value)| <= 1 + |next|
    decreases |word|
  {
    if word == "" then Some(Flags(""))
    else if IsBare(word[0]) then
      match WordUse(word[1..], next)
      case None => None
      case Some(u) => Some(u.(flags := [word[0]] + u.flags))
    else if !TakesArgument(word[0]) then None
    else if |word| > 1 then Some(Attached("", word[0], word[1..]))
    else if next == [] then None
    else Some(Separate("", word[0], next[0]))
  }

  /** The uses of an argument list up to the first wrong word, and what is left from there on. */
  function Uses(args: seq<string>): (seq<Use>, seq<string>)
    decreases |args|
  {
    if args == [] then ([], [])
    else if args[0] == "--" then ([Positionals(true, args[1..])], [])
    else if IsPositional(args[0]) then ([Positionals(false, args)], [])
    else match WordUse(args[0][1..], args[1..])
      case None => ([], args)
      case Some(u) =>
        var (us, rest) := Uses(args[|Spelled(u)|..]);
        ([u] + us, rest)
  }

  /** Putting one flag in front of a use. */
  lemma FlagInFront(x: char, u: Use, word: string, next: seq<string>, left: seq<string>)
    requires !u.Positionals? && [Dash(word)] + next == Spelled(u) + left
    ensures var v := u.(flags := [x] + u.flags);
            [Dash([x] + word)] + next == Spelled(v) + left && |Spelled(v)| == |Spelled(u)|
  {
    var whole := [Dash(word)] + next;
    assert whole[0] == Dash(word) && whole[1..] == next;
    var front := Spelled(u) + left;
    assert front[0] == Spelled(u)[0] && front[1..] == Spelled(u)[1..] + left;
    DashInjective(word, Spelled(u)[0][1..]);
    var v := u.(flags := [x] + u.flags);
    match u
    case Flags(p) =>
    case Attached(p, f, value) => Assoc([x], p, [f] + value);
    case Separate(p, f, value) => Assoc([x], p, [f]);
    assert Spelled(v)[0] == Dash([x] + word) && Spelled(v)[1..] == Spelled(u)[1..];
    assert Spelled(v) == [Dash([x] + word)] + Spelled(u)[1..];
    Assoc([Dash([x] + word)], Spelled(u)[1..], left);
  }

  lemma DashInjective(v: string, w: string)
    ensures Dash(v) == Dash(w) <==> v == w
    ensures Dash(v)[1..] == v
  {
    assert Dash(v)[1..] == v && Dash(w)[1..] == w;
  }

  /** An option word is wrong exactly when its letters end in an error. Otherwise its use is made of the
      word and perhaps the next argument, and does what the letters do. */
  predicate Explained(a: Args, mode: Mode, word: string, next: seq<string>) {
    var use, (a', left, error) := WordUse(word, next), Letters(a, word, next);
    && (use.Some? <==> error == None)
    && (use.Some? ==> [Dash(word)] + next == Spelled(use.value) + left && a' == Play(a, mode, use.value))
  }

  lemma {:induction false} WordUseFacts(a: Args, mode: Mode, word: string, next: seq<string>)
    ensures Explained(a, mode, word, next)
    decreases |word|
  {
    if word == "" {
    } else if IsBare(word[0]) {
      WordUseFacts(SetBare(a, word[0]), mode, word[1..], next);
      BareFront(a, mode, word, next);
    } else if TakesArgument(word[0]) {
      LastFlag(a, mode, word, next);
    }
  }

  lemma BareFront(a: Args, mode: Mode, word: string, next: seq<string>)
    requires word != "" && IsBare(word[0]) && Explained(SetBare(a, word[0]), mode, word[1..], next)
    ensures Explained(a, mode, word, next)
  {
    var x, rest := word[0], word[1..];
    assert word == [x] + rest;
    if WordUse(rest, next).Some? {
      var u := WordUse(rest, next).value;
      FlagInFront(x, u, rest, next, Letters(SetBare(a, x), rest, next).1);
      SetFlagInFront(a, x, u.flags);
    }
  }

  lemma SetFlagInFront(a: Args, x: char, flags: string)
    ensures SetFlags(a, [x] + flags) == SetFlags(SetBare(a, x), flags)
  {
    assert ([x] + flags)[1..] == flags;
  }

  lemma LastFlag(a: Args, mode: Mode, word: string, next: seq<string>)
    requires word != "" && !IsBare(word[0]) && TakesArgument(word[0])
    ensures Explained(a, mode, word, next)
  {
    var none: string := "";
    if |word| > 1 {
      assert none + ([word[0]] + word[1..]) == word;
    } else if next != [] {
      assert none + [word[0]] == word;
      assert [Dash(word)] + next == [Dash(word), next[0]] + next[1..];
    }
  }

  /** The uses, in order, are made of exactly the argument list, up to a wrong word; they do to the
      fields what the parser does; and nothing is left exactly when parsing succeeds. */
  lemma {:induction false} EveryArgumentUsedOnce(a: Args, mode: Mode, args: seq<string>)
    ensures var (us, rest) := Uses(args);
            && SpelledAll(us) + rest == args
            && Parsed(a, mode, args) == Parsed(PlayAll(a, mode, us), mode, rest)
            && (rest == [] <==> Parsed(a, mode, args).error == None)
    decreases |args|
  {
    if args == [] {
    } else if args[0] == "--" {
      LastUse(a, mode, Positionals(true, args[1..]));
      assert ["--"] + args[1..] == args;
    } else if IsPositional(args[0]) {
      LastUse(a, mode, Positionals(false, args));
    } else {
      var use := WordUse(args[0][1..], args[1..]);
      OptionFront(a, mode, args);
      if use.Some? {
        var u, left := use.value, args[|Spelled(use.value)|..];
        EveryArgumentUsedOnce(Play(a, mode, u), mode, left);
        UseInFront(a, mode, u, Uses(left).0, Uses(left).1);
      }
    }
  }

  /** The first option word of an argument list. */
  lemma OptionFront(a: Args, mode: Mode, args: seq<string>)
    requires args != [] && args[0] != "--" && !IsPositional(args[0])
    ensures match WordUse(args[0][1..], args[1..])
            case None => Parsed(a, mode, args).error.Some?
            case Some(u) =>
              && args == Spelled(u) + args[|Spelled(u)|..]
              && Parsed(a, mode, args) == Parsed(Play(a, mode, u), mode, args[|Spelled(u)|..])
  {
    var word, next := args[0][1..], args[1..];
    OptionWord(args[0]);
    WordUseFacts(a, mode, word, next);
    assert [args[0]] + next == args;
    if WordUse(word, next).Some? {
      var u, left := WordUse(word, next).value, Letters(a, word, next).1;
      assert args[|Spelled(u)|..] == left;
    }
  }

  lemma OptionWord(arg: string)
    requires arg != "--" && !IsPositional(arg)
    ensures arg == Dash(arg[1..])
  {
  }

  lemma UseInFront(a: Args, mode: Mode, u: Use, us: seq<Use>, rest: seq<string>)
    ensures SpelledAll([u] + us) + rest == Spelled(u) + (SpelledAll(us) + rest)
    ensures PlayAll(a, mode, [u] + us) == PlayAll(Play(a, mode, u), mode, us)
  {
    assert ([u] + us)[1..] == us;
    Assoc(Spelled(u), SpelledAll(us), rest);
  }

  lemma LastUse(a: Args, mode: Mode, u: Use)
    ensures SpelledAll([u]) + [] == Spelled(u)
    ensures PlayAll(a, mode, [u]) == Play(a, mode, u)
  {
    UseInFront(a, mode, u, [], []);
    assert [u] + [] == [u];
    assert Spelled(u) + (SpelledAll([]) + []) == Spelled(u);
  }
}
