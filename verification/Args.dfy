/** The command-line parser: a loop over arguments, inside it a loop over the letters of a word. */
module Args {
  import opened Text
  import opened ForwardSpec
  import Options

  type Directive = Options.Directive

  datatype Mode = OptionsOnly | OptionsHost | OptionsHostCommand

  /** The fields of a CLIArgs object that single flags set. */
  datatype Settings = Settings(
    port: string, user: string, configFile: string, options: seq<string>, printConfig: bool,
    queryType: string, tag: string, pkcs11: string, stdioFwd: string, ttyCount: nat, noTTY: bool,
    noCommand: bool, subsystem: bool, verbosity: nat, quiet: bool, logFile: string, version: bool,
    syslog: bool, ctlCmd: string)

  /** All fields of a CLIArgs object. */
  datatype Args = Args(
    settings: Settings, destination: string, command: seq<string>, rest: seq<string>, directives: seq<Directive>)

  datatype ArgError = NeedsArgument(flag: char) | UnknownFlag(flag: char)

  /** What parsing leaves behind: the fields set so far, and the error if there is one. */
  datatype Outcome = Outcome(args: Args, error: Option<ArgError>)

  function One(keyword: string, value: string): seq<Directive> {
    [Options.Directive(keyword, value)]
  }

  predicate IsBare(flag: char) {
    flag in {'4', '6', 'A', 'a', 'C', 'g', 'K', 'k', 'M', 'N', 'X', 'x', 'Y', 'f', 'n', 's', 'T', 'G', 'V', 'y',
             'q', 'v', 't'}
  }

  predicate TakesArgument(flag: char) {
    flag in {'B', 'b', 'c', 'D', 'e', 'I', 'i', 'J', 'L', 'l', 'm', 'O', 'o', 'P', 'p', 'Q', 'R', 'S', 'W', 'w',
             'E', 'F'}
  }

  /** The directives a flag without argument stands for. */
  function BareDirectives(flag: char): seq<Directive> {
    match flag
    case '4' => One("AddressFamily", "inet")
    case '6' => One("AddressFamily", "inet6")
    case 'A' => One("ForwardAgent", "yes")
    case 'a' => One("ForwardAgent", "no")
    case 'C' => One("Compression", "yes")
    case 'g' => One("GatewayPorts", "yes")
    case 'K' => One("GSSAPIAuthentication", "yes") + One("GSSAPIDelegateCredentials", "yes")
    case 'k' => One("GSSAPIDelegateCredentials", "no")
    case 'M' => One("ControlMaster", "yes")
    case 'N' => One("SessionType", "none")
    case 'X' => One("ForwardX11", "yes")
    case 'x' => One("ForwardX11", "no")
    case 'Y' => One("ForwardX11", "yes") + One("ForwardX11Trusted", "yes")
    case 'f' => One("StdinNull", "yes") + One("ForkAfterAuthentication", "yes")
    case 'n' => One("StdinNull", "yes")
    case 's' => One("SessionType", "subsystem")
    case _ => []
  }

  /** The directives a flag with argument stands for. */
  function ArgumentDirectives(flag: char, value: string): seq<Directive> {
    match flag
    case 'B' => One("BindInterface", value)
    case 'b' => One("BindAddress", value)
    case 'c' => One("Ciphers", value)
    case 'D' => One("DynamicForward", value)
    case 'e' => One("EscapeChar", value)
    case 'I' => One("PKCS11Provider", value)
    case 'i' => One("IdentityFile", value)
    case 'J' => One("ProxyJump", value)
    case 'L' => One("LocalForward", ConvertForwardSpec(value))
    case 'm' => One("MACs", value)
    case 'p' => One("Port", value)
    case 'R' => One("RemoteForward", ConvertForwardSpec(value))
    case 'S' => One("ControlPath", value)
    case 'w' => One("Tunnel", "yes") + One("TunnelDevice", value)
    case _ => []
  }

  /** The field a flag without argument sets. */
  function BareField(f: Settings, flag: char): Settings {
    match flag
    case 'N' => f.(noCommand := true)
    case 's' => f.(subsystem := true)
    case 'T' => f.(noTTY := true)
    case 'G' => f.(printConfig := true)
    case 'V' => f.(version := true)
    case 'y' => f.(syslog := true)
    case 'q' => f.(quiet := true)
    case 'v' => f.(verbosity := f.verbosity + 1)
    case 't' => f.(ttyCount := f.ttyCount + 1)
    case _ => f
  }

  /** The field a flag with argument sets. */
  function ArgumentField(f: Settings, flag: char, value: string): Settings {
    match flag
    case 'I' => f.(pkcs11 := value)
    case 'l' => f.(user := value)
    case 'O' => f.(ctlCmd := value)
    case 'o' => f.(options := f.options + [value])
    case 'P' => f.(tag := value)
    case 'p' => f.(port := value)
    case 'Q' => f.(queryType := value)
    case 'W' => f.(stdioFwd := value)
    case 'E' => f.(logFile := value)
    case 'F' => f.(configFile := value)
    case _ => f
  }

  function AddAll(a: Args, more: seq<Directive>): Args {
    a.(directives := a.directives + more)
  }

  function SetBare(a: Args, flag: char): Args {
    AddAll(a.(settings := BareField(a.settings, flag)), BareDirectives(flag))
  }

  function SetArgument(a: Args, flag: char, value: string): Args {
    AddAll(a.(settings := ArgumentField(a.settings, flag, value)), ArgumentDirectives(flag, value))
  }

  /** The fields, the arguments left and the error after the letters of one word. An argument of a flag
      is the rest of the word, or else the next argument; nothing behind that is touched. */
  function Letters(a: Args, word: string, next: seq<string>): (r: (Args, seq<string>, Option<ArgError>))
    ensures r.1 == next || (next != [] && r.1 == next[1..])
    decreases |word|
  {
    if word == "" then (a, next, None)
    else
      var flag := word[0];
      if IsBare(flag) then Letters(SetBare(a, flag), word[1..], next)
      else if !TakesArgument(flag) then (a, next, Some(UnknownFlag(flag)))
      else if |word| > 1 then (SetArgument(a, flag, word[1..]), next, None)
      else if next == [] then (a, next, Some(NeedsArgument(flag)))
      else (SetArgument(a, flag, next[0]), next[1..], None)
  }

  /** consumePositional */
  function Positional(a: Args, words: seq<string>, mode: Mode): Args {
    if words == [] then a
    else if mode == OptionsOnly then a.(rest := a.rest + words)
    else
      var named := if a.destination == "" then a.(destination := words[0]) else a;
      var left := if a.destination == "" then words[1..] else words;
      if mode == OptionsHost then named.(rest := named.rest + left)
      else named.(command := named.command + left)
  }

  /** A word that ends option parsing. */
  predicate IsPositional(word: string) {
    !("-" <= word) || word == "-"
  }

  /** CLIArgs.Parse */
  function Parsed(a: Args, mode: Mode, args: seq<string>): Outcome
    decreases |args|
  {
    if args == [] then Outcome(a, None)
    else if args[0] == "--" then Outcome(Positional(a, args[1..], mode), None)
    else if IsPositional(args[0]) then Outcome(Positional(a, args, mode), None)
    else
      var (a', next, error) := Letters(a, args[0][1..], args[1..]);
      if error.Some? then Outcome(a', error) else Parsed(a', mode, next)
  }

  // ---- the parser object ----

  class CLIArgs {
    /** The struct's fields, kept as one record. */
    var fields: Args

    constructor (fields: Args)
      ensures this.fields == fields
    {
      this.fields := fields;
    }

    /** The cases of the switch that need no argument. */
    method DoBare(flag: char)
      requires IsBare(flag)
      modifies this
      ensures fields == SetBare(old(fields), flag)
    {
      var f := fields.settings;
      match flag {
        case 'N' => f := f.(noCommand := true);
        case 's' => f := f.(subsystem := true);
        case 'T' => f := f.(noTTY := true);
        case 'G' => f := f.(printConfig := true);
        case 'V' => f := f.(version := true);
        case 'y' => f := f.(syslog := true);
        case 'q' => f := f.(quiet := true);
        case 'v' => f := f.(verbosity := f.verbosity + 1);
        case 't' => f := f.(ttyCount := f.ttyCount + 1);
        case _ =>
      }
      fields := AddAll(fields.(settings := f), BareDirectives(flag));
    }

    /** The cases of the switch that have fetched an argument. */
    method DoArgument(flag: char, value: string)
      requires TakesArgument(flag)
      modifies this
      ensures fields == SetArgument(old(fields), flag, value)
    {
      var f := fields.settings;
      match flag {
        case 'I' => f := f.(pkcs11 := value);
        case 'l' => f := f.(user := value);
        case 'O' => f := f.(ctlCmd := value);
        case 'o' => f := f.(options := f.options + [value]);
        case 'P' => f := f.(tag := value);
        case 'p' => f := f.(port := value);
        case 'Q' => f := f.(queryType := value);
        case 'W' => f := f.(stdioFwd := value);
        case 'E' => f := f.(logFile := value);
        case 'F' => f := f.(configFile := value);
        case _ =>
      }
      fields := AddAll(fields.(settings := f), ArgumentDirectives(flag, value));
    }

    method ConsumePositional(words: seq<string>, mode: Mode)
      modifies this
      ensures fields == Positional(old(fields), words, mode)
    {
      if |words| == 0 { return; }
      if mode == OptionsOnly {
        fields := fields.(rest := fields.rest + words);
        return;
      }
      var left := words;
      if fields.destination == "" {
        fields, left := fields.(destination := left[0]), left[1..];
      }
      if mode == OptionsHost {
        fields := fields.(rest := fields.rest + left);
      } else {
        fields := fields.(command := fields.command + left);
      }
    }

    /** The inner loop of Parse, over the letters of one word. Fetching an argument moves both indices:
        `j` to the end of the word, and `i` when the argument is the next one. */
    method ParseWord(word: string, args: seq<string>, start: nat) returns (i: nat, error: Option<ArgError>)
      requires start <= |args|
      modifies this
      ensures start <= i <= |args|
      ensures (fields, args[i..], error) == Letters(old(fields), word, args[start..])
    {
      i := start;
      var j := 0;
      assert word[0..] == word;
      while j < |word|
        invariant 0 <= j <= |word| && start <= i <= |args|
        invariant j < |word| ==> i == start
        invariant Letters(fields, word[j..], args[i..]) == Letters(old(fields), word, args[start..])
      {
        var flag := word[j];
        assert word[j..][0] == flag && word[j..][1..] == word[j + 1..];
        if IsBare(flag) {
          DoBare(flag);
          j := j + 1;
          continue;
        }
        if !TakesArgument(flag) { return i, Some(UnknownFlag(flag)); }
        var value: string;
        if j + 1 < |word| {
          value := word[j + 1..];
        } else if i < |args| {
          value := args[i];
          assert args[i..][0] == value && args[i..][1..] == args[i + 1..];
          i := i + 1;
        } else {
          return i, Some(NeedsArgument(flag));
        }
        DoArgument(flag, value);
        j := |word|;
      }
      error := None;
    }

    method Parse(mode: Mode, args: seq<string>) returns (error: Option<ArgError>)
      modifies this
      ensures Outcome(fields, error) == Parsed(old(fields), mode, args)
    {
      var i := 0;
      assert args[0..] == args;
      while i < |args|
        invariant 0 <= i <= |args|
        invariant Parsed(fields, mode, args[i..]) == Parsed(old(fields), mode, args)
      {
        var arg := args[i];
        assert args[i..][0] == arg && args[i..][1..] == args[i + 1..];
        if arg == "--" {
          ConsumePositional(args[i + 1..], mode);
          return None;
        }
        if !("-" <= arg) || arg == "-" {
          ConsumePositional(args[i..], mode);
          return None;
        }
        i, error := ParseWord(arg[1..], args, i + 1);
        if error.Some? { return; }
      }
      return None;
    }
  }
}
