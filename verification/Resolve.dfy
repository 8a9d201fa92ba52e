/** Resolution: entries are gathered from the command line and the configuration files, folded in up to
    three passes that are merged, and the paths in the result are expanded. */
module Resolve {
  import opened Text
  import opened Conditions
  import opened Options
  import opened PathExpansion
  import opened Override
  import Parser
  import Token
  import Decimal

  type Entry = Parser.Entry

  datatype Lookup = Lookup(
    host: string, user: string, port: int, originalHost: string, localUser: string,
    command: string, tag: string, version: string, sessionType: string)

  /** What the machine says of itself. `tilde` expands a leading tilde for the current user, and
      `hash` is the connection hash of its text. */
  datatype Machine = Machine(localUser: string, version: string, hostName: string, userID: string,
                             homeDir: string, localAddresses: seq<IP>, tilde: string -> string,
                             hash: string -> string)

  /** What resolution is given besides the lookup: the keyword table, the outside world of the
      conditions, the canonicalizer ("" when it fails), the defaults, and the machine. */
  datatype Setup = Setup(table: Table, outside: Outside, canonicalize: (string, State) -> string,
                         defaults: map<Field, Value>, identityDefaults: seq<Item>, machine: Machine)

  /** A configuration file as Include sees it, and whether it is there. */
  datatype ConfigFile = ConfigFile(present: bool, env: Parser.Env, path: string)

  /** Where entries come from: directives of flags, `-o` options, the two configuration files. */
  datatype Sources = Sources(flags: seq<Directive>, options: seq<string>, user: ConfigFile, system: ConfigFile)

  datatype ResolveError =
    | BadOverride(number: nat)
    | BadUserConfig(cause: Parser.Failure)
    | BadSystemConfig(cause: Parser.Failure)
    | Failed(failure: Failure)
    | Refused(reason: Value)

  // ---- the entries ----

  function FlagEntries(flags: seq<Directive>): (r: seq<Entry>)
    ensures |r| == |flags|
  {
    seq(|flags|, i requires 0 <= i < |flags| =>
      Parser.Entry(None, flags[i].keyword, flags[i].value, Parser.SourceInfo("command-line", 0)))
  }

  function FileEntries(file: ConfigFile): Parser.Parsed {
    if file.present then Parser.ParsedFile(file.env.(maxDepth := Parser.EffectiveDepth(0)), file.path) else Ok([])
  }

  /** All entries, highest priority first. */
  function AllEntries(src: Sources): Result<seq<Entry>, ResolveError> {
    match OverrideEntries(src.options, 1)
    case Err(n) => Err(BadOverride(n))
    case Ok(overrides) =>
      match FileEntries(src.user)
      case Err(f) => Err(BadUserConfig(f))
      case Ok(user) =>
        match FileEntries(src.system)
        case Err(f) => Err(BadSystemConfig(f))
        case Ok(system) => Ok(FlagEntries(src.flags) + overrides + user + system)
  }

  method ReadConfig(file: ConfigFile) returns (r: Parser.Parsed)
    ensures r == FileEntries(file)
  {
    if !file.present { return Ok([]); }
    r := Parser.ParseFile(file.env, 0, file.path);
  }

  method GatherEntries(src: Sources) returns (r: Result<seq<Entry>, ResolveError>)
    ensures r == AllEntries(src)
  {
    var all: seq<Entry> := [];
    for i := 0 to |src.flags|
      invariant all == FlagEntries(src.flags)[..i]
    {
      all := all + [Parser.Entry(None, src.flags[i].keyword, src.flags[i].value, Parser.SourceInfo("command-line", 0))];
    }
    assert all == FlagEntries(src.flags);
    var overrides := ParseOverrides(src.options);
    if overrides.Err? { return Err(BadOverride(overrides.error)); }
    var user := ReadConfig(src.user);
    if user.Err? { return Err(BadUserConfig(user.error)); }
    var system := ReadConfig(src.system);
    if system.Err? { return Err(BadSystemConfig(system.error)); }
    return Ok(all + overrides.value + user.value + system.value);
  }

  // ---- the passes ----

  /** The lookup with its defaults filled in. */
  function Completed(m: Machine, l: Lookup): Lookup {
    l.(originalHost := if l.originalHost == "" then l.host else l.originalHost,
       localUser := if l.localUser == "" then m.localUser else l.localUser,
       version := if l.version == "" then m.version else l.version)
  }

  function InitialContext(m: Machine, l: Lookup): MatchContext {
    MatchContext(l.user, l.host, l.originalHost, l.localUser,
                 Decimal.Signed(if l.port == 0 then 22 else l.port), l.command, l.tag, l.version, l.sessionType,
                 [], "", None, "", None, "", "", false, m.localAddresses, false, false)
  }

  function DirectiveOf(e: Entry): Directive {
    Directive(e.keyword, e.value)
  }

  function StrOf(v: Option<Value>): Option<string> {
    if v.Some? && v.value.Str? then Some(v.value.s) else None
  }

  /** The context follows the resolved user (once) and tag; never the host name. */
  function Track(ctx: MatchContext, s: State): MatchContext {
    var user := StrOf(s.Scalar(User));
    var tag := StrOf(s.Scalar(Tag));
    ctx.(user := if user.Some? && ctx.user == "" then user.value else ctx.user,
         tag := if tag.Some? then tag.value else ctx.tag)
  }

  /** The first pass, in which the context moves along with the options. */
  function NormalPass(e: Setup, entries: seq<Entry>, ctx: MatchContext, s: State)
    : Result<(State, MatchContext), Failure>
    decreases |entries|
  {
    if entries == [] then Ok((s, ctx))
    else if !AllHold(e.outside, entries[0].conditions, ctx) then NormalPass(e, entries[1..], ctx, s)
    else match Apply(e.table, s, DirectiveOf(entries[0]))
      case Err(f) => Err(f)
      case Ok(s') => NormalPass(e, entries[1..], Track(ctx, s'), s')
  }

  /** The directives of the entries that match a fixed context. */
  function Matching(o: Outside, entries: seq<Entry>, ctx: MatchContext): seq<Directive> {
    if entries == [] then []
    else if AllHold(o, entries[0].conditions, ctx) then [DirectiveOf(entries[0])] + Matching(o, entries[1..], ctx)
    else Matching(o, entries[1..], ctx)
  }

  function WithNames(l: Lookup, s: State): State {
    var user := if l.user != "" then l.user else l.localUser;
    s.(scalars := SetFirst(SetFirst(s.scalars, Hostname, Str(l.host)), User, Str(user)))
  }

  /** The name to re-parse under; "" when canonicalization is off or fails. */
  function CanonicalName(e: Setup, s: State): string {
    var wanted := StrOf(s.Scalar(CanonicalizeHostname));
    var host := StrOf(s.Scalar(Hostname));
    if (wanted == Some("yes") || wanted == Some("always")) && host.Some? then e.canonicalize(host.value, s) else ""
  }

  function CanonicalContext(ctx: MatchContext, name: string): MatchContext {
    if name == "" then ctx else ctx.(host := name, isCanonical := true)
  }

  function CanonicalPass(e: Setup, entries: seq<Entry>, ctx: MatchContext, s: State): Result<State, Failure> {
    var name := CanonicalName(e, s);
    if name == "" then Ok(s)
    else match ApplyAll(e.table, EMPTY, Matching(e.outside, entries, CanonicalContext(ctx, name)))
      case Err(f) => Err(f)
      case Ok(c) => Ok(Merge(s.(scalars := s.scalars[Hostname := Str(name)]), c))
  }

  function FinalContext(e: Setup, ctx: MatchContext, s: State): MatchContext {
    CanonicalContext(ctx, CanonicalName(e, s)).(isFinal := true)
  }

  function Finish(e: Setup, l: Lookup, s: State): Result<State, ResolveError> {
    var ported := if l.port != 0 then s.scalars[Port := Int(l.port)] else s.scalars;
    var scalars := e.defaults + ported;
    var lists := if s.List(IdentityFile) == [] then s.lists[IdentityFile := e.identityDefaults] else s.lists;
    var cleared := if ClearAllForwardings in scalars && scalars[ClearAllForwardings] == Bool(true)
                   then lists[LocalForward := []][RemoteForward := []][DynamicForward := []] else lists;
    if RefuseConnection in scalars then Err(Refused(scalars[RefuseConnection]))
    else Ok(State(scalars, cleared, s.ignored))
  }

  /** The passes over the entries, for a completed lookup, up to the expansion of paths. */
  function Resolved(e: Setup, l: Lookup, entries: seq<Entry>): Result<State, ResolveError> {
    match NormalPass(e, entries, InitialContext(e.machine, l), EMPTY)
    case Err(f) => Err(Failed(f))
    case Ok((s, ctx)) =>
      var named := WithNames(l, s);
      match CanonicalPass(e, entries, ctx, named)
      case Err(f) => Err(Failed(f))
      case Ok(c) =>
        match ApplyAll(e.table, EMPTY, Matching(e.outside, entries, FinalContext(e, ctx, named)))
        case Err(f) => Err(Failed(f))
        case Ok(final) => Finish(e, l, Merge(c, final))
  }

  function TextOf(v: Option<Value>): string {
    StrOf(v).GetOr("")
  }

  /** The context in which paths are expanded. */
  function PathContext(m: Machine, l: Lookup, s: State): Token.TokenContext {
    var host, user, jump := TextOf(s.Scalar(Hostname)), TextOf(s.Scalar(User)), TextOf(s.Scalar(ProxyJump));
    var port := if s.Scalar(Port).Some? && s.Scalar(Port).value.Int?
                then Decimal.Signed(s.Scalar(Port).value.i) else "";
    Token.TokenContext(host, port, user, l.localUser, m.homeDir, m.hostName, m.hostName, l.originalHost, m.userID,
                       jump, StrOf(s.Scalar(HostKeyAlias)).GetOr(l.originalHost),
                       m.hash(m.hostName + host + port + user + jump), "", "", "", "", "", "")
  }

  /** Lookup.Resolve */
  function Resolution(e: Setup, lookup: Lookup, src: Sources): Result<State, ResolveError> {
    match AllEntries(src)
    case Err(error) => Err(error)
    case Ok(entries) =>
      var l := Completed(e.machine, lookup);
      match Resolved(e, l, entries)
      case Err(error) => Err(error)
      case Ok(s) => Ok(ExpandPaths(s, PathContext(e.machine, l, s), e.machine.tilde))
  }

  // ---- the program's loops ----

  method RunNormalPass(e: Setup, entries: seq<Entry>, start: MatchContext, opts: OptionSet)
    returns (r: Result<MatchContext, Failure>)
    modifies opts
    ensures match NormalPass(e, entries, start, old(opts.Contents()))
            case Ok((s, ctx)) => r == Ok(ctx) && opts.Contents() == s
            case Err(f) => r == Err(f)
  {
    var ctx := start;
    assert entries[0..] == entries;
    for i := 0 to |entries|
      invariant NormalPass(e, entries, start, old(opts.Contents())) ==
                NormalPass(e, entries[i..], ctx, opts.Contents())
    {
      assert entries[i..][0] == entries[i] && entries[i..][1..] == entries[i + 1..];
      var holds := EvaluateConditions(e.outside, entries[i].conditions, ctx);
      if !holds { continue; }
      var error := opts.ApplyDirective(e.table, DirectiveOf(entries[i]));
      if error.Some? { return Err(error.value); }
      var user, tag := StrOf(opts.Contents().Scalar(User)), StrOf(opts.Contents().Scalar(Tag));
      if user.Some? && ctx.user == "" {
        ctx := ctx.(user := user.value);
      }
      if tag.Some? {
        ctx := ctx.(tag := tag.value);
      }
    }
    return Ok(ctx);
  }

  /** A later pass: fresh options, fixed context. */
  method RunFixedPass(e: Setup, entries: seq<Entry>, ctx: MatchContext)
    returns (opts: OptionSet, error: Option<Failure>)
    ensures fresh(opts)
    ensures match ApplyAll(e.table, EMPTY, Matching(e.outside, entries, ctx))
            case Ok(s) => error == None && opts.Contents() == s
            case Err(f) => error == Some(f)
  {
    opts := new OptionSet();
    ghost var all := Matching(e.outside, entries, ctx);
    assert entries[0..] == entries;
    for i := 0 to |entries|
      invariant ApplyAll(e.table, EMPTY, all) ==
                ApplyAll(e.table, opts.Contents(), Matching(e.outside, entries[i..], ctx))
    {
      assert entries[i..][0] == entries[i] && entries[i..][1..] == entries[i + 1..];
      var holds := EvaluateConditions(e.outside, entries[i].conditions, ctx);
      if !holds { continue; }
      ghost var rest := Matching(e.outside, entries[i + 1..], ctx);
      assert ([DirectiveOf(entries[i])] + rest)[1..] == rest;
      error := opts.ApplyDirective(e.table, DirectiveOf(entries[i]));
      if error.Some? { return; }
    }
    error := None;
  }

  /** The two merged passes behind the first one. */
  method RunLaterPasses(e: Setup, entries: seq<Entry>, start: MatchContext, opts: OptionSet)
    returns (error: Option<Failure>)
    modifies opts
    ensures var s := old(opts.Contents());
            match CanonicalPass(e, entries, start, s)
            case Err(f) => error == Some(f)
            case Ok(c) =>
              match ApplyAll(e.table, EMPTY, Matching(e.outside, entries, FinalContext(e, start, s)))
              case Err(f) => error == Some(f)
              case Ok(final) => error == None && opts.Contents() == Merge(c, final)
  {
    var ctx := start;
    var name := CanonicalName(e, opts.Contents());
    if name != "" {
      opts.scalars := opts.scalars[Hostname := Str(name)];
      ctx := ctx.(host := name, isCanonical := true);
      var canonOpts, failure := RunFixedPass(e, entries, ctx);
      if failure.Some? { return failure; }
      opts.MergeFrom(canonOpts);
    }
    ctx := ctx.(isFinal := true);
    var finalOpts, failure := RunFixedPass(e, entries, ctx);
    if failure.Some? { return failure; }
    opts.MergeFrom(finalOpts);
    return None;
  }

  method RunPasses(e: Setup, l: Lookup, entries: seq<Entry>) returns (r: Result<State, ResolveError>)
    ensures r == Resolved(e, l, entries)
  {
    var opts := new OptionSet();
    var pass := RunNormalPass(e, entries, InitialContext(e.machine, l), opts);
    if pass.Err? { return Err(Failed(pass.error)); }
    opts.SetScalar(Hostname, Str(l.host));
    opts.SetScalar(User, Str(if l.user != "" then l.user else l.localUser));
    var error := RunLaterPasses(e, entries, pass.value, opts);
    if error.Some? { return Err(Failed(error.value)); }
    return Finish(e, l, opts.Contents());
  }

  method RunResolve(e: Setup, lookup: Lookup, src: Sources) returns (r: Result<State, ResolveError>)
    ensures r == Resolution(e, lookup, src)
  {
    var l := Completed(e.machine, lookup);
    var entries := GatherEntries(src);
    if entries.Err? { return Err(entries.error); }
    var s := RunPasses(e, l, entries.value);
    if s.Err? { return s; }
    var opts := new OptionSet();
    opts.scalars, opts.lists, opts.ignored := s.value.scalars, s.value.lists, s.value.ignored;
    ExpandPathTokens(opts, PathContext(e.machine, l, s.value), e.machine.tilde);
    return Ok(opts.Contents());
  }
}
