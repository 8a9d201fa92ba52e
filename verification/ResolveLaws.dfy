/** What resolution leaves in every field, how the context of the first pass moves, and how the
    passes relate. */
module ResolveLaws {
  import opened Text
  import opened PatternList
  import opened Conditions
  import opened Options
  import opened MergeLaw
  import opened Resolve
  import Parser
  import Scoping
  import PathExpansion
  import Override
  import Token

  // ---- the first pass as a directive list ----

  /** The directives the first pass applies, up to and including one that fails. */
  function Followed(e: Setup, entries: seq<Entry>, ctx: MatchContext, s: State): seq<Directive>
    decreases |entries|
  {
    if entries == [] then []
    else if !AllHold(e.outside, entries[0].conditions, ctx) then Followed(e, entries[1..], ctx, s)
    else match Apply(e.table, s, DirectiveOf(entries[0]))
      case Err(_) => [DirectiveOf(entries[0])]
      case Ok(s') => [DirectiveOf(entries[0])] + Followed(e, entries[1..], Track(ctx, s'), s')
  }

  lemma {:induction false} NormalPassApplies(e: Setup, entries: seq<Entry>, ctx: MatchContext, s: State)
    ensures match NormalPass(e, entries, ctx, s)
            case Ok((s', _)) => ApplyAll(e.table, s, Followed(e, entries, ctx, s)) == Ok(s')
            case Err(f) => ApplyAll(e.table, s, Followed(e, entries, ctx, s)) == Err(f)
    decreases |entries|
  {
    if entries != [] {
      if !AllHold(e.outside, entries[0].conditions, ctx) {
        NormalPassApplies(e, entries[1..], ctx, s);
      } else {
        var d := DirectiveOf(entries[0]);
        var applied := Apply(e.table, s, d);
        if applied.Ok? {
          NormalPassApplies(e, entries[1..], Track(ctx, applied.value), applied.value);
          var rest := Followed(e, entries[1..], Track(ctx, applied.value), applied.value);
          assert ([d] + rest)[1..] == rest;
        }
      }
    }
  }

  // ---- the three passes ----

  /** The handler runs of the three passes, and the name of the canonical one ("" when there is none). */
  datatype Passes = Passes(normal: seq<Step>, name: string, canonical: seq<Step>, final: seq<Step>)

  function All(p: Passes): seq<Step> {
    p.normal + p.canonical + p.final
  }

  function FixedSteps(e: Setup, entries: seq<Entry>, ctx: MatchContext): seq<Step> {
    Effective(e.table, {}, Matching(e.outside, entries, ctx))
  }

  /** No pass ends in an error; the connection may still be refused at the end. */
  predicate RunsThrough(e: Setup, l: Lookup, entries: seq<Entry>) {
    Resolved(e, l, entries).Ok? || Resolved(e, l, entries).error.Refused?
  }

  function PassesOf(e: Setup, l: Lookup, entries: seq<Entry>): Passes
    requires RunsThrough(e, l, entries)
  {
    var start := InitialContext(e.machine, l);
    var (s, ctx) := NormalPass(e, entries, start, EMPTY).value;
    var name := CanonicalName(e, WithNames(l, s));
    var canonical := CanonicalContext(ctx, name);
    Passes(Effective(e.table, {}, Followed(e, entries, start, EMPTY)), name,
           if name == "" then [] else FixedSteps(e, entries, canonical),
           FixedSteps(e, entries, canonical.(isFinal := true)))
  }

  /** The options before the finishing touches, from the three runs. */
  function Combined(l: Lookup, p: Passes): State {
    var named := WithNames(l, Run(EMPTY, p.normal));
    var c := if p.name == "" then named
             else Merge(named.(scalars := named.scalars[Hostname := Str(p.name)]), Run(EMPTY, p.canonical));
    Merge(c, Run(EMPTY, p.final))
  }

  lemma ResolvedIsCombined(e: Setup, l: Lookup, entries: seq<Entry>)
    requires RunsThrough(e, l, entries)
    ensures Resolved(e, l, entries) == Finish(e, l, Combined(l, PassesOf(e, l, entries)))
  {
    var start := InitialContext(e.machine, l);
    NormalPassApplies(e, entries, start, EMPTY);
    ApplyAllRuns(e.table, EMPTY, Followed(e, entries, start, EMPTY));
    var (s, ctx) := NormalPass(e, entries, start, EMPTY).value;
    var canonical := CanonicalContext(ctx, CanonicalName(e, WithNames(l, s)));
    ApplyAllRuns(e.table, EMPTY, Matching(e.outside, entries, canonical));
    ApplyAllRuns(e.table, EMPTY, Matching(e.outside, entries, canonical.(isFinal := true)));
  }

  lemma MergedScalarIs(x: State, y: State, f: Field)
    ensures Merge(x, y).Scalar(f) == OrElse(x.Scalar(f), y.Scalar(f))
  {
  }

  lemma EmptyRunScalar(steps: seq<Step>, f: Field)
    ensures Run(EMPTY, steps).Scalar(f) == FirstValid(steps, f)
  {
    RunScalar(EMPTY, steps, f);
  }

  lemma FirstOverPasses(p: Passes, f: Field)
    ensures FirstValid(All(p), f) ==
            OrElse(OrElse(FirstValid(p.normal, f), FirstValid(p.canonical, f)), FirstValid(p.final, f))
  {
    FirstValidAppend(p.normal + p.canonical, p.final, f);
    FirstValidAppend(p.normal, p.canonical, f);
  }

  function ValueOr(v: Option<Value>, default: string): Value {
    if v.Some? then v.value else Str(default)
  }

  /** The canonical name, else what the first pass found, else the lookup's host. */
  function HostnameOf(l: Lookup, p: Passes): Value {
    if p.name != "" then Str(p.name) else ValueOr(FirstValid(p.normal, Hostname), l.host)
  }

  function UserOf(l: Lookup, p: Passes): Value {
    ValueOr(FirstValid(p.normal, User), if l.user != "" then l.user else l.localUser)
  }

  lemma CombinedScalar(l: Lookup, p: Passes, f: Field)
    requires p.name == "" ==> p.canonical == []
    ensures f != Hostname && f != User ==> Combined(l, p).Scalar(f) == FirstValid(All(p), f)
    ensures f == Hostname ==> Combined(l, p).Scalar(f) == Some(HostnameOf(l, p))
    ensures f == User ==> Combined(l, p).Scalar(f) == Some(UserOf(l, p))
  {
    var normal, canonical, final := Run(EMPTY, p.normal), Run(EMPTY, p.canonical), Run(EMPTY, p.final);
    var named := WithNames(l, normal);
    var renamed := named.(scalars := named.scalars[Hostname := Str(p.name)]);
    EmptyRunScalar(p.normal, f);
    EmptyRunScalar(p.canonical, f);
    EmptyRunScalar(p.final, f);
    FirstOverPasses(p, f);
    MergedScalarIs(renamed, canonical, f);
    MergedScalarIs(if p.name == "" then named else Merge(renamed, canonical), final, f);
  }

  function DefaultOf(e: Setup, f: Field): Option<Value> {
    if f in e.defaults then Some(e.defaults[f]) else None
  }

  lemma FinishScalar(e: Setup, l: Lookup, s: State, f: Field)
    requires Finish(e, l, s).Ok?
    ensures Finish(e, l, s).value.Scalar(f) ==
            if f == Port && l.port != 0 then Some(Int(l.port)) else OrElse(s.Scalar(f), DefaultOf(e, f))
  {
  }

  /** Every scalar but Hostname, User and Port is the first valid value over the three passes in order,
      else its default. */
  lemma ResolvedScalar(e: Setup, l: Lookup, entries: seq<Entry>, f: Field)
    requires Resolved(e, l, entries).Ok? && f !in {Hostname, User, Port}
    ensures Resolved(e, l, entries).value.Scalar(f) ==
            OrElse(FirstValid(All(PassesOf(e, l, entries)), f), DefaultOf(e, f))
  {
    var p := PassesOf(e, l, entries);
    ResolvedIsCombined(e, l, entries);
    CombinedScalar(l, p, f);
    FinishScalar(e, l, Combined(l, p), f);
  }

  /** The three exceptions. A canonical name wins over everything; otherwise only the first pass can
      set the host name and the user; a command-line port wins over everything. */
  lemma ResolvedNames(e: Setup, l: Lookup, entries: seq<Entry>)
    requires Resolved(e, l, entries).Ok?
    ensures Resolved(e, l, entries).value.Scalar(Hostname) == Some(HostnameOf(l, PassesOf(e, l, entries)))
    ensures Resolved(e, l, entries).value.Scalar(User) == Some(UserOf(l, PassesOf(e, l, entries)))
    ensures Resolved(e, l, entries).value.Scalar(Port) ==
            if l.port != 0 then Some(Int(l.port))
            else OrElse(FirstValid(All(PassesOf(e, l, entries)), Port), DefaultOf(e, Port))
  {
    var p := PassesOf(e, l, entries);
    ResolvedIsCombined(e, l, entries);
    CombinedScalar(l, p, Hostname);
    CombinedScalar(l, p, User);
    CombinedScalar(l, p, Port);
    FinishScalar(e, l, Combined(l, p), Hostname);
    FinishScalar(e, l, Combined(l, p), User);
    FinishScalar(e, l, Combined(l, p), Port);
  }

  lemma CombinedList(l: Lookup, p: Passes, f: ListField)
    requires p.name == "" ==> p.canonical == []
    ensures Combined(l, p).List(f) ==
            RunList([], p.normal, f) + RunList([], p.canonical, f) + RunList([], p.final, f)
  {
    var normal, canonical, final := Run(EMPTY, p.normal), Run(EMPTY, p.canonical), Run(EMPTY, p.final);
    var named := WithNames(l, normal);
    var renamed := named.(scalars := named.scalars[Hostname := Str(p.name)]);
    EmptyRunList(p.normal, f);
    EmptyRunList(p.canonical, f);
    EmptyRunList(p.final, f);
    assert named.List(f) == renamed.List(f) == normal.List(f);
    MergedList(renamed, canonical, f);
    MergedList(if p.name == "" then named else Merge(renamed, canonical), final, f);
    assert RunList([], p.normal, f) + [] == RunList([], p.normal, f);
  }

  predicate Forwarding(f: ListField) {
    f == LocalForward || f == RemoteForward || f == DynamicForward
  }

  lemma FinishList(e: Setup, l: Lookup, s: State, f: ListField)
    requires Finish(e, l, s).Ok?
    ensures PlainList(f) ==>
              (Finish(e, l, s).value.List(f) ==
               if Forwarding(f) && Finish(e, l, s).value.Scalar(ClearAllForwardings) == Some(Bool(true)) then []
               else s.List(f))
    ensures f == IdentityFile ==>
              (Finish(e, l, s).value.List(f) == if s.List(f) == [] then e.identityDefaults else s.List(f))
  {
  }

  lemma PlainRunIsContribution(steps: seq<Step>, f: ListField)
    requires PlainList(f)
    ensures RunList([], steps, f) == Contribution(steps, f)
  {
    RunPlainList([], steps, f);
    assert [] + Contribution(steps, f) == Contribution(steps, f);
  }

  lemma CombinedPlainList(l: Lookup, p: Passes, f: ListField)
    requires (p.name == "" ==> p.canonical == []) && PlainList(f)
    ensures Combined(l, p).List(f) ==
            Contribution(p.normal, f) + Contribution(p.canonical, f) + Contribution(p.final, f)
  {
    CombinedList(l, p, f);
    PlainRunIsContribution(p.normal, f);
    PlainRunIsContribution(p.canonical, f);
    PlainRunIsContribution(p.final, f);
  }

  /** Every append-only list is the concatenation of what the three passes append: what the first pass
      gathers is gathered again by the final one. Forwardings are dropped as a whole when asked for. */
  lemma ResolvedPlainList(e: Setup, l: Lookup, entries: seq<Entry>, f: ListField)
    requires Resolved(e, l, entries).Ok? && PlainList(f)
    ensures var p := PassesOf(e, l, entries);
            Resolved(e, l, entries).value.List(f) ==
            if Forwarding(f) && Resolved(e, l, entries).value.Scalar(ClearAllForwardings) == Some(Bool(true)) then []
            else Contribution(p.normal, f) + Contribution(p.canonical, f) + Contribution(p.final, f)
  {
    var p := PassesOf(e, l, entries);
    ResolvedIsCombined(e, l, entries);
    FinishList(e, l, Combined(l, p), f);
    CombinedPlainList(l, p, f);
  }

  /** IdentityFile is cleared by "none" within a pass only, and defaults when nothing is left. */
  lemma ResolvedIdentityFile(e: Setup, l: Lookup, entries: seq<Entry>)
    requires Resolved(e, l, entries).Ok?
    ensures var p := PassesOf(e, l, entries);
            var files := RunList([], p.normal, IdentityFile) + RunList([], p.canonical, IdentityFile)
                         + RunList([], p.final, IdentityFile);
            Resolved(e, l, entries).value.List(IdentityFile) == if files == [] then e.identityDefaults else files
  {
    var p := PassesOf(e, l, entries);
    ResolvedIsCombined(e, l, entries);
    FinishList(e, l, Combined(l, p), IdentityFile);
    CombinedList(l, p, IdentityFile);
  }

  lemma FinishSendEnv(e: Setup, l: Lookup, s: State)
    requires Finish(e, l, s).Ok?
    ensures Finish(e, l, s).value.List(SendEnv) == s.List(SendEnv)
  {
  }

  /** SendEnv is the three passes' lists in a row: a removal reaches its own pass only, so what the first
      pass sends and the final one removes is sent all the same. */
  lemma ResolvedSendEnv(e: Setup, l: Lookup, entries: seq<Entry>)
    requires Resolved(e, l, entries).Ok?
    ensures var p := PassesOf(e, l, entries);
            Resolved(e, l, entries).value.List(SendEnv) ==
            RunList([], p.normal, SendEnv) + RunList([], p.canonical, SendEnv) + RunList([], p.final, SendEnv)
  {
    var p := PassesOf(e, l, entries);
    ResolvedIsCombined(e, l, entries);
    FinishSendEnv(e, l, Combined(l, p));
    CombinedList(l, p, SendEnv);
  }

  // ---- from the sources to the expanded result ----

  /** Everything above is about the result before paths are expanded. Expansion keeps the set of fields
      set and changes each value by itself. */
  lemma ResolutionScalar(e: Setup, lookup: Lookup, src: Sources, f: Field)
    requires Resolution(e, lookup, src).Ok?
    ensures AllEntries(src).Ok? && Resolved(e, Completed(e.machine, lookup), AllEntries(src).value).Ok?
    ensures var l := Completed(e.machine, lookup);
            var before := Resolved(e, l, AllEntries(src).value).value;
            Resolution(e, lookup, src).value.Scalar(f) ==
            match before.Scalar(f)
            case Some(v) => Some(PathExpansion.ExpandedValue(f, v, PathContext(e.machine, l, before), e.machine.tilde))
            case None => None
  {
    var l := Completed(e.machine, lookup);
    var before := Resolved(e, l, AllEntries(src).value).value;
    PathExpansion.ExpandedScalar(before, PathContext(e.machine, l, before), e.machine.tilde, f);
  }

  /** As in the keyword table, the host name is a text. */
  predicate HostnameIsText(t: Table) {
    forall k :: k in t ==> SetsHostnameByText(t[k])
  }

  predicate SetsHostnameByText(h: Handler) {
    h.BoolField? || h.IntField? || h.FirstFields? ==> h.field != Hostname
  }

  lemma {:induction false} FirstHostnameIsText(t: Table, ignored: set<string>, ds: seq<Directive>)
    requires HostnameIsText(t)
    ensures var v := FirstValid(Effective(t, ignored, ds), Hostname); v.Some? ==> v.value.Str?
    decreases |ds|
  {
    if ds != [] {
      var d, rest, keyword := ds[0], ds[1..], ToLower(ds[0].keyword);
      assert ds == [d] + rest;
      EffectiveStep(t, ignored, d, rest);
      if Suppressed(t, ignored, keyword) {
        FirstHostnameIsText(t, ignored, rest);
      } else if keyword in t && !Rejects(t[keyword], d.value) {
        var step := Step(t[keyword], d.value);
        FirstHostnameIsText(t, IgnoredAfter(ignored, step), rest);
        FirstHostnameStep(step, Effective(t, IgnoredAfter(ignored, step), rest));
      }
    }
  }

  lemma FirstHostnameStep(step: Step, rest: seq<Step>)
    requires SetsHostnameByText(step.handler)
    requires FirstValid(rest, Hostname).Some? ==> FirstValid(rest, Hostname).value.Str?
    ensures var v := FirstValid([step] + rest, Hostname); v.Some? ==> v.value.Str?
  {
    assert ([step] + rest)[1..] == rest;
  }

  lemma ResolvedHostnameIsText(e: Setup, l: Lookup, entries: seq<Entry>)
    requires HostnameIsText(e.table) && Resolved(e, l, entries).Ok?
    ensures var v := Resolved(e, l, entries).value.Scalar(Hostname);
            v.Some? && v.value.Str?
  {
    ResolvedNames(e, l, entries);
    FirstHostnameIsText(e.table, {}, Followed(e, entries, InitialContext(e.machine, l), EMPTY));
  }

  /** The result before paths are expanded. */
  function Unexpanded(e: Setup, lookup: Lookup, src: Sources): State
    requires Resolution(e, lookup, src).Ok?
  {
    Resolved(e, Completed(e.machine, lookup), AllEntries(src).value).value
  }

  function ContextOf(e: Setup, lookup: Lookup, src: Sources): Token.TokenContext
    requires Resolution(e, lookup, src).Ok?
  {
    PathContext(e.machine, Completed(e.machine, lookup), Unexpanded(e, lookup, src))
  }

  /** The resolved host name is expanded with itself as the remote host. */
  lemma OwnHostname(e: Setup, lookup: Lookup, src: Sources)
    requires HostnameIsText(e.table) && Resolution(e, lookup, src).Ok?
    ensures var v := ContextOf(e, lookup, src).remoteHost;
            && Unexpanded(e, lookup, src).Scalar(Hostname) == Some(Str(v))
            && Resolution(e, lookup, src).value.Scalar(Hostname) ==
               Some(Str(Token.Expanded(v, ContextOf(e, lookup, src))))
  {
    var l := Completed(e.machine, lookup);
    ResolvedHostnameIsText(e, l, AllEntries(src).value);
    ResolutionIsExpanded(e, lookup, src);
    ExpandedHostname(e.machine, l, Unexpanded(e, lookup, src));
  }

  lemma ResolutionIsExpanded(e: Setup, lookup: Lookup, src: Sources)
    requires Resolution(e, lookup, src).Ok?
    ensures Resolution(e, lookup, src).value ==
            PathExpansion.ExpandPaths(Unexpanded(e, lookup, src), ContextOf(e, lookup, src), e.machine.tilde)
  {
  }

  lemma ExpandedHostname(m: Machine, l: Lookup, before: State)
    requires before.Scalar(Hostname).Some? && before.Scalar(Hostname).value.Str?
    ensures var ctx := PathContext(m, l, before);
            && before.Scalar(Hostname) == Some(Str(ctx.remoteHost))
            && PathExpansion.ExpandPaths(before, ctx, m.tilde).Scalar(Hostname) ==
               Some(Str(Token.Expanded(ctx.remoteHost, ctx)))
  {
    var ctx := PathContext(m, l, before);
    PathExpansion.ExpandedScalar(before, ctx, m.tilde, Hostname);
    HostnameText(ctx.remoteHost, ctx, m.tilde);
  }

  lemma HostnameText(v: string, ctx: Token.TokenContext, tilde: string -> string)
    ensures PathExpansion.ExpandedText(Hostname, v, ctx, tilde) == Token.Expanded(v, ctx)
  {
  }

  /** That is the expansion with a host `h` in place of it exactly when the name is `h` or mentions no %h. */
  lemma HostnameExpansionIff(e: Setup, lookup: Lookup, src: Sources, h: string)
    requires HostnameIsText(e.table) && Resolution(e, lookup, src).Ok?
    ensures var v, ctx := TextOf(Unexpanded(e, lookup, src).Scalar(Hostname)), ContextOf(e, lookup, src);
            Resolution(e, lookup, src).value.Scalar(Hostname) == Some(Str(Token.Expanded(v, ctx.(remoteHost := h))))
            <==> v == h || Token.Token('h') !in Token.Pieces(v)
  {
    var ctx := ContextOf(e, lookup, src);
    OwnHostname(e, lookup, src);
    OwnContext(ctx, h);
  }

  lemma OwnContext(ctx: Token.TokenContext, h: string)
    ensures Token.Expanded(ctx.remoteHost, ctx) == Token.Expanded(ctx.remoteHost, ctx.(remoteHost := h))
            <==> ctx.remoteHost == h || Token.Token('h') !in Token.Pieces(ctx.remoteHost)
  {
    assert ctx.(remoteHost := ctx.remoteHost) == ctx;
    Token.HostMattersIff(ctx.remoteHost, ctx, ctx.remoteHost, h);
  }

  function Directives(entries: seq<Entry>): (r: seq<Directive>)
    ensures |r| == |entries|
  {
    if entries == [] then [] else [DirectiveOf(entries[0])] + Directives(entries[1..])
  }

  predicate Unconditional(entries: seq<Entry>) {
    forall i :: 0 <= i < |entries| ==> entries[i].conditions == None
  }

  lemma {:induction false} UnconditionalFront(e: Setup, front: seq<Entry>, rest: seq<Entry>,
                                              ctx: MatchContext, s: State)
    returns (more: seq<Directive>)
    requires Unconditional(front) && NormalPass(e, front + rest, ctx, s).Ok?
    ensures Followed(e, front + rest, ctx, s) == Directives(front) + more
    decreases |front|
  {
    if front == [] {
      assert front + rest == rest;
      more := Followed(e, rest, ctx, s);
      assert [] + more == more;
    } else {
      assert (front + rest)[0] == front[0] && (front + rest)[1..] == front[1..] + rest;
      assert AllHold(e.outside, front[0].conditions, ctx);
      assert Unconditional(front[1..]);
      var s' := Apply(e.table, s, DirectiveOf(front[0])).value;
      more := UnconditionalFront(e, front[1..], rest, Track(ctx, s'), s');
      Assoc([DirectiveOf(front[0])], Directives(front[1..]), more);
    }
  }

  /** What the unconditional entries in front set is what the first pass finds first. */
  lemma FrontIsFirst(e: Setup, l: Lookup, front: seq<Entry>, rest: seq<Entry>, f: Field)
    requires Unconditional(front) && Resolved(e, l, front + rest).Ok?
    ensures var v := FirstValid(Effective(e.table, {}, Directives(front)), f);
            v.Some? ==> FirstValid(PassesOf(e, l, front + rest).normal, f) == v
  {
    var start, ds := InitialContext(e.machine, l), Directives(front);
    var more := UnconditionalFront(e, front, rest, start, EMPTY);
    NormalPassApplies(e, front + rest, start, EMPTY);
    ApplyAllRuns(e.table, EMPTY, ds + more);
    AppendErrors(e.table, {}, ds, more);
    AppendRuns(e.table, {}, ds, more);
    FirstValidAppend(Effective(e.table, {}, ds), Effective(e.table, Ignoring(e.table, {}, ds), more), f);
  }

  /** The entries of the command line come first and are unconditional. */
  lemma CommandLineInFront(src: Sources) returns (front: seq<Entry>, rest: seq<Entry>)
    requires AllEntries(src).Ok?
    ensures AllEntries(src).value == front + rest && Unconditional(front)
    ensures front == FlagEntries(src.flags) + Override.OverrideEntries(src.options, 1).value
  {
    var overrides := Override.OverrideEntries(src.options, 1).value;
    Override.OverridesAreUnconditional(src.options, 1);
    front := FlagEntries(src.flags) + overrides;
    rest := FileEntries(src.user).value + FileEntries(src.system).value;
    Assoc(front, FileEntries(src.user).value, FileEntries(src.system).value);
    forall i | 0 <= i < |front| ensures front[i].conditions == None {
      if i >= |src.flags| { assert front[i] == overrides[i - |src.flags|] && front[i] in overrides; }
    }
  }

  /** What the flags and `-o` options of a command line give for a scalar. */
  function FromCommandLine(e: Setup, src: Sources, f: Field): Option<Value>
    requires AllEntries(src).Ok?
  {
    var entries := FlagEntries(src.flags) + Override.OverrideEntries(src.options, 1).value;
    FirstValid(Effective(e.table, {}, Directives(entries)), f)
  }

  /** The command line wins over every configuration file: a scalar it sets is resolved to its value,
      whatever the files say; a host name only as long as no canonical one replaces it, and a port unless
      the lookup has one. */
  lemma CommandLineWins(e: Setup, l: Lookup, src: Sources, f: Field)
    requires AllEntries(src).Ok? && Resolved(e, l, AllEntries(src).value).Ok?
    requires FromCommandLine(e, src, f).Some?
    requires f == Hostname ==> PassesOf(e, l, AllEntries(src).value).name == ""
    requires f == Port ==> l.port == 0
    ensures Resolved(e, l, AllEntries(src).value).value.Scalar(f) == FromCommandLine(e, src, f)
  {
    var front, rest := CommandLineInFront(src);
    var entries := AllEntries(src).value;
    var p := PassesOf(e, l, entries);
    FrontIsFirst(e, l, front, rest, f);
    FirstOverPasses(p, f);
    if f == Hostname || f == User || f == Port {
      ResolvedNames(e, l, entries);
    } else {
      ResolvedScalar(e, l, entries, f);
    }
  }

  // ---- the context of the first pass ----

  datatype Moment = Moment(ctx: MatchContext, s: State)

  /** The moment after an entry; None when the entry fails. */
  function Next(e: Setup, entry: Entry, m: Moment): Option<Moment> {
    if !AllHold(e.outside, entry.conditions, m.ctx) then Some(m)
    else match Apply(e.table, m.s, DirectiveOf(entry))
      case Err(_) => None
      case Ok(s') => Some(Moment(Track(m.ctx, s'), s'))
  }

  /** The moments before each entry the first pass reaches, and the one after the last. */
  function Trace(e: Setup, entries: seq<Entry>, m: Moment): (r: seq<Moment>)
    ensures |r| >= 1 && r[0] == m && |r| <= |entries| + 1
    decreases |entries|
  {
    if entries == [] then [m]
    else match Next(e, entries[0], m)
      case None => [m]
      case Some(m') => [m] + Trace(e, entries[1..], m')
  }

  /** The directives of the entries that match at their moment. */
  function AppliedAt(o: Outside, entries: seq<Entry>, trace: seq<Moment>): seq<Directive>
    decreases |entries|
  {
    if entries == [] || trace == [] then []
    else (if AllHold(o, entries[0].conditions, trace[0].ctx) then [DirectiveOf(entries[0])] else [])
         + AppliedAt(o, entries[1..], trace[1..])
  }

  /** The trace is the one of the first pass: entry by entry it decides what is applied, and its end
      is the pass's result. */
  lemma {:induction false} TraceIsThePass(e: Setup, entries: seq<Entry>, m: Moment)
    ensures Followed(e, entries, m.ctx, m.s) == AppliedAt(e.outside, entries, Trace(e, entries, m))
    ensures NormalPass(e, entries, m.ctx, m.s).Ok? ==>
              var trace := Trace(e, entries, m);
              |trace| == |entries| + 1
              && NormalPass(e, entries, m.ctx, m.s).value == (trace[|entries|].s, trace[|entries|].ctx)
    decreases |entries|
  {
    if entries != [] {
      var next := Next(e, entries[0], m);
      match next
      case None =>
        assert Trace(e, entries, m)[1..] == [];
      case Some(m') =>
        TraceIsThePass(e, entries[1..], m');
        assert Trace(e, entries, m)[1..] == Trace(e, entries[1..], m');
    }
  }

  predicate TagTracked(m: Moment) {
    StrOf(m.s.Scalar(Tag)).Some? ==> m.ctx.tag == StrOf(m.s.Scalar(Tag)).value
  }

  /** How the context may move: only user and tag change; a known user stays; the tag follows the
      first resolved one. */
  predicate Moves(a: Moment, b: Moment) {
    && b.ctx == a.ctx.(user := b.ctx.user, tag := b.ctx.tag)
    && (a.ctx.user != "" ==> b.ctx.user == a.ctx.user)
    && (a.s.Scalar(Tag).Some? ==> b.s.Scalar(Tag) == a.s.Scalar(Tag))
    && (TagTracked(a) ==> TagTracked(b))
    && (StrOf(b.s.Scalar(Tag)).None? ==> b.ctx.tag == a.ctx.tag)
  }

  lemma ScalarIsKept(t: Table, s: State, d: Directive, f: Field)
    requires Apply(t, s, d).Ok? && s.Scalar(f).Some?
    ensures Apply(t, s, d).value.Scalar(f) == s.Scalar(f)
  {
  }

  lemma NextMoves(e: Setup, entry: Entry, m: Moment)
    requires Next(e, entry, m).Some?
    ensures Moves(m, Next(e, entry, m).value)
  {
    if AllHold(e.outside, entry.conditions, m.ctx) && m.s.Scalar(Tag).Some? {
      ScalarIsKept(e.table, m.s, DirectiveOf(entry), Tag);
    }
  }

  lemma MovesTwice(a: Moment, b: Moment, c: Moment)
    requires Moves(a, b) && Moves(b, c)
    ensures Moves(a, c)
  {
  }

  lemma TraceFront(e: Setup, entries: seq<Entry>, m: Moment)
    requires |Trace(e, entries, m)| > 1
    ensures entries != [] && Next(e, entries[0], m).Some?
    ensures Trace(e, entries, m) == [m] + Trace(e, entries[1..], Next(e, entries[0], m).value)
  {
  }

  lemma {:induction false} TraceMovesFrom(e: Setup, entries: seq<Entry>, m: Moment, j: nat)
    requires j < |Trace(e, entries, m)|
    ensures Moves(m, Trace(e, entries, m)[j])
    decreases |entries|
  {
    if j > 0 {
      TraceFront(e, entries, m);
      var m' := Next(e, entries[0], m).value;
      NextMoves(e, entries[0], m);
      TraceMovesFrom(e, entries[1..], m', j - 1);
      MovesTwice(m, m', Trace(e, entries[1..], m')[j - 1]);
    }
  }

  lemma BehindFirst(m: Moment, rest: seq<Moment>, i: nat, j: nat)
    requires 0 < i <= j <= |rest|
    ensures ([m] + rest)[i] == rest[i - 1] && ([m] + rest)[j] == rest[j - 1]
  {
  }

  lemma {:induction false} TraceMoves(e: Setup, entries: seq<Entry>, m: Moment, i: nat, j: nat)
    requires i <= j < |Trace(e, entries, m)|
    ensures Moves(Trace(e, entries, m)[i], Trace(e, entries, m)[j])
    decreases |entries|
  {
    if i == 0 {
      TraceMovesFrom(e, entries, m, j);
    } else {
      TraceFront(e, entries, m);
      var m' := Next(e, entries[0], m).value;
      TraceMoves(e, entries[1..], m', i - 1, j - 1);
      BehindFirst(m, Trace(e, entries[1..], m'), i, j);
    }
  }

  function Start(e: Setup, l: Lookup): Moment {
    Moment(InitialContext(e.machine, l), EMPTY)
  }

  /** In the first pass the host never changes, and user and tag change at most once each. */
  lemma ContextSettles(e: Setup, l: Lookup, entries: seq<Entry>, i: nat, j: nat)
    requires i <= j < |Trace(e, entries, Start(e, l))|
    ensures var t := Trace(e, entries, Start(e, l));
            && t[i].ctx.host == l.host
            && (t[i].ctx.user != l.user ==> t[j].ctx.user == t[i].ctx.user)
            && (t[i].ctx.tag != l.tag ==> t[j].ctx.tag == t[i].ctx.tag)
  {
    TraceMoves(e, entries, Start(e, l), 0, i);
    TraceMoves(e, entries, Start(e, l), i, j);
  }

  /** All entries under one Host block are applied, or none: whatever HostName or User they set, the
      block is decided by the host the lookup was given. */
  lemma HostBlockAllOrNothing(e: Setup, l: Lookup, entries: seq<Entry>, ps: seq<HostPattern>, i: nat)
    requires i < |entries| && i < |Trace(e, entries, Start(e, l))|
    requires entries[i].conditions == Some([HostCondition(ps)])
    ensures AllHold(e.outside, entries[i].conditions, Trace(e, entries, Start(e, l))[i].ctx) == Selects(ps, l.host)
  {
    ContextSettles(e, l, entries, i, i);
    assert entries[i].conditions.value[0] == HostCondition(ps);
  }

  // ---- the passes compared ----

  predicate EntriesBuildable(entries: seq<Entry>) {
    forall i :: 0 <= i < |entries| ==> AllBuildable(entries[i].conditions)
  }

  /** The entries of a configuration file always are. */
  lemma ParsedEntriesAreBuildable(env: Parser.Env, path: string)
    requires Parser.ParsedFile(env, path).Ok?
    ensures EntriesBuildable(Parser.ParsedFile(env, path).value)
  {
    Scoping.FileBuildable(env, {}, path, 0);
    var entries := Parser.ParsedFile(env, path).value;
    forall i | 0 <= i < |entries| ensures AllBuildable(entries[i].conditions) {
      assert entries[i] in entries;
    }
  }

  /** Raising pass flags only adds matches. */
  lemma {:induction false} RaisedMatchesMore(o: Outside, entries: seq<Entry>, ctx: MatchContext, later: MatchContext)
    requires EntriesBuildable(entries) && FlagsRaised(ctx, later)
    ensures Subsequence(Matching(o, entries, ctx), Matching(o, entries, later))
  {
    if entries != [] {
      assert EntriesBuildable(entries[1..]);
      RaisedMatchesMore(o, entries[1..], ctx, later);
      var d, more := DirectiveOf(entries[0]), Matching(o, entries[1..], later);
      if AllHold(o, entries[0].conditions, ctx) {
        assert AllBuildable(entries[0].conditions);
        RaisingFlagsKeepsMatches(o, entries[0].conditions, ctx, later);
        var less := Matching(o, entries[1..], ctx);
        assert ([d] + less)[1..] == less && ([d] + more)[1..] == more;
      } else if AllHold(o, entries[0].conditions, later) {
        SkipOne(Matching(o, entries[1..], ctx), more, d);
      }
    }
  }

  /** While user and tag stay, the first pass matches like a pass in a fixed context. */
  lemma {:induction false} StillContextMatches(o: Outside, entries: seq<Entry>, trace: seq<Moment>, ctx: MatchContext)
    requires |trace| >= |entries| && forall i :: 0 <= i < |trace| ==> trace[i].ctx == ctx
    ensures AppliedAt(o, entries, trace) == Matching(o, entries, ctx)
  {
    if entries != [] {
      StillContextMatches(o, entries[1..], trace[1..], ctx);
    }
  }

  /** Without canonicalization, and when the first pass ends with the user and tag it began with, what
      the first pass applied is a subsequence of what the final pass applies. */
  lemma FinalPassRepeatsTheFirst(e: Setup, l: Lookup, entries: seq<Entry>)
    requires EntriesBuildable(entries) && NormalPass(e, entries, InitialContext(e.machine, l), EMPTY).Ok?
    requires NormalPass(e, entries, InitialContext(e.machine, l), EMPTY).value.1 == InitialContext(e.machine, l)
    ensures Subsequence(Followed(e, entries, InitialContext(e.machine, l), EMPTY),
                        Matching(e.outside, entries, InitialContext(e.machine, l).(isFinal := true)))
  {
    var start, ctx := Start(e, l), InitialContext(e.machine, l);
    var trace := Trace(e, entries, start);
    TraceIsThePass(e, entries, start);
    forall i | 0 <= i < |trace| ensures trace[i].ctx == ctx {
      ContextSettles(e, l, entries, i, |entries|);
      TraceMoves(e, entries, start, 0, i);
    }
    StillContextMatches(e.outside, entries, trace, ctx);
    RaisedMatchesMore(e.outside, entries, ctx, ctx.(isFinal := true));
  }
}
