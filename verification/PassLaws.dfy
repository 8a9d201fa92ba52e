/** When the passes of resolution run, what the first one sees, and how it can be refused. */
module PassLaws {
  import opened Text
  import opened Conditions
  import opened Options
  import opened MergeLaw
  import opened Resolve
  import opened ResolveLaws
  import Decimal
  import Token
  import Override
  import Parser

  // ---- the canonical pass ----

  /** The handler runs of the first pass. */
  function NormalSteps(e: Setup, l: Lookup, entries: seq<Entry>): seq<Step> {
    Effective(e.table, {}, Followed(e, entries, InitialContext(e.machine, l), EMPTY))
  }

  /** The context at the end of the first pass. */
  function LastContext(e: Setup, l: Lookup, entries: seq<Entry>): MatchContext {
    var trace := Trace(e, entries, Start(e, l));
    trace[|trace| - 1].ctx
  }

  /** The host name the first pass finds, or else the lookup's. */
  function FirstHost(e: Setup, l: Lookup, entries: seq<Entry>): Value {
    ValueOr(FirstValid(NormalSteps(e, l, entries), Hostname), l.host)
  }

  /** The options of the first pass with host name and user filled in. */
  function FirstOptions(e: Setup, l: Lookup, entries: seq<Entry>): State {
    WithNames(l, Run(EMPTY, NormalSteps(e, l, entries)))
  }

  lemma FirstPassIs(e: Setup, l: Lookup, entries: seq<Entry>)
    requires RunsThrough(e, l, entries)
    ensures NormalPass(e, entries, InitialContext(e.machine, l), EMPTY) ==
            Ok((Run(EMPTY, NormalSteps(e, l, entries)), LastContext(e, l, entries)))
  {
    var start := InitialContext(e.machine, l);
    NormalPassApplies(e, entries, start, EMPTY);
    ApplyAllRuns(e.table, EMPTY, Followed(e, entries, start, EMPTY));
    TraceIsThePass(e, entries, Start(e, l));
  }

  /** The first pass's first valid CanonicalizeHostname asks for canonicalization. */
  predicate Wanted(v: Option<Value>) {
    v == Some(Str("yes")) || v == Some(Str("always"))
  }

  lemma NameIs(e: Setup, l: Lookup, steps: seq<Step>)
    ensures var host := ValueOr(FirstValid(steps, Hostname), l.host);
            var named := WithNames(l, Run(EMPTY, steps));
            CanonicalName(e, named) ==
            if Wanted(FirstValid(steps, CanonicalizeHostname)) && host.Str? then e.canonicalize(host.s, named) else ""
  {
    EmptyRunScalar(steps, CanonicalizeHostname);
    EmptyRunScalar(steps, Hostname);
  }

  lemma LaterPassRuns(e: Setup, entries: seq<Entry>, ctx: MatchContext)
    requires ApplyAll(e.table, EMPTY, Matching(e.outside, entries, ctx)).Ok?
    ensures ApplyAll(e.table, EMPTY, Matching(e.outside, entries, ctx)).value == Run(EMPTY, FixedSteps(e, entries, ctx))
  {
    ApplyAllRuns(e.table, EMPTY, Matching(e.outside, entries, ctx));
  }

  /** The canonical pass runs exactly when the first valid CanonicalizeHostname of the first pass is "yes" or
      "always" and the canonicalizer has a name for the first pass's host name. It then runs under that name
      with the canonical flag set, and the final pass after it under the same; otherwise the result is the
      first and final runs alone. */
  lemma CanonicalPassIff(e: Setup, l: Lookup, entries: seq<Entry>)
    requires RunsThrough(e, l, entries)
    ensures var v, host := FirstValid(NormalSteps(e, l, entries), CanonicalizeHostname), FirstHost(e, l, entries);
            var named, ctx := FirstOptions(e, l, entries), LastContext(e, l, entries);
            if (v == Some(Str("yes")) || v == Some(Str("always"))) && host.Str?
               && e.canonicalize(host.s, named) != "" then
              var name := e.canonicalize(host.s, named);
              var canonical := ctx.(host := name, isCanonical := true);
              var renamed := named.(scalars := named.scalars[Hostname := Str(name)]);
              && Resolved(e, l, entries) ==
                 Finish(e, l, Merge(Merge(renamed, Run(EMPTY, FixedSteps(e, entries, canonical))),
                                    Run(EMPTY, FixedSteps(e, entries, canonical.(isFinal := true)))))
              && (Resolved(e, l, entries).Ok? ==> Resolved(e, l, entries).value.Scalar(Hostname) == Some(Str(name)))
            else
              && Resolved(e, l, entries) ==
                 Finish(e, l, Merge(named, Run(EMPTY, FixedSteps(e, entries, ctx.(isFinal := true)))))
              && (Resolved(e, l, entries).Ok? ==> Resolved(e, l, entries).value.Scalar(Hostname) == Some(host))
  {
    var named, ctx := FirstOptions(e, l, entries), LastContext(e, l, entries);
    FirstPassIs(e, l, entries);
    NameIs(e, l, NormalSteps(e, l, entries));
    if CanonicalName(e, named) != "" {
      LaterPassRuns(e, entries, CanonicalContext(ctx, CanonicalName(e, named)));
    }
    LaterPassRuns(e, entries, FinalContext(e, ctx, named));
    if Resolved(e, l, entries).Ok? { ResolvedNames(e, l, entries); }
  }

  /** Once the passes run through, resolution is refused exactly when RefuseConnection has a value over the
      three passes or by default, with that value as the reason. */
  lemma RefusedIff(e: Setup, l: Lookup, entries: seq<Entry>)
    requires RunsThrough(e, l, entries)
    ensures var reason := OrElse(FirstValid(All(PassesOf(e, l, entries)), RefuseConnection),
                                 DefaultOf(e, RefuseConnection));
            && (Resolved(e, l, entries).Err? <==> reason.Some?)
            && (reason.Some? ==> Resolved(e, l, entries) == Err(Refused(reason.value)))
  {
    var p := PassesOf(e, l, entries);
    ResolvedIsCombined(e, l, entries);
    CombinedScalar(l, p, RefuseConnection);
    RefusedAtTheEnd(e, l, Combined(l, p));
  }

  lemma RefusedAtTheEnd(e: Setup, l: Lookup, s: State)
    ensures var reason := OrElse(s.Scalar(RefuseConnection), DefaultOf(e, RefuseConnection));
            && (Finish(e, l, s).Err? <==> reason.Some?)
            && (reason.Some? ==> Finish(e, l, s) == Err(Refused(reason.value)))
  {
  }

  // ---- what the first pass sees ----

  /** The context of a moment knows the lookup's user or else the resolved one, and the resolved tag or else
      the lookup's. */
  predicate Follows(l: Lookup, m: Moment) {
    && m.ctx.user == (if l.user != "" then l.user else StrOf(m.s.Scalar(User)).GetOr(""))
    && m.ctx.tag == StrOf(m.s.Scalar(Tag)).GetOr(l.tag)
  }

  lemma NextFollows(e: Setup, l: Lookup, entry: Entry, m: Moment)
    requires Follows(l, m) && Next(e, entry, m).Some?
    ensures Follows(l, Next(e, entry, m).value)
  {
    if AllHold(e.outside, entry.conditions, m.ctx) {
      if m.s.Scalar(User).Some? { ScalarIsKept(e.table, m.s, DirectiveOf(entry), User); }
      if m.s.Scalar(Tag).Some? { ScalarIsKept(e.table, m.s, DirectiveOf(entry), Tag); }
    }
  }

  lemma {:induction false} TraceFollows(e: Setup, l: Lookup, entries: seq<Entry>, m: Moment, j: nat)
    requires Follows(l, m) && j < |Trace(e, entries, m)|
    ensures Follows(l, Trace(e, entries, m)[j])
    decreases |entries|
  {
    if j > 0 {
      TraceFront(e, entries, m);
      NextFollows(e, l, entries[0], m);
      TraceFollows(e, l, entries[1..], Next(e, entries[0], m).value, j - 1);
    }
  }

  lemma {:induction false} TraceApplies(e: Setup, entries: seq<Entry>, m: Moment, j: nat)
    requires j < |Trace(e, entries, m)| && j <= |entries|
    ensures ApplyAll(e.table, m.s, AppliedAt(e.outside, entries[..j], Trace(e, entries, m))) ==
            Ok(Trace(e, entries, m)[j].s)
    decreases |entries|
  {
    if j > 0 {
      TraceFront(e, entries, m);
      var m', rest := Next(e, entries[0], m).value, Trace(e, entries[1..], Next(e, entries[0], m).value);
      TraceApplies(e, entries[1..], m', j - 1);
      assert entries[..j][0] == entries[0] && entries[..j][1..] == entries[1..][..j - 1];
      assert ([m] + rest)[1..] == rest;
      var later := AppliedAt(e.outside, entries[1..][..j - 1], rest);
      assert ([DirectiveOf(entries[0])] + later)[1..] == later;
      assert [] + later == later;
    }
  }

  /** Before every entry the first pass reaches, the context's user and tag are the first valid ones of the
      directives applied so far; the lookup's user stands in front of them, and its tag behind. */
  lemma ContextFollows(e: Setup, l: Lookup, entries: seq<Entry>, j: nat)
    requires j < |Trace(e, entries, Start(e, l))| && j <= |entries|
    ensures var t := Trace(e, entries, Start(e, l));
            var steps := Effective(e.table, {}, AppliedAt(e.outside, entries[..j], t));
            && t[j].ctx.user == (if l.user != "" then l.user else StrOf(FirstValid(steps, User)).GetOr(""))
            && t[j].ctx.tag == StrOf(FirstValid(steps, Tag)).GetOr(l.tag)
  {
    var t := Trace(e, entries, Start(e, l));
    var ds := AppliedAt(e.outside, entries[..j], t);
    TraceFollows(e, l, entries, Start(e, l), j);
    TraceApplies(e, entries, Start(e, l), j);
    ApplyAllRuns(e.table, EMPTY, ds);
    EmptyRunScalar(Effective(e.table, {}, ds), User);
    EmptyRunScalar(Effective(e.table, {}, ds), Tag);
  }

  /** What the first entry sees of the lookup and the machine: an empty original host, local user or version
      falls back to the host, the machine's user and its version. */
  lemma StartSees(e: Setup, lookup: Lookup)
    ensures var ctx := InitialContext(e.machine, Completed(e.machine, lookup));
            && ctx.host == lookup.host && ctx.user == lookup.user && ctx.tag == lookup.tag
            && ctx.command == lookup.command && ctx.sessionType == lookup.sessionType
            && (lookup.originalHost == "" ==> ctx.originalHost == lookup.host)
            && (lookup.originalHost != "" ==> ctx.originalHost == lookup.originalHost)
            && (lookup.localUser == "" ==> ctx.localUser == e.machine.localUser)
            && (lookup.localUser != "" ==> ctx.localUser == lookup.localUser)
            && (lookup.version == "" ==> ctx.version == e.machine.version)
            && (lookup.version != "" ==> ctx.version == lookup.version)
            && ctx.port == (if lookup.port == 0 then "22" else Decimal.Signed(lookup.port))
            && !ctx.isCanonical && !ctx.isFinal && !ctx.invalidUser && ctx.groups == []
            && ctx.localAddresses == e.machine.localAddresses && ctx.remoteIP.None? && ctx.localIP.None?
  {
    TwentyTwo();
  }

  lemma TwentyTwo()
    ensures Decimal.Signed(22) == "22"
  {
    assert Decimal.Tail(2) == Decimal.Tail(0) + ['2'];
    assert Decimal.Tail(22) == Decimal.Tail(2) + ['2'];
  }

  // ---- the sources in order ----

  /** What the command line and the user's file give for a scalar when nothing in them is conditional. */
  function FromUserFile(e: Setup, src: Sources, f: Field): Option<Value>
    requires AllEntries(src).Ok?
  {
    var entries := FlagEntries(src.flags) + Override.OverrideEntries(src.options, 1).value
                   + FileEntries(src.user).value;
    FirstValid(Effective(e.table, {}, Directives(entries)), f)
  }

  /** The user's file wins over the system's: what it sets unconditionally, if the command line does not, is
      resolved whatever the system's file says. */
  lemma UserFileWins(e: Setup, l: Lookup, src: Sources, f: Field)
    requires AllEntries(src).Ok? && Resolved(e, l, AllEntries(src).value).Ok?
    requires Unconditional(FileEntries(src.user).value) && FromUserFile(e, src, f).Some?
    requires f !in {Hostname, User, Port}
    ensures Resolved(e, l, AllEntries(src).value).value.Scalar(f) == FromUserFile(e, src, f)
  {
    var front, rest := CommandLineInFront(src);
    var user, system := FileEntries(src.user).value, FileEntries(src.system).value;
    var both := front + user;
    assert AllEntries(src).value == both + system;
    UnconditionalConcat(front, user);
    FrontWins(e, l, both, system, f);
  }

  lemma UnconditionalConcat(a: seq<Entry>, b: seq<Entry>)
    requires Unconditional(a) && Unconditional(b)
    ensures Unconditional(a + b)
  {
  }

  /** Unconditional entries in front win over everything behind them. */
  lemma FrontWins(e: Setup, l: Lookup, front: seq<Entry>, rest: seq<Entry>, f: Field)
    requires Unconditional(front) && Resolved(e, l, front + rest).Ok? && f !in {Hostname, User, Port}
    requires FirstValid(Effective(e.table, {}, Directives(front)), f).Some?
    ensures Resolved(e, l, front + rest).value.Scalar(f) == FirstValid(Effective(e.table, {}, Directives(front)), f)
  {
    FrontIsFirst(e, l, front, rest, f);
    FirstOverPasses(PassesOf(e, l, front + rest), f);
    ResolvedScalar(e, l, front + rest, f);
  }

  /** The directives of the flags come first, as they are, and then the overrides as they are read. */
  lemma {:induction false} FlagsComeFirst(flags: seq<Directive>, more: seq<Entry>)
    ensures Directives(FlagEntries(flags) + more) == flags + Directives(more)
    decreases |flags|
  {
    if flags == [] {
      assert FlagEntries(flags) + more == more && flags + Directives(more) == Directives(more);
    } else {
      var all, rest := FlagEntries(flags) + more, FlagEntries(flags[1..]) + more;
      assert all[0] == FlagEntries(flags)[0] && all[1..] == rest;
      FlagsComeFirst(flags[1..], more);
      assert [flags[0]] + (flags[1..] + Directives(more)) == flags + Directives(more);
    }
  }

  /** With both files there, the entries are those of the flags, the overrides, the user's and the system's
      file, each parsed with the default limit; the first source that fails decides the error. */
  lemma SourcesMean(src: Sources)
    requires src.user.present && src.system.present
    ensures var overrides := Override.OverrideEntries(src.options, 1);
            var user := Parser.ParsedFile(src.user.env.(maxDepth := 16), src.user.path);
            var system := Parser.ParsedFile(src.system.env.(maxDepth := 16), src.system.path);
            && (overrides.Err? ==> AllEntries(src) == Err(BadOverride(overrides.error)))
            && (overrides.Ok? && user.Err? ==> AllEntries(src) == Err(BadUserConfig(user.error)))
            && (overrides.Ok? && user.Ok? && system.Err? ==> AllEntries(src) == Err(BadSystemConfig(system.error)))
            && (overrides.Ok? && user.Ok? && system.Ok? ==>
                  AllEntries(src) == Ok(FlagEntries(src.flags) + overrides.value + user.value + system.value))
  {
  }

  /** A file that is not there says nothing. */
  lemma AbsentFilesSayNothing(src: Sources)
    requires !src.user.present && !src.system.present && AllEntries(src).Ok?
    ensures AllEntries(src).value == FlagEntries(src.flags) + Override.OverrideEntries(src.options, 1).value
  {
  }

  // ---- what tokens mean in a resolved path ----

  /** The tokens that stand for what has been resolved and for the machine. The others are empty here. */
  lemma TokensMean(m: Machine, l: Lookup, s: State)
    ensures var ctx := PathContext(m, l, s);
            && Token.Spelled('h', ctx) == StrOf(s.Scalar(Hostname)).GetOr("")
            && Token.Spelled('r', ctx) == StrOf(s.Scalar(User)).GetOr("")
            && Token.Spelled('j', ctx) == StrOf(s.Scalar(ProxyJump)).GetOr("")
            && Token.Spelled('k', ctx) == StrOf(s.Scalar(HostKeyAlias)).GetOr(l.originalHost)
            && (forall p :: s.Scalar(Port) == Some(Int(p)) ==> Token.Spelled('p', ctx) == Decimal.Signed(p))
            && Token.Spelled('n', ctx) == l.originalHost && Token.Spelled('u', ctx) == l.localUser
            && Token.Spelled('d', ctx) == m.homeDir && Token.Spelled('i', ctx) == m.userID
            && Token.Spelled('L', ctx) == m.hostName && Token.Spelled('l', ctx) == m.hostName
            && Token.Spelled('%', ctx) == "%"
            && Token.Spelled('C', ctx) ==
               m.hash(m.hostName + Token.Spelled('h', ctx) + Token.Spelled('p', ctx)
                      + Token.Spelled('r', ctx) + Token.Spelled('j', ctx))
            && Token.Spelled('f', ctx) == Token.Spelled('H', ctx) == Token.Spelled('I', ctx) == ""
            && Token.Spelled('K', ctx) == Token.Spelled('T', ctx) == Token.Spelled('t', ctx) == ""
  {
    Token.LettersMean(PathContext(m, l, s));
  }
}
