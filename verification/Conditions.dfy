/** Host and Match conditions and their evaluation against a match context. */
module Conditions {
  import opened Text
  import opened Glob
  import opened PatternList

  /** A parsed network address; only the network test of `Outside` looks inside it. */
  datatype IP = IP(text: string)

  datatype MatchField =
    | FieldHost | FieldOriginalHost | FieldUser | FieldLocalUser | FieldTagged | FieldCommand
    | FieldVersion | FieldSessionType | FieldGroup | FieldLocalPort | FieldRDomain

  datatype AddressField = RemoteAddress | LocalAddress

  datatype Condition =
    | HostCondition(hosts: seq<HostPattern>)
    | MatchAll
    | MatchCanonical
    | MatchFinal
    | MatchInvalidUser
    | MatchExec(command: string)
    | MatchLocalNetwork(networks: seq<string>)
    | MatchFieldList(field: MatchField, patterns: string, negated: bool)
    | MatchAddressList(side: AddressField, patterns: string, negated: bool)
    | NegatedCondition(inner: Condition)

  datatype MatchContext = MatchContext(
    user: string, host: string, originalHost: string, localUser: string, port: string,
    command: string, tag: string, version: string, sessionType: string,
    groups: seq<string>, remoteAddr: string, remoteIP: Option<IP>,
    localAddr: string, localIP: Option<IP>, localPort: string, rdomain: string,
    invalidUser: bool, localAddresses: seq<IP>, isCanonical: bool, isFinal: bool)

  /** What the evaluation asks of the outside world: the optional exec hook, and whether an address
      lies in a network (false when the network does not parse). */
  datatype Outside = Outside(exec: Option<string -> bool>, inNetwork: (string, IP) -> bool)

  function FieldValue(field: MatchField, ctx: MatchContext): string {
    match field
    case FieldHost => ctx.host
    case FieldOriginalHost => ctx.originalHost
    case FieldUser => ctx.user
    case FieldLocalUser => ctx.localUser
    case FieldTagged => ctx.tag
    case FieldCommand => ctx.command
    case FieldVersion => ctx.version
    case FieldSessionType => ctx.sessionType
    case FieldLocalPort => ctx.localPort
    case FieldRDomain => ctx.rdomain
    case FieldGroup => ""
  }

  predicate SomeGroup(patterns: string, groups: seq<string>) {
    exists i :: 0 <= i < |groups| && Selects(Clauses(patterns), groups[i])
  }

  predicate SomeLocalNetwork(o: Outside, networks: seq<string>, addresses: seq<IP>) {
    exists i, j :: 0 <= i < |networks| && 0 <= j < |addresses| && o.inNetwork(networks[i], addresses[j])
  }

  /** One clause of an address list: a network test when it has a slash and the address is known,
      a glob otherwise. */
  predicate AddressFits(o: Outside, pattern: string, text: string, ip: Option<IP>) {
    if '/' in pattern && ip.Some? then o.inNetwork(pattern, ip.value) else Matches(pattern, text)
  }

  predicate AddressHit(o: Outside, ps: seq<HostPattern>, negated: bool, text: string, ip: Option<IP>) {
    exists i :: 0 <= i < |ps| && ps[i].negated == negated && AddressFits(o, ps[i].pattern, text, ip)
  }

  /** A hit on a negated clause refuses, whatever the sign of the criterion itself. */
  predicate AddressSelects(o: Outside, patterns: string, negated: bool, text: string, ip: Option<IP>) {
    var ps := Clauses(patterns);
    !AddressHit(o, ps, true, text, ip) && AddressHit(o, ps, false, text, ip) != negated
  }

  /** Whether a condition holds, free of evaluation order. */
  predicate Holds(o: Outside, c: Condition, ctx: MatchContext) {
    match c
    case HostCondition(ps) => Selects(ps, ctx.host)
    case MatchAll => true
    case MatchCanonical => ctx.isCanonical
    case MatchFinal => ctx.isFinal
    case MatchInvalidUser => ctx.invalidUser
    case MatchExec(command) => o.exec.Some? && o.exec.value(command)
    case MatchLocalNetwork(networks) => SomeLocalNetwork(o, networks, ctx.localAddresses)
    case MatchFieldList(FieldGroup, patterns, negated) => SomeGroup(patterns, ctx.groups) != negated
    case MatchFieldList(field, patterns, negated) =>
      Selects(Clauses(patterns), FieldValue(field, ctx)) != negated
    case MatchAddressList(RemoteAddress, patterns, negated) =>
      AddressSelects(o, patterns, negated, ctx.remoteAddr, ctx.remoteIP)
    case MatchAddressList(LocalAddress, patterns, negated) =>
      AddressSelects(o, patterns, negated, ctx.localAddr, ctx.localIP)
    case NegatedCondition(inner) => !Holds(o, inner, ctx)
  }

  /** A condition list: absent means unconditional. */
  predicate AllHold(o: Outside, conditions: Option<seq<Condition>>, ctx: MatchContext) {
    conditions.None? || forall i :: 0 <= i < |conditions.value| ==> Holds(o, conditions.value[i], ctx)
  }

  /** `!address` is the complement of `address` exactly when no negated clause of the list hits. */
  lemma NegatedAddressIsComplementIff(o: Outside, side: AddressField, patterns: string, ctx: MatchContext)
    ensures Holds(o, MatchAddressList(side, patterns, true), ctx) ==
            !Holds(o, MatchAddressList(side, patterns, false), ctx) <==>
            !AddressHit(o, Clauses(patterns), true,
                        if side.RemoteAddress? then ctx.remoteAddr else ctx.localAddr,
                        if side.RemoteAddress? then ctx.remoteIP else ctx.localIP)
  {
    match side
    case RemoteAddress =>
    case LocalAddress =>
  }

  // ---- evaluation, as the program does it ----

  method MatchGroups(patterns: string, groups: seq<string>, negated: bool) returns (r: bool)
    ensures r == (SomeGroup(patterns, groups) != negated)
  {
    var matched := false;
    for i := 0 to |groups|
      invariant !matched
      invariant forall k :: 0 <= k < i ==> !Selects(Clauses(patterns), groups[k])
    {
      var hit := MatchPatternList(patterns, groups[i]);
      if hit {
        matched := true;
        break;
      }
    }
    return if negated then !matched else matched;
  }

  method MatchNetworks(o: Outside, networks: seq<string>, addresses: seq<IP>) returns (r: bool)
    ensures r == SomeLocalNetwork(o, networks, addresses)
  {
    if |addresses| == 0 { return false; }
    for i := 0 to |networks|
      invariant forall k, j :: 0 <= k < i && 0 <= j < |addresses| ==> !o.inNetwork(networks[k], addresses[j])
    {
      for j := 0 to |addresses|
        invariant forall m :: 0 <= m < j ==> !o.inNetwork(networks[i], addresses[m])
      {
        if o.inNetwork(networks[i], addresses[j]) { return true; }
      }
    }
    return false;
  }

  lemma AddressHitOfCons(o: Outside, p: HostPattern, ps: seq<HostPattern>, negated: bool,
                         text: string, ip: Option<IP>)
    ensures AddressHit(o, [p] + ps, negated, text, ip) <==>
            (p.negated == negated && AddressFits(o, p.pattern, text, ip)) || AddressHit(o, ps, negated, text, ip)
  {
    assert ([p] + ps)[0] == p;
    if AddressHit(o, ps, negated, text, ip) {
      var i :| 0 <= i < |ps| && ps[i].negated == negated && AddressFits(o, ps[i].pattern, text, ip);
      assert ([p] + ps)[i + 1] == ps[i];
    }
  }

  method MatchAddress(o: Outside, patternList: string, negated: bool, text: string, ip: Option<IP>)
    returns (r: bool)
    ensures r == AddressSelects(o, patternList, negated, text, ip)
  {
    var pieces := Split(patternList, ',');
    var matched := false;
    assert pieces[0..] == pieces;
    for i := 0 to |pieces|
      invariant AddressHit(o, Clauses(patternList), true, text, ip) ==
                AddressHit(o, ClausesOf(pieces[i..]), true, text, ip)
      invariant AddressHit(o, Clauses(patternList), false, text, ip) ==
                (matched || AddressHit(o, ClausesOf(pieces[i..]), false, text, ip))
    {
      ClausesStep(pieces, i);
      var pattern := TrimSpace(pieces[i]);
      if pattern == "" { continue; }
      var excluded := false;
      if pattern[0] == '!' {
        excluded := true;
        pattern := pattern[1..];
      }
      ghost var c, rest := HostPattern(pattern, excluded), ClausesOf(pieces[i + 1..]);
      assert Clause(pieces[i]) == Some(c);
      AddressHitOfCons(o, c, rest, false, text, ip);
      AddressHitOfCons(o, c, rest, true, text, ip);
      var ok: bool;
      if '/' in pattern && ip.Some? {
        ok := o.inNetwork(pattern, ip.value);
      } else {
        ok := MatchPattern(pattern, text);
      }
      if ok {
        if excluded { return false; }
        matched := true;
      }
    }
    return if negated then !matched else matched;
  }

  /** The Match methods, dispatched on the kind of condition. */
  method Match(o: Outside, c: Condition, ctx: MatchContext) returns (r: bool)
    ensures r == Holds(o, c, ctx)
    decreases c
  {
    match c
    case HostCondition(ps) => r := MatchHostPatterns(ps, ctx.host);
    case MatchAll => r := true;
    case MatchCanonical => r := ctx.isCanonical;
    case MatchFinal => r := ctx.isFinal;
    case MatchInvalidUser => r := ctx.invalidUser;
    case MatchExec(command) =>
      if o.exec.None? { return false; }
      r := o.exec.value(command);
    case MatchLocalNetwork(networks) => r := MatchNetworks(o, networks, ctx.localAddresses);
    case MatchFieldList(field, patterns, negated) =>
      if field == FieldGroup {
        r := MatchGroups(patterns, ctx.groups, negated);
      } else {
        var result := MatchPatternList(patterns, FieldValue(field, ctx));
        r := if negated then !result else result;
      }
    case MatchAddressList(side, patterns, negated) =>
      if side == RemoteAddress {
        r := MatchAddress(o, patterns, negated, ctx.remoteAddr, ctx.remoteIP);
      } else {
        r := MatchAddress(o, patterns, negated, ctx.localAddr, ctx.localIP);
      }
    case NegatedCondition(inner) =>
      var result := Match(o, inner, ctx);
      r := !result;
  }

  method EvaluateConditions(o: Outside, conditions: Option<seq<Condition>>, ctx: MatchContext)
    returns (r: bool)
    ensures r == AllHold(o, conditions, ctx)
  {
    if conditions.None? || |conditions.value| == 0 { return true; }
    var cs := conditions.value;
    for i := 0 to |cs|
      invariant forall k :: 0 <= k < i ==> Holds(o, cs[k], ctx)
    {
      var hit := Match(o, cs[i], ctx);
      if !hit { return false; }
    }
    return true;
  }

  // ---- flag monotonicity ----

  /** The shapes the configuration parser can build: only exec and localnetwork are ever wrapped. */
  predicate Buildable(c: Condition) {
    c.NegatedCondition? ==> c.inner.MatchExec? || c.inner.MatchLocalNetwork?
  }

  predicate AllBuildable(conditions: Option<seq<Condition>>) {
    conditions.Some? ==> forall c :: c in conditions.value ==> Buildable(c)
  }

  /** `later` is `ctx` with possibly more of the two pass flags set. */
  predicate FlagsRaised(ctx: MatchContext, later: MatchContext) {
    && later == ctx.(isCanonical := later.isCanonical, isFinal := later.isFinal)
    && (ctx.isCanonical ==> later.isCanonical)
    && (ctx.isFinal ==> later.isFinal)
  }

  /** Raising a pass flag never makes a list of parser-built conditions stop matching. */
  lemma RaisingFlagsKeepsMatches(o: Outside, conditions: Option<seq<Condition>>,
                                 ctx: MatchContext, later: MatchContext)
    requires AllBuildable(conditions) && FlagsRaised(ctx, later)
    requires AllHold(o, conditions, ctx)
    ensures AllHold(o, conditions, later)
  {
    if conditions.Some? {
      forall i | 0 <= i < |conditions.value| ensures Holds(o, conditions.value[i], later) {
        var c := conditions.value[i];
        assert Holds(o, c, ctx) && Buildable(c);
        SameAnswerUnlessFlag(o, c, ctx, later);
      }
    }
  }

  lemma SameAnswerUnlessFlag(o: Outside, c: Condition, ctx: MatchContext, later: MatchContext)
    requires Buildable(c) && FlagsRaised(ctx, later)
    ensures !c.MatchCanonical? && !c.MatchFinal? ==> Holds(o, c, later) == Holds(o, c, ctx)
  {
    match c
    case MatchFieldList(field, patterns, negated) =>
      assert FieldValue(field, ctx) == FieldValue(field, later);
    case _ =>
  }

  // ---- lists of conditions ----

  /** Conditions hold together when each part does; no conditions always hold. */
  lemma ListsHoldTogether(o: Outside, a: seq<Condition>, b: seq<Condition>, ctx: MatchContext)
    ensures AllHold(o, Some(a + b), ctx) <==> AllHold(o, Some(a), ctx) && AllHold(o, Some(b), ctx)
    ensures AllHold(o, None, ctx) && AllHold(o, Some([]), ctx)
  {
    forall i | 0 <= i < |a| ensures (a + b)[i] == a[i] {}
    forall i | 0 <= i < |b| ensures (a + b)[|a| + i] == b[i] {}
  }
}
