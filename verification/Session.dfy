/** The request loop of a session channel. */
module Session {
  import opened Text
  import opened Glob

  datatype PTY = PTY(term: string, width: nat, height: nat, modes: string)

  /** A channel request; `parsed` is the decoded payload, None when it does not decode. */
  datatype Request =
    | PtyReq(pty: Option<PTY>)
    | Env(variable: Option<(string, string)>)
    | WindowChange(size: Option<(nat, nat)>)
    | Signal(name: Option<string>)
    | Shell
    | Exec(command: Option<string>)
    | SubsystemReq(subsystem: Option<string>)
    | Other(wantReply: bool)

  datatype Process = Process(user: string, command: string, env: seq<string>, pty: Option<PTY>)

  datatype Subsystem = Subsystem(internal: bool, hasHandler: bool, command: string)

  /** What a launcher tells its reporter. */
  datatype Report = ExitStatus(status: nat) | ExitSignal(signal: string)

  /** The reports a launcher makes while a process runs, and whether it then returns an error. */
  datatype Launch = Launch(reports: seq<Report>, failed: bool)

  datatype Config = Config(
    user: string, hasLauncher: bool, permitTTY: Option<bool>, acceptEnv: seq<string>,
    forceCommand: Option<string>, subsystems: string -> Option<Subsystem>,
    launch: Process -> Launch, handlerFails: string -> bool)

  /** Everything the handler does that can be seen from outside, in order. */
  datatype Effect =
    | Reply(ok: bool)
    | Resize(size: (nat, nat))
    | Deliver(signal: string)
    | Start(process: Process)
    | StartInternal(name: string)
    | Send(message: Report)

  /** envNameAccepted */
  predicate Accepted(name: string, accept: seq<string>) {
    name == "TERM" || exists i :: 0 <= i < |accept| && Matches(accept[i], name)
  }

  // ---- the meaning of a request ----

  predicate Terminal(r: Request) {
    r.Shell? || r.Exec? || r.SubsystemReq?
  }

  /** What is kept from one request to the next. */
  datatype Kept = Kept(pty: Option<PTY>, env: seq<string>)

  function TTYAllowed(c: Config): bool {
    c.permitTTY != Some(false)
  }

  function KeptAfter(c: Config, k: Kept, r: Request): Kept {
    match r
    case PtyReq(Some(p)) => if TTYAllowed(c) then k.(pty := Some(p)) else k
    case Env(Some((name, value))) =>
      if Accepted(name, c.acceptEnv) then k.(env := k.env + [name + "=" + value]) else k
    case _ => k
  }

  /** The effects of a request that does not end the session. */
  function Setup(c: Config, r: Request): seq<Effect> {
    match r
    case PtyReq(p) => [Reply(TTYAllowed(c) && p.Some?)]
    case Env(v) => [Reply(v.Some?)]
    case WindowChange(s) => if c.hasLauncher && s.Some? then [Resize(s.value)] else []
    case Signal(s) => if c.hasLauncher && s.Some? then [Deliver(s.value)] else []
    case Other(wantReply) => if wantReply then [Reply(false)] else []
    case _ => []
  }

  /** The exit message of a launched process: the first report, else 1 after an error. */
  function ExitOf(l: Launch): seq<Effect> {
    if l.reports != [] then [Send(l.reports[0])]
    else if l.failed then [Send(ExitStatus(1))]
    else []
  }

  function Launched(c: Config, p: Process): seq<Effect> {
    [Reply(true), Start(p)] + ExitOf(c.launch(p))
  }

  function Forced(c: Config, command: string): string {
    match c.forceCommand
    case Some(f) => if f != "none" && f != "" then f else command
    case None => command
  }

  /** The effects of the request that ends the session. */
  function Final(c: Config, k: Kept, r: Request): seq<Effect>
    requires Terminal(r)
  {
    match r
    case Shell =>
      if !c.hasLauncher then [Reply(false)] else Launched(c, Process(c.user, "", k.env, k.pty))
    case Exec(command) =>
      if command.None? || !c.hasLauncher then [Reply(false)]
      else Launched(c, Process(c.user, Forced(c, command.value), k.env, k.pty))
    case SubsystemReq(name) =>
      if name.None? || c.subsystems(name.value).None? then [Reply(false)]
      else
        var sub := c.subsystems(name.value).value;
        if sub.internal && sub.hasHandler then
          [Reply(true), StartInternal(name.value)]
          + if c.handlerFails(name.value) then [] else [Send(ExitStatus(0))]
        else if !c.hasLauncher || sub.command == "" then [Reply(true), Send(ExitStatus(1))]
        else Launched(c, Process(c.user, sub.command, k.env, None))
  }

  /** HandleSession */
  function Effects(c: Config, k: Kept, rs: seq<Request>): seq<Effect>
    decreases |rs|
  {
    if rs == [] then []
    else if Terminal(rs[0]) then Final(c, k, rs[0])
    else Setup(c, rs[0]) + Effects(c, KeptAfter(c, k, rs[0]), rs[1..])
  }

  // ---- the handler ----

  method EnvNameAccepted(name: string, accept: seq<string>) returns (r: bool)
    ensures r == Accepted(name, accept)
  {
    if name == "TERM" { return true; }
    for i := 0 to |accept|
      invariant forall j :: 0 <= j < i ==> !Matches(accept[j], name)
    {
      var hit := MatchEnvPattern(accept[i], name);
      if hit { return true; }
    }
    return false;
  }

  /** The session channel, with everything done on it. */
  class Channel {
    var log: seq<Effect>

    constructor ()
      ensures log == []
    {
      log := [];
    }

    method Put(e: Effect)
      modifies this
      ensures log == old(log) + [e]
    {
      log := log + [e];
    }
  }

  /** channelExitReporter: a latch in front of the channel. */
  class ChannelExitReporter {
    const channel: Channel
    var sent: bool

    constructor (channel: Channel)
      ensures !sent && this.channel == channel
    {
      this.channel := channel;
      sent := false;
    }

    /** Exit and ExitSignal. */
    method Exit(message: Report)
      modifies this, channel
      ensures sent
      ensures channel.log == old(channel.log) + if old(sent) then [] else [Send(message)]
    {
      if sent { return; }
      sent := true;
      channel.Put(Send(message));
    }
  }

  /** runProcess: the launcher reporting as it runs, and the handler reporting its failure. */
  method RunProcess(c: Config, p: Process, reporter: ChannelExitReporter)
    requires !reporter.sent
    modifies reporter, reporter.channel
    ensures reporter.channel.log == old(reporter.channel.log) + [Start(p)] + ExitOf(c.launch(p))
  {
    var l := c.launch(p);
    reporter.channel.Put(Start(p));
    ghost var started := reporter.channel.log;
    for i := 0 to |l.reports|
      invariant reporter.sent == (i > 0)
      invariant reporter.channel.log == started + if i == 0 then [] else [Send(l.reports[0])]
    {
      reporter.Exit(l.reports[i]);
    }
    if l.failed {
      reporter.Exit(ExitStatus(1));
    }
  }

  method RunSubsystem(c: Config, k: Kept, name: Option<string>, reporter: ChannelExitReporter)
    requires !reporter.sent
    modifies reporter, reporter.channel
    ensures reporter.channel.log == old(reporter.channel.log) + Final(c, k, SubsystemReq(name))
  {
    var ch := reporter.channel;
    if name.None? {
      ch.Put(Reply(false));
      return;
    }
    var found := c.subsystems(name.value);
    if found.None? {
      ch.Put(Reply(false));
      return;
    }
    var sub := found.value;
    ch.Put(Reply(true));
    if sub.internal && sub.hasHandler {
      ch.Put(StartInternal(name.value));
      if !c.handlerFails(name.value) {
        reporter.Exit(ExitStatus(0));
      }
      return;
    }
    if !c.hasLauncher || sub.command == "" {
      reporter.Exit(ExitStatus(1));
      return;
    }
    RunProcess(c, Process(c.user, sub.command, k.env, None), reporter);
  }

  /** The requests that end the loop. */
  method Finish(c: Config, k: Kept, r: Request, reporter: ChannelExitReporter)
    requires Terminal(r) && !reporter.sent
    modifies reporter, reporter.channel
    ensures reporter.channel.log == old(reporter.channel.log) + Final(c, k, r)
  {
    var ch := reporter.channel;
    match r {
      case Shell =>
        if !c.hasLauncher {
          ch.Put(Reply(false));
          return;
        }
        ch.Put(Reply(true));
        RunProcess(c, Process(c.user, "", k.env, k.pty), reporter);
      case Exec(command) =>
        if command.None? {
          ch.Put(Reply(false));
          return;
        }
        var cmd := command.value;
        if c.forceCommand.Some? && c.forceCommand.value != "none" && c.forceCommand.value != "" {
          cmd := c.forceCommand.value;
        }
        if !c.hasLauncher {
          ch.Put(Reply(false));
          return;
        }
        ch.Put(Reply(true));
        RunProcess(c, Process(c.user, cmd, k.env, k.pty), reporter);
      case SubsystemReq(name) =>
        RunSubsystem(c, k, name, reporter);
    }
  }

  /** One pass of the loop for any other request. */
  method Prepare(c: Config, k: Kept, r: Request, ch: Channel) returns (k': Kept)
    requires !Terminal(r)
    modifies ch
    ensures ch.log == old(ch.log) + Setup(c, r) && k' == KeptAfter(c, k, r)
  {
    k' := k;
    match r {
      case PtyReq(p) =>
        if c.permitTTY == Some(false) || p.None? {
          ch.Put(Reply(false));
        } else {
          k' := k.(pty := p);
          ch.Put(Reply(true));
        }
      case Env(v) =>
        if v.None? {
          ch.Put(Reply(false));
        } else {
          var (name, value) := v.value;
          var accepted := EnvNameAccepted(name, c.acceptEnv);
          if accepted {
            k' := k.(env := k.env + [name + "=" + value]);
          }
          ch.Put(Reply(true));
        }
      case WindowChange(s) =>
        if c.hasLauncher && s.Some? { ch.Put(Resize(s.value)); }
      case Signal(s) =>
        if c.hasLauncher && s.Some? { ch.Put(Deliver(s.value)); }
      case Other(wantReply) =>
        if wantReply { ch.Put(Reply(false)); }
    }
  }

  method HandleSession(c: Config, rs: seq<Request>, ch: Channel)
    modifies ch
    ensures ch.log == old(ch.log) + Effects(c, Kept(None, []), rs)
  {
    var reporter := new ChannelExitReporter(ch);
    var k := Kept(None, []);
    assert rs[0..] == rs;
    for i := 0 to |rs|
      invariant !reporter.sent && reporter.channel == ch
      invariant old(ch.log) + Effects(c, Kept(None, []), rs) == ch.log + Effects(c, k, rs[i..])
    {
      assert rs[i..][0] == rs[i] && rs[i..][1..] == rs[i + 1..];
      if Terminal(rs[i]) {
        Finish(c, k, rs[i], reporter);
        return;
      }
      ghost var before := ch.log;
      var k' := Prepare(c, k, rs[i], ch);
      Assoc(before, Setup(c, rs[i]), Effects(c, k', rs[i + 1..]));
      k := k';
    }
  }

  // ---- what a whole session promises ----

  /** The position of the request that ends the session; the length when none does. */
  function EndOf(rs: seq<Request>): (i: nat)
    ensures i <= |rs| && (i < |rs| ==> Terminal(rs[i]))
  {
    if rs == [] || Terminal(rs[0]) then 0 else 1 + EndOf(rs[1..])
  }

  function SetupAll(c: Config, rs: seq<Request>): seq<Effect> {
    if rs == [] then [] else Setup(c, rs[0]) + SetupAll(c, rs[1..])
  }

  /** The environment of the accepted env requests, in order. */
  function AcceptedEnv(c: Config, rs: seq<Request>): seq<string> {
    if rs == [] then []
    else match rs[0]
      case Env(Some((name, value))) =>
        (if name == "TERM" || exists i :: 0 <= i < |c.acceptEnv| && Matches(c.acceptEnv[i], name)
         then [name + "=" + value] else []) + AcceptedEnv(c, rs[1..])
      case _ => AcceptedEnv(c, rs[1..])
  }

  /** The terminal of the last granted pty request. */
  function GrantedPTY(c: Config, rs: seq<Request>): Option<PTY> {
    if rs == [] then None
    else
      var last := rs[|rs| - 1];
      if last.PtyReq? && last.pty.Some? && c.permitTTY != Some(false) then last.pty else GrantedPTY(c, rs[..|rs| - 1])
  }

  function KeptAll(c: Config, k: Kept, rs: seq<Request>): Kept
    decreases |rs|
  {
    if rs == [] then k else KeptAll(c, KeptAfter(c, k, rs[0]), rs[1..])
  }

  lemma {:induction false} KeptEnv(c: Config, k: Kept, rs: seq<Request>)
    ensures KeptAll(c, k, rs).env == k.env + AcceptedEnv(c, rs)
    decreases |rs|
  {
    if rs == [] {
      assert k.env + [] == k.env;
    } else {
      var k' := KeptAfter(c, k, rs[0]);
      KeptEnv(c, k', rs[1..]);
      match rs[0]
      case Env(Some((name, value))) =>
        var own := if Accepted(name, c.acceptEnv) then [name + "=" + value] else [];
        assert k.env + [] == k.env;
        assert k'.env == k.env + own;
        Assoc(k.env, own, AcceptedEnv(c, rs[1..]));
      case _ =>
    }
  }

  lemma {:induction false} KeptLast(c: Config, k: Kept, rs: seq<Request>, r: Request)
    ensures KeptAll(c, k, rs + [r]) == KeptAfter(c, KeptAll(c, k, rs), r)
    decreases |rs|
  {
    if rs == [] {
      assert [r][1..] == [];
      assert rs + [r] == [r];
    } else {
      assert (rs + [r])[0] == rs[0] && (rs + [r])[1..] == rs[1..] + [r];
      KeptLast(c, KeptAfter(c, k, rs[0]), rs[1..], r);
    }
  }

  lemma {:induction false} KeptPTY(c: Config, rs: seq<Request>)
    ensures KeptAll(c, Kept(None, []), rs).pty == GrantedPTY(c, rs)
    decreases |rs|
  {
    if rs != [] {
      var front, last := rs[..|rs| - 1], rs[|rs| - 1];
      KeptPTY(c, front);
      KeptLast(c, Kept(None, []), front, last);
      assert front + [last] == rs;
    }
  }

  /** A session is the effects of the requests before the one that ends it, and then those of that one:
      nothing behind it is read. */
  lemma {:induction false} SessionShape(c: Config, k: Kept, rs: seq<Request>)
    ensures var n := EndOf(rs);
            Effects(c, k, rs) ==
            SetupAll(c, rs[..n]) + if n < |rs| then Final(c, KeptAll(c, k, rs[..n]), rs[n]) else []
    decreases |rs|
  {
    var n := EndOf(rs);
    if rs == [] {
    } else if n == 0 {
      assert rs[..0] == [] && [] + Final(c, k, rs[0]) == Final(c, k, rs[0]);
    } else {
      SessionShape(c, KeptAfter(c, k, rs[0]), rs[1..]);
      assert rs[..n][0] == rs[0] && rs[..n][1..] == rs[1..][..n - 1];
      var last := if n < |rs| then Final(c, KeptAll(c, k, rs[..n]), rs[n]) else [];
      Assoc(Setup(c, rs[0]), SetupAll(c, rs[1..][..n - 1]), last);
    }
  }

  /** What is counted: starts of a command or subsystem, exit messages, replies. */
  datatype Kind = AStart | AnExit | AReply

  predicate IsOf(e: Effect, k: Kind) {
    match k
    case AStart => e.Start? || e.StartInternal?
    case AnExit => e.Send?
    case AReply => e.Reply?
  }

  function Count(es: seq<Effect>, k: Kind): nat {
    if es == [] then 0 else (if IsOf(es[0], k) then 1 else 0) + Count(es[1..], k)
  }

  lemma {:induction false} CountAppend(a: seq<Effect>, b: seq<Effect>, k: Kind)
    ensures Count(a + b, k) == Count(a, k) + Count(b, k)
  {
    if a == [] {
      assert a + b == b;
    } else {
      assert (a + b)[0] == a[0] && (a + b)[1..] == a[1..] + b;
      CountAppend(a[1..], b, k);
    }
  }

  lemma CountOne(e: Effect, k: Kind)
    ensures Count([e], k) == if IsOf(e, k) then 1 else 0
  {
    assert [e][1..] == [];
  }

  /** The replies owed to a request, sections 6.2 to 6.9 of RFC 4254 with every reply wanted. */
  function RepliesOwed(r: Request): nat {
    match r
    case WindowChange(_) => 0
    case Signal(_) => 0
    case Other(wantReply) => if wantReply then 1 else 0
    case _ => 1
  }

  function AllRepliesOwed(rs: seq<Request>): nat {
    if rs == [] then 0 else RepliesOwed(rs[0]) + AllRepliesOwed(rs[1..])
  }

  function IfReply(k: Kind, n: nat): nat {
    if k == AReply then n else 0
  }

  /** The effects of one request that does not end the session. */
  lemma OneSetupCount(c: Config, r: Request, k: Kind)
    requires !Terminal(r)
    ensures Count(Setup(c, r), k) == IfReply(k, RepliesOwed(r))
  {
    var own := Setup(c, r);
    if own != [] {
      assert own == [own[0]];
      CountOne(own[0], k);
    }
  }

  lemma {:induction false} SetupCount(c: Config, rs: seq<Request>, k: Kind)
    requires forall i :: 0 <= i < |rs| ==> !Terminal(rs[i])
    ensures Count(SetupAll(c, rs), k) == IfReply(k, AllRepliesOwed(rs))
  {
    if rs != [] {
      SetupCount(c, rs[1..], k);
      OneSetupCount(c, rs[0], k);
      CountAppend(Setup(c, rs[0]), SetupAll(c, rs[1..]), k);
    }
  }

  lemma CountTwo(a: Effect, b: Effect, rest: seq<Effect>, k: Kind)
    ensures Count([a, b] + rest, k) == Count([a], k) + Count([b], k) + Count(rest, k)
  {
    assert [a] + [b] == [a, b];
    CountAppend([a, b], rest, k);
    CountAppend([a], [b], k);
  }

  /** A start followed by at most one exit message. */
  lemma StartedCount(b: Effect, rest: seq<Effect>, k: Kind)
    requires (b.Start? || b.StartInternal?) && |rest| <= 1 && forall e :: e in rest ==> e.Send?
    ensures Count([Reply(true), b] + rest, k) == if k == AnExit then |rest| else 1
  {
    CountTwo(Reply(true), b, rest, k);
    CountOne(Reply(true), k);
    CountOne(b, k);
    if rest != [] {
      assert rest[0] in rest && rest == [rest[0]];
      CountOne(rest[0], k);
    }
  }

  /** The request that ends the session gets one reply, starts at most one thing and is followed by at
      most one exit message. */
  predicate CountsWell(es: seq<Effect>, k: Kind) {
    Count(es, k) <= 1 && (k == AReply ==> Count(es, k) == 1)
  }

  lemma LaunchedWell(c: Config, p: Process, k: Kind)
    ensures CountsWell(Launched(c, p), k)
  {
    StartedCount(Start(p), ExitOf(c.launch(p)), k);
  }

  lemma FinalCount(c: Config, kept: Kept, r: Request, k: Kind)
    requires Terminal(r)
    ensures CountsWell(Final(c, kept, r), k)
  {
    CountOne(Reply(false), k);
    match r
    case Shell => LaunchedWell(c, Process(c.user, "", kept.env, kept.pty), k);
    case Exec(command) =>
      if command.Some? {
        LaunchedWell(c, Process(c.user, Forced(c, command.value), kept.env, kept.pty), k);
      }
    case SubsystemReq(name) =>
      if name.Some? && c.subsystems(name.value).Some? {
        SubsystemCount(c, kept, name.value, c.subsystems(name.value).value, k);
      }
  }

  lemma SubsystemCount(c: Config, kept: Kept, name: string, sub: Subsystem, k: Kind)
    requires c.subsystems(name) == Some(sub)
    ensures CountsWell(Final(c, kept, SubsystemReq(Some(name))), k)
  {
    if sub.internal && sub.hasHandler {
      StartedCount(StartInternal(name), if c.handlerFails(name) then [] else [Send(ExitStatus(0))], k);
    } else if !c.hasLauncher || sub.command == "" {
      RefusedByExit(k);
    } else {
      LaunchedWell(c, Process(c.user, sub.command, kept.env, None), k);
    }
  }

  lemma RefusedByExit(k: Kind)
    ensures CountsWell([Reply(true), Send(ExitStatus(1))], k)
  {
    assert [Reply(true)] + [Send(ExitStatus(1))] == [Reply(true), Send(ExitStatus(1))];
    CountAppend([Reply(true)], [Send(ExitStatus(1))], k);
    CountOne(Reply(true), k);
    CountOne(Send(ExitStatus(1)), k);
  }

  lemma {:induction false} BeforeTheEnd(rs: seq<Request>)
    ensures forall i :: 0 <= i < EndOf(rs) ==> !Terminal(rs[i])
  {
    if rs != [] && !Terminal(rs[0]) {
      BeforeTheEnd(rs[1..]);
      assert forall i :: 0 < i < |rs| ==> rs[i] == rs[1..][i - 1];
    }
  }

  lemma {:induction false} OwedAppend(rs: seq<Request>, r: Request)
    ensures AllRepliesOwed(rs + [r]) == AllRepliesOwed(rs) + RepliesOwed(r)
  {
    if rs == [] {
      assert rs + [r] == [r] && [r][1..] == [];
    } else {
      assert (rs + [r])[0] == rs[0] && (rs + [r])[1..] == rs[1..] + [r];
      OwedAppend(rs[1..], r);
    }
  }

  /** The requests the handler reads. */
  function ReadBy(rs: seq<Request>): seq<Request> {
    if EndOf(rs) < |rs| then rs[..EndOf(rs) + 1] else rs
  }

  /** A session that nothing ends. */
  lemma OpenCount(c: Config, rs: seq<Request>, k: Kind)
    requires EndOf(rs) == |rs|
    ensures Count(Effects(c, Kept(None, []), rs), k) == IfReply(k, AllRepliesOwed(rs))
  {
    SessionShape(c, Kept(None, []), rs);
    BeforeTheEnd(rs);
    assert rs[..|rs|] == rs;
    assert SetupAll(c, rs) + [] == SetupAll(c, rs);
    SetupCount(c, rs, k);
  }

  /** A session that ends with its last request read. */
  lemma EndedCount(c: Config, rs: seq<Request>, k: Kind)
    requires EndOf(rs) < |rs|
    ensures var n := EndOf(rs);
            Count(Effects(c, Kept(None, []), rs), k) ==
            IfReply(k, AllRepliesOwed(rs[..n])) + Count(Final(c, KeptAll(c, Kept(None, []), rs[..n]), rs[n]), k)
  {
    var n := EndOf(rs);
    SessionShape(c, Kept(None, []), rs);
    BeforeTheEnd(rs);
    SetupCount(c, rs[..n], k);
    CountAppend(SetupAll(c, rs[..n]), Final(c, KeptAll(c, Kept(None, []), rs[..n]), rs[n]), k);
  }

  lemma ReadReplies(rs: seq<Request>, n: nat)
    requires n < |rs| && Terminal(rs[n])
    ensures AllRepliesOwed(rs[..n + 1]) == AllRepliesOwed(rs[..n]) + 1
  {
    assert rs[..n + 1] == rs[..n] + [rs[n]];
    OwedAppend(rs[..n], rs[n]);
  }

  lemma SessionCount(c: Config, rs: seq<Request>, k: Kind)
    ensures k != AReply ==> Count(Effects(c, Kept(None, []), rs), k) <= 1
    ensures k == AReply ==> Count(Effects(c, Kept(None, []), rs), k) == AllRepliesOwed(ReadBy(rs))
  {
    var n := EndOf(rs);
    if n < |rs| {
      EndedCount(c, rs, k);
      FinalCount(c, KeptAll(c, Kept(None, []), rs[..n]), rs[n], k);
      ReadReplies(rs, n);
    } else {
      OpenCount(c, rs, k);
    }
  }

  /** Over every request sequence: at most one command or subsystem is started (section 6.5 of RFC 4254),
      at most one exit message is sent (section 6.10), and the requests read get exactly the replies
      owed to them. */
  lemma SessionSafety(c: Config, rs: seq<Request>)
    ensures var es := Effects(c, Kept(None, []), rs);
            && Count(es, AStart) <= 1
            && Count(es, AnExit) <= 1
            && Count(es, AReply) == AllRepliesOwed(ReadBy(rs))
  {
    SessionCount(c, rs, AStart);
    SessionCount(c, rs, AnExit);
    SessionCount(c, rs, AReply);
  }

  lemma {:induction false} SetupStartsNothing(c: Config, rs: seq<Request>, p: Process)
    requires forall i :: 0 <= i < |rs| ==> !Terminal(rs[i])
    ensures Start(p) !in SetupAll(c, rs)
  {
    if rs != [] {
      assert !Terminal(rs[0]);
      SetupStartsNothing(c, rs[1..], p);
    }
  }

  /** A started process runs with exactly the accepted environment, in order, and with the last granted
      terminal unless it is a subsystem. */
  lemma StartedEnvironment(c: Config, rs: seq<Request>, p: Process)
    requires Start(p) in Effects(c, Kept(None, []), rs)
    ensures var n := EndOf(rs);
            && n < |rs|
            && p.user == c.user
            && p.env == AcceptedEnv(c, rs[..n])
            && p.pty == if rs[n].SubsystemReq? then None else GrantedPTY(c, rs[..n])
  {
    var n := EndOf(rs);
    var k := KeptAll(c, Kept(None, []), rs[..n]);
    SessionShape(c, Kept(None, []), rs);
    BeforeTheEnd(rs);
    SetupStartsNothing(c, rs[..n], p);
    KeptEnv(c, Kept(None, []), rs[..n]);
    KeptPTY(c, rs[..n]);
    assert [] + AcceptedEnv(c, rs[..n]) == AcceptedEnv(c, rs[..n]);
    assert Start(p) in Final(c, k, rs[n]);
    FinalStart(c, k, rs[n], p);
  }

  lemma FinalStart(c: Config, k: Kept, r: Request, p: Process)
    requires Terminal(r) && Start(p) in Final(c, k, r)
    ensures p.user == c.user && p.env == k.env && p.pty == if r.SubsystemReq? then None else k.pty
    ensures Final(c, k, r) == Launched(c, p)
  {
  }

  /** A session that starts a process is what comes before it, and the launch. */
  lemma StartedShape(c: Config, rs: seq<Request>, p: Process)
    requires Start(p) in Effects(c, Kept(None, []), rs)
    ensures var n := EndOf(rs);
            && n < |rs|
            && Effects(c, Kept(None, []), rs) == SetupAll(c, rs[..n]) + Launched(c, p)
            && Final(c, KeptAll(c, Kept(None, []), rs[..n]), rs[n]) == Launched(c, p)
            && forall i :: 0 <= i < n ==> !Terminal(rs[..n][i])
  {
    var n := EndOf(rs);
    SessionShape(c, Kept(None, []), rs);
    BeforeTheEnd(rs);
    SetupStartsNothing(c, rs[..n], p);
    FinalStart(c, KeptAll(c, Kept(None, []), rs[..n]), rs[n], p);
  }

  /** A started process ends with an exit message exactly when its launcher reported or failed; the message
      is the first report, and status 1 when there was none. */
  lemma ExitOfStarted(c: Config, rs: seq<Request>, p: Process)
    requires Start(p) in Effects(c, Kept(None, []), rs)
    ensures var es, l := Effects(c, Kept(None, []), rs), c.launch(p);
            && Count(es, AnExit) == (if l.reports != [] || l.failed then 1 else 0)
            && (forall m :: Send(m) in es ==> m == if l.reports != [] then l.reports[0] else ExitStatus(1))
  {
    StartedShape(c, rs, p);
    EndedCount(c, rs, AnExit);
    StartedCount(Start(p), ExitOf(c.launch(p)), AnExit);
    SetupSendsNothing(c, rs[..EndOf(rs)]);
  }

  lemma {:induction false} SetupSendsNothing(c: Config, rs: seq<Request>)
    requires forall i :: 0 <= i < |rs| ==> !Terminal(rs[i])
    ensures forall m :: Send(m) !in SetupAll(c, rs)
  {
    if rs != [] {
      assert !Terminal(rs[0]);
      SetupSendsNothing(c, rs[1..]);
    }
  }

  /** Requests behind the one that ends the session make no difference. */
  lemma NothingReadAfterTheEnd(c: Config, rs: seq<Request>, more: seq<Request>)
    requires EndOf(rs) < |rs|
    ensures Effects(c, Kept(None, []), rs + more) == Effects(c, Kept(None, []), rs)
  {
    EndStays(rs, more);
    var n := EndOf(rs);
    SessionShape(c, Kept(None, []), rs);
    SessionShape(c, Kept(None, []), rs + more);
    assert (rs + more)[..n] == rs[..n] && (rs + more)[n] == rs[n];
  }

  lemma {:induction false} EndStays(rs: seq<Request>, more: seq<Request>)
    requires EndOf(rs) < |rs|
    ensures EndOf(rs + more) == EndOf(rs)
  {
    if !Terminal(rs[0]) {
      assert (rs + more)[0] == rs[0] && (rs + more)[1..] == rs[1..] + more;
      EndStays(rs[1..], more);
    } else {
      assert (rs + more)[0] == rs[0];
    }
  }
}
