/** What each request of a session does, from the request to what is seen of it. */
module SessionMeaning {
  import opened Text
  import opened Glob
  import opened Session

  const FRESH := Kept(None, [])

  // ---- what is started ----

  /** The command a request runs through the launcher, if it runs one: none for a shell, the forced one in
      place of the client's, and the registered one for a subsystem without a handler of its own. */
  function CommandRun(c: Config, r: Request): Option<string> {
    if !c.hasLauncher then None
    else match r
      case Shell => Some("")
      case Exec(Some(command)) =>
        if c.forceCommand.Some? && c.forceCommand.value != "" && c.forceCommand.value != "none"
        then c.forceCommand else Some(command)
      case SubsystemReq(Some(name)) =>
        var sub := c.subsystems(name);
        if sub.Some? && !(sub.value.internal && sub.value.hasHandler) && sub.value.command != ""
        then Some(sub.value.command) else None
      case _ => None
  }

  lemma FinalStarts(c: Config, k: Kept, r: Request, p: Process)
    requires Terminal(r)
    ensures Start(p) in Final(c, k, r) <==>
            CommandRun(c, r) == Some(p.command) && p.user == c.user && p.env == k.env
            && p.pty == (if r.SubsystemReq? then None else k.pty)
  {
    match r
    case Shell =>
    case Exec(_) =>
    case SubsystemReq(_) =>
  }

  lemma {:induction false} SetupNeverStarts(c: Config, rs: seq<Request>)
    requires forall i :: 0 <= i < |rs| ==> !Terminal(rs[i])
    ensures forall e :: e in SetupAll(c, rs) ==> !e.Start? && !e.StartInternal? && !e.Send?
  {
    if rs != [] {
      assert !Terminal(rs[0]);
      SetupNeverStarts(c, rs[1..]);
    }
  }

  /** Exactly this is started, over every request sequence: the command of the first shell, exec or subsystem
      request, for the connection's user, with the environment accepted and the terminal granted before it. */
  lemma StartedIff(c: Config, rs: seq<Request>, p: Process)
    ensures var n := EndOf(rs);
            Start(p) in Effects(c, FRESH, rs) <==>
            n < |rs| && CommandRun(c, rs[n]) == Some(p.command) && p.user == c.user
            && p.env == AcceptedEnv(c, rs[..n])
            && p.pty == (if rs[n].SubsystemReq? then None else GrantedPTY(c, rs[..n]))
  {
    var n := EndOf(rs);
    SessionShape(c, FRESH, rs);
    BeforeTheEnd(rs);
    SetupNeverStarts(c, rs[..n]);
    KeptEnv(c, FRESH, rs[..n]);
    KeptPTY(c, rs[..n]);
    assert [] + AcceptedEnv(c, rs[..n]) == AcceptedEnv(c, rs[..n]);
    if n < |rs| { FinalStarts(c, KeptAll(c, FRESH, rs[..n]), rs[n], p); }
  }

  /** A subsystem handler runs exactly when the ending request names a registered internal subsystem that has
      one. */
  lemma InternalIff(c: Config, rs: seq<Request>, name: string)
    ensures var n := EndOf(rs);
            StartInternal(name) in Effects(c, FRESH, rs) <==>
            n < |rs| && rs[n] == SubsystemReq(Some(name)) && c.subsystems(name).Some?
            && c.subsystems(name).value.internal && c.subsystems(name).value.hasHandler
  {
    var n := EndOf(rs);
    SessionShape(c, FRESH, rs);
    BeforeTheEnd(rs);
    SetupNeverStarts(c, rs[..n]);
    if n < |rs| { FinalInternal(c, KeptAll(c, FRESH, rs[..n]), rs[n], name); }
  }

  lemma FinalInternal(c: Config, k: Kept, r: Request, name: string)
    requires Terminal(r)
    ensures StartInternal(name) in Final(c, k, r) <==>
            r == SubsystemReq(Some(name)) && c.subsystems(name).Some?
            && c.subsystems(name).value.internal && c.subsystems(name).value.hasHandler
  {
    match r
    case Shell =>
    case Exec(_) =>
    case SubsystemReq(_) =>
  }

  // ---- what is replied ----

  /** The reply to the request that ends the session, which comes before anything it starts: yes to a shell or
      a decoded command with a launcher, and to a decoded name of a registered subsystem, whatever becomes of
      it. */
  lemma EndReply(c: Config, k: Kept, r: Request)
    requires Terminal(r)
    ensures Final(c, k, r) != []
    ensures Final(c, k, r)[0] == Reply(match r
                                       case Shell => c.hasLauncher
                                       case Exec(command) => c.hasLauncher && command.Some?
                                       case SubsystemReq(name) => name.Some? && c.subsystems(name.value).Some?)
  {
    match r
    case Shell =>
    case Exec(_) =>
    case SubsystemReq(_) =>
  }

  /** A terminal is granted, and kept, exactly when the request decodes and PermitTTY does not forbid it. */
  lemma TerminalReply(c: Config, k: Kept, pty: Option<PTY>)
    ensures Setup(c, PtyReq(pty)) == [Reply(pty.Some? && c.permitTTY != Some(false))]
    ensures KeptAfter(c, k, PtyReq(pty)) ==
            if pty.Some? && c.permitTTY != Some(false) then Kept(pty, k.env) else k
  {
  }

  /** A variable that decodes is acknowledged whether it is passed on or not; TERM always is. */
  lemma VariableReply(c: Config, k: Kept, variable: Option<(string, string)>)
    ensures Setup(c, Env(variable)) == [Reply(variable.Some?)]
    ensures KeptAfter(c, k, Env(variable)).pty == k.pty
    ensures variable.Some? && variable.value.0 == "TERM" ==>
              KeptAfter(c, k, Env(variable)).env == k.env + ["TERM=" + variable.value.1]
  {
    assert "TERM" + "=" == "TERM=";
  }

  /** Unknown requests are refused, if they want a reply, and change nothing. */
  lemma UnknownReply(c: Config, k: Kept, wantReply: bool)
    ensures Setup(c, Other(wantReply)) == (if wantReply then [Reply(false)] else [])
    ensures KeptAfter(c, k, Other(wantReply)) == k
  {
  }

  // ---- what the launcher hears ----

  function Heard(es: seq<Effect>): seq<Effect> {
    if es == [] then []
    else (if es[0].Resize? || es[0].Deliver? then [es[0]] else []) + Heard(es[1..])
  }

  /** The decoded window changes and signals, in order. */
  function Meant(rs: seq<Request>): seq<Effect> {
    if rs == [] then []
    else (match rs[0]
          case WindowChange(Some(size)) => [Resize(size)]
          case Signal(Some(name)) => [Deliver(name)]
          case _ => []) + Meant(rs[1..])
  }

  lemma {:induction false} HeardAppend(a: seq<Effect>, b: seq<Effect>)
    ensures Heard(a + b) == Heard(a) + Heard(b)
  {
    if a == [] {
      assert a + b == b;
    } else {
      assert (a + b)[0] == a[0] && (a + b)[1..] == a[1..] + b;
      HeardAppend(a[1..], b);
      Assoc(if a[0].Resize? || a[0].Deliver? then [a[0]] else [], Heard(a[1..]), Heard(b));
    }
  }

  lemma OneHeard(c: Config, r: Request)
    requires !Terminal(r)
    ensures Heard(Setup(c, r)) == if c.hasLauncher then Meant([r]) else []
  {
    var own := Setup(c, r);
    assert [r][1..] == [];
    if own != [] { assert own == [own[0]] && own[1..] == []; }
  }

  lemma MeantStep(rs: seq<Request>)
    requires rs != []
    ensures Meant(rs) == Meant([rs[0]]) + Meant(rs[1..])
  {
    assert [rs[0]][1..] == [];
  }

  lemma {:induction false} SetupHeard(c: Config, rs: seq<Request>)
    requires forall i :: 0 <= i < |rs| ==> !Terminal(rs[i])
    ensures Heard(SetupAll(c, rs)) == if c.hasLauncher then Meant(rs) else []
  {
    if rs != [] {
      SetupHeard(c, rs[1..]);
      OneHeard(c, rs[0]);
      MeantStep(rs);
      HeardAppend(Setup(c, rs[0]), SetupAll(c, rs[1..]));
    }
  }

  lemma FinalIsNotHeard(es: seq<Effect>)
    requires forall e :: e in es ==> !e.Resize? && !e.Deliver?
    ensures Heard(es) == []
  {
    if es != [] {
      assert es[0] in es;
      FinalIsNotHeard(es[1..]);
    }
  }

  lemma FinalEffects(c: Config, k: Kept, r: Request)
    requires Terminal(r)
    ensures forall e :: e in Final(c, k, r) ==> !e.Resize? && !e.Deliver?
  {
    match r
    case Shell =>
    case Exec(_) =>
    case SubsystemReq(_) =>
  }

  /** A launcher hears exactly the window changes and signals that decode, in order, up to the request that
      ends the session. */
  lemma LauncherHears(c: Config, rs: seq<Request>)
    ensures Heard(Effects(c, FRESH, rs)) == if c.hasLauncher then Meant(rs[..EndOf(rs)]) else []
  {
    var n := EndOf(rs);
    var last := if n < |rs| then Final(c, KeptAll(c, FRESH, rs[..n]), rs[n]) else [];
    SessionShape(c, FRESH, rs);
    BeforeTheEnd(rs);
    SetupHeard(c, rs[..n]);
    HeardAppend(SetupAll(c, rs[..n]), last);
    if n < |rs| { FinalEffects(c, KeptAll(c, FRESH, rs[..n]), rs[n]); }
    FinalIsNotHeard(last);
  }

  // ---- exit messages where nothing is launched ----

  /** A handler that succeeds exits with 0 and one that fails sends nothing; a registered subsystem that
      cannot be run exits with 1; a refused request sends nothing. */
  lemma ExitWithoutLaunch(c: Config, k: Kept, r: Request)
    requires Terminal(r) && CommandRun(c, r) == None
    ensures var sub := if r.SubsystemReq? && r.subsystem.Some? then c.subsystems(r.subsystem.value) else None;
            forall m :: Send(m) in Final(c, k, r) <==>
              sub.Some? && if sub.value.internal && sub.value.hasHandler
                           then m == ExitStatus(0) && !c.handlerFails(r.subsystem.value)
                           else m == ExitStatus(1)
  {
    match r
    case Shell =>
    case Exec(_) =>
    case SubsystemReq(_) =>
  }
}
