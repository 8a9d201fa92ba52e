/** Remote port forwarding: the registry of listeners under its lock, the request loop that drives it,
    and every interleaving of starts and stops. */
module Forwarder {
  import opened Text
  import Decimal

  type Listener = nat

  /** The address a client asked to bind and the port really bound. */
  datatype Bound = Bound(addr: string, port: nat)

  function JoinHostPort(host: string, port: string): string {
    if ':' in host then "[" + host + "]" + (":" + port) else host + (":" + port)
  }

  /** forwardKey */
  function Key(b: Bound): string {
    JoinHostPort(b.addr, Decimal.Render(b.port))
  }

  lemma ColonInside(u: string, p: string, v: string, q: string)
    requires u + (":" + p) == v + (":" + q) && |u| < |v|
    ensures ':' in p
  {
    assert (v + (":" + q))[|v|] == ':';
    assert (u + (":" + p))[|v|] == p[|v| - |u| - 1];
  }

  lemma LastColon(u: string, p: string, v: string, q: string)
    requires u + (":" + p) == v + (":" + q) && ':' !in p && ':' !in q
    ensures u == v && p == q
  {
    if |u| < |v| {
      ColonInside(u, p, v, q);
    } else if |v| < |u| {
      ColonInside(v, q, u, p);
    } else {
      var s, t := u + (":" + p), v + (":" + q);
      assert s[..|u|] == u && t[..|v|] == v;
      assert s[|u| + 1..] == p && t[|v| + 1..] == q;
    }
  }

  lemma DigitsHaveNoColon(n: nat)
    ensures ':' !in Decimal.Render(n)
  {
    assert Decimal.Digits(Decimal.Render(n));
  }

  /** Different addresses or ports never share a key. */
  lemma KeyInjective(a: Bound, b: Bound)
    requires Key(a) == Key(b)
    ensures a == b
  {
    var p, q := Decimal.Render(a.port), Decimal.Render(b.port);
    var u := if ':' in a.addr then "[" + a.addr + "]" else a.addr;
    var v := if ':' in b.addr then "[" + b.addr + "]" else b.addr;
    DigitsHaveNoColon(a.port);
    DigitsHaveNoColon(b.port);
    LastColon(u, p, v, q);
    Decimal.ValueOfRender(a.port);
    Decimal.ValueOfRender(b.port);
    if ':' in a.addr && ':' in b.addr {
      assert u[1..|u| - 1] == a.addr && v[1..|v| - 1] == b.addr;
    }
  }

  // ---- the locked sections ----

  function Inserted(forwards: map<string, Listener>, b: Bound, l: Listener): map<string, Listener> {
    forwards[Key(b) := l]
  }

  function Removed(forwards: map<string, Listener>, b: Bound): map<string, Listener> {
    forwards - {Key(b)}
  }

  function Lookup(forwards: map<string, Listener>, b: Bound): Option<Listener> {
    if Key(b) in forwards then Some(forwards[Key(b)]) else None
  }

  // ---- one connection's request loop ----

  /** A global request. `parsed` is the decoded address and port; `listen` is what the operating system
      gives when asked to listen; `closeFails` is the outcome of closing a listener. The last two kinds are
      for Unix sockets, with the decoded path and the outcome of the forwarder that serves them. */
  datatype Request =
    | Forward(parsed: Option<Bound>, listen: Option<(Listener, nat)>)
    | Cancel(parsed: Option<Bound>, closeFails: bool)
    | StreamForward(path: Option<string>, fails: bool)
    | StreamCancel(path: Option<string>, fails: bool)
    | Other(wantReply: bool)

  /** A reply: refused, or accepted with the bound port for a start. */
  datatype Reply = Refused | Accepted(port: Option<nat>)

  /** Whether there is a forwarder and remote forwarding is allowed, for TCP and for Unix sockets, and
      the PermitListen list. */
  datatype Policy = Policy(present: bool, allowed: bool, permitListen: seq<string>,
                           streamPresent: bool, streamAllowed: bool)

  /** An entry that lets an address and port through. */
  predicate LetsThrough(p: string, b: Bound) {
    p == "any" || (p != "none" && (p == Key(b) || p == Decimal.Render(b.port)))
  }

  /** No list permits everything; otherwise the first "none" ends the list. */
  predicate Permits(permits: seq<string>, b: Bound) {
    permits == [] || exists i :: 0 <= i < |permits| && LetsThrough(permits[i], b) && "none" !in permits[..i]
  }

  /** permitListenAllows */
  method PermitListenAllows(b: Bound, permits: seq<string>) returns (r: bool)
    ensures r == Permits(permits, b)
  {
    if |permits| == 0 { return true; }
    var key := Key(b);
    for i := 0 to |permits|
      invariant forall k :: 0 <= k < i ==> permits[k] != "none" && !LetsThrough(permits[k], b)
    {
      var p := permits[i];
      if p == "any" { return true; }
      if p == "none" {
        assert forall k :: i < k <= |permits| ==> "none" in permits[..k] by {
          assert forall k :: i < k <= |permits| ==> permits[..k][i] == p;
        }
        return false;
      }
      if p == key || p == Decimal.Render(b.port) { return true; }
    }
    return false;
  }

  /** One request: the replies sent and the registry afterwards. */
  function Serve(c: Policy, forwards: map<string, Listener>, r: Request): (seq<Reply>, map<string, Listener>) {
    match r
    case Forward(parsed, listen) =>
      if !c.present || !c.allowed || parsed.None? || !Permits(c.permitListen, parsed.value) || listen.None? then
        ([Refused], forwards)
      else
        var bound := Bound(parsed.value.addr, listen.value.1);
        ([Accepted(Some(bound.port))], Inserted(forwards, bound, listen.value.0))
    case Cancel(parsed, closeFails) =>
      if !c.present || parsed.None? || Lookup(forwards, parsed.value).None? then ([Refused], forwards)
      else ([if closeFails then Refused else Accepted(None)], Removed(forwards, parsed.value))
    case StreamForward(path, fails) =>
      ([if !c.streamPresent || !c.streamAllowed || path.None? || fails then Refused else Accepted(None)], forwards)
    case StreamCancel(path, fails) =>
      ([if !c.streamPresent || path.None? || fails then Refused else Accepted(None)], forwards)
    case Other(wantReply) => (if wantReply then [Refused] else [], forwards)
  }

  function ServeAll(c: Policy, forwards: map<string, Listener>, rs: seq<Request>): (seq<Reply>, map<string, Listener>)
    decreases |rs|
  {
    if rs == [] then ([], forwards)
    else
      var (first, next) := Serve(c, forwards, rs[0]);
      var (rest, last) := ServeAll(c, next, rs[1..]);
      (first + rest, last)
  }

  class DefaultTcpForwarder {
    var forwards: map<string, Listener>

    constructor ()
      ensures forwards == map[]
    {
      forwards := map[];
    }

    /** StartRemoteForward, given what net.Listen returns. */
    method StartRemoteForward(c: Policy, b: Bound, listen: Option<(Listener, nat)>) returns (port: Option<nat>)
      modifies this
      ensures !Permits(c.permitListen, b) || listen.None? ==> port == None && forwards == old(forwards)
      ensures Permits(c.permitListen, b) && listen.Some? ==>
                port == Some(listen.value.1)
                && forwards == Inserted(old(forwards), Bound(b.addr, listen.value.1), listen.value.0)
    {
      var permitted := PermitListenAllows(b, c.permitListen);
      if !permitted { return None; }
      if listen.None? { return None; }
      var (listener, actualPort) := listen.value;
      var key := Key(Bound(b.addr, actualPort));
      forwards := forwards[key := listener];
      return Some(actualPort);
    }

    /** StopRemoteForward: the listener to close, if there is one. */
    method StopRemoteForward(b: Bound) returns (listener: Option<Listener>)
      modifies this
      ensures listener == Lookup(old(forwards), b)
      ensures forwards == if listener.Some? then Removed(old(forwards), b) else old(forwards)
    {
      var key := Key(b);
      if key !in forwards { return None; }
      listener := Some(forwards[key]);
      forwards := forwards - {key};
    }

    /** One pass of the loop of handleGlobalRequests. */
    method ServeRequest(c: Policy, r: Request) returns (own: seq<Reply>)
      modifies this
      ensures (own, forwards) == Serve(c, old(forwards), r)
    {
      match r {
        case Forward(parsed, listen) =>
          if !c.present || !c.allowed || parsed.None? {
            return [Refused];
          }
          var port := StartRemoteForward(c, parsed.value, listen);
          return [if port.Some? then Accepted(port) else Refused];
        case Cancel(parsed, closeFails) =>
          if !c.present || parsed.None? {
            return [Refused];
          }
          var listener := StopRemoteForward(parsed.value);
          return [if listener.Some? && !closeFails then Accepted(None) else Refused];
        case StreamForward(path, fails) =>
          if !c.streamPresent || !c.streamAllowed || path.None? || fails { return [Refused]; }
          return [Accepted(None)];
        case StreamCancel(path, fails) =>
          if !c.streamPresent || path.None? || fails { return [Refused]; }
          return [Accepted(None)];
        case Other(wantReply) =>
          return if wantReply then [Refused] else [];
      }
    }

    /** handleGlobalRequests: the requests of one connection in order. */
    method HandleGlobalRequests(c: Policy, rs: seq<Request>) returns (replies: seq<Reply>)
      modifies this
      ensures (replies, forwards) == ServeAll(c, old(forwards), rs)
    {
      replies := [];
      assert rs[0..] == rs;
      var i := 0;
      assert replies + ServeAll(c, forwards, rs[i..]).0 == ServeAll(c, forwards, rs[i..]).0;
      while i < |rs|
        invariant 0 <= i <= |rs|
        invariant ServeAll(c, old(forwards), rs).0 == replies + ServeAll(c, forwards, rs[i..]).0
        invariant ServeAll(c, old(forwards), rs).1 == ServeAll(c, forwards, rs[i..]).1
      {
        assert rs[i..][0] == rs[i] && rs[i..][1..] == rs[i + 1..];
        var own := ServeRequest(c, rs[i]);
        Assoc(replies, own, ServeAll(c, forwards, rs[i + 1..]).0);
        replies := replies + own;
        i := i + 1;
      }
      assert ServeAll(c, forwards, rs[i..]) == ([], forwards);
      assert replies + [] == replies;
    }
  }

  // ---- all connections together ----

  /** Everything shared: the listeners the system has open, the registry, the listeners between listening
      and insertion, those between removal and closing, and those closed. */
  datatype State = State(open: map<Listener, Bound>, forwards: map<string, Listener>,
                         starting: set<Listener>, stopping: set<Listener>, closed: set<Listener>)

  const INITIAL := State(map[], map[], {}, {}, {})

  /** The atomic steps of concurrent starts and stops. */
  datatype Event =
    | Listen(l: Listener, requested: nat, bound: Bound)
    | Insert(l: Listener, bound: Bound)
    | StopHit(l: Listener, bound: Bound)
    | StopMiss(bound: Bound)
    | Close(l: Listener)

  /** What makes a step possible. The operating system hands out new listeners, honours a requested port,
      and never has two open listeners on one address and port. */
  predicate Enabled(s: State, e: Event) {
    match e
    case Listen(l, requested, bound) =>
      && l !in s.open && l !in s.closed && bound.port > 0
      && (requested != 0 ==> bound.port == requested)
      && bound !in s.open.Values
    case Insert(l, bound) => l in s.starting && l in s.open && s.open[l] == bound
    case StopHit(l, bound) => Lookup(s.forwards, bound) == Some(l)
    case StopMiss(bound) => Lookup(s.forwards, bound) == None
    case Close(l) => l in s.stopping
  }

  function Do(s: State, e: Event): State {
    match e
    case Listen(l, _, bound) => s.(open := s.open[l := bound], starting := s.starting + {l})
    case Insert(l, bound) => s.(forwards := Inserted(s.forwards, bound, l), starting := s.starting - {l})
    case StopHit(l, bound) => s.(forwards := Removed(s.forwards, bound), stopping := s.stopping + {l})
    case StopMiss(_) => s
    case Close(l) => s.(open := s.open - {l}, stopping := s.stopping - {l}, closed := s.closed + {l})
  }

  /** The events can happen one after the other. */
  predicate Possible(s: State, es: seq<Event>)
    decreases |es|
  {
    es == [] || (Enabled(s, es[0]) && Possible(Do(s, es[0]), es[1..]))
  }

  function After(s: State, es: seq<Event>): State
    decreases |es|
  {
    if es == [] then s else After(Do(s, es[0]), es[1..])
  }

  /** What every step keeps. Each open listener is in exactly one place: being started, registered under
      the key of its address and port, or being stopped. */
  ghost predicate Inv(s: State) {
    && (forall k :: k in s.forwards ==> s.forwards[k] in s.open && k == Key(s.open[s.forwards[k]]))
    && (forall k :: k in s.forwards ==> s.forwards[k] !in s.starting && s.forwards[k] !in s.stopping)
    && (forall l :: l in s.open <==> l in s.starting || l in s.stopping || l in s.forwards.Values)
    && s.starting !! s.stopping
    && (forall l :: l in s.closed ==> l !in s.open)
    && (forall l, m :: l in s.open && m in s.open && s.open[l] == s.open[m] ==> l == m)
  }

  lemma InitialInv()
    ensures Inv(INITIAL)
  {
  }

  lemma InvListen(s: State, e: Event)
    requires Inv(s) && e.Listen? && Enabled(s, e)
    ensures Inv(Do(s, e))
  {
    var s' := Do(s, e);
    forall l, m | l in s'.open && m in s'.open && s'.open[l] == s'.open[m] ensures l == m {
      if l in s.open && m in s.open {
      } else if l != m {
        assert false;
      }
    }
  }

  /** An insert never replaces a live entry. */
  lemma InsertIsFresh(s: State, l: Listener, bound: Bound)
    requires Inv(s) && Enabled(s, Insert(l, bound))
    ensures Key(bound) !in s.forwards
  {
    if Key(bound) in s.forwards {
      var m := s.forwards[Key(bound)];
      KeyInjective(bound, s.open[m]);
      assert false;
    }
  }

  lemma InvInsert(s: State, e: Event)
    requires Inv(s) && e.Insert? && Enabled(s, e)
    ensures Inv(Do(s, e))
  {
    var s' := Do(s, e);
    InsertIsFresh(s, e.l, e.bound);
    assert s'.forwards[Key(e.bound)] == e.l;
    forall l ensures l in s'.forwards.Values <==> l == e.l || l in s.forwards.Values {
      if l in s.forwards.Values {
        var k :| k in s.forwards && s.forwards[k] == l;
        assert s'.forwards[k] == l;
      }
    }
  }

  lemma InvStop(s: State, e: Event)
    requires Inv(s) && e.StopHit? && Enabled(s, e)
    ensures Inv(Do(s, e))
  {
    var s' := Do(s, e);
    forall k | k in s'.forwards ensures s'.forwards[k] != e.l {
      assert k == Key(s.open[s.forwards[k]]) && k != Key(e.bound);
    }
    forall l ensures l in s.forwards.Values <==> l == e.l || l in s'.forwards.Values {
      if l in s.forwards.Values && l != e.l {
        var k :| k in s.forwards && s.forwards[k] == l;
        assert s'.forwards[k] == l;
      }
    }
  }

  lemma InvClose(s: State, e: Event)
    requires Inv(s) && e.Close? && Enabled(s, e)
    ensures Inv(Do(s, e))
  {
  }

  lemma StepKeepsInv(s: State, e: Event)
    requires Inv(s) && Enabled(s, e)
    ensures Inv(Do(s, e))
  {
    match e
    case Listen(_, _, _) => InvListen(s, e);
    case Insert(_, _) => InvInsert(s, e);
    case StopHit(_, _) => InvStop(s, e);
    case StopMiss(_) =>
    case Close(_) => InvClose(s, e);
  }

  /** Every reachable state satisfies the invariant. */
  lemma {:induction false} RunKeepsInv(s: State, es: seq<Event>)
    requires Inv(s) && Possible(s, es)
    ensures Inv(After(s, es))
    decreases |es|
  {
    if es != [] {
      StepKeepsInv(s, es[0]);
      RunKeepsInv(Do(s, es[0]), es[1..]);
    }
  }

  /** When no start or stop is under way, the open listeners are exactly the registered ones, each
      registered once. */
  lemma Quiescence(es: seq<Event>)
    requires Possible(INITIAL, es)
    requires After(INITIAL, es).starting == {} && After(INITIAL, es).stopping == {}
    ensures var s := After(INITIAL, es);
            s.open.Keys == s.forwards.Values
            && forall j, k :: j in s.forwards && k in s.forwards && s.forwards[j] == s.forwards[k] ==> j == k
  {
    InitialInv();
    RunKeepsInv(INITIAL, es);
  }

  /** A closed listener is never closed again. */
  lemma {:induction false} ClosedStaysClosed(s: State, es: seq<Event>, l: Listener)
    requires Inv(s) && Possible(s, es) && l in s.closed
    ensures forall i :: 0 <= i < |es| ==> es[i] != Close(l)
    decreases |es|
  {
    if es != [] {
      StepKeepsInv(s, es[0]);
      ClosedStaysClosed(Do(s, es[0]), es[1..], l);
      assert forall i :: 0 < i < |es| ==> es[i] == es[1..][i - 1];
    }
  }

  lemma {:induction false} ClosedAtMostOnce(s: State, es: seq<Event>, i: nat, j: nat)
    requires Inv(s) && Possible(s, es) && i < j < |es| && es[i].Close? && es[j].Close?
    ensures es[i].l != es[j].l
    decreases |es|
  {
    StepKeepsInv(s, es[0]);
    if i > 0 {
      ClosedAtMostOnce(Do(s, es[0]), es[1..], i - 1, j - 1);
    } else {
      ClosedStaysClosed(Do(s, es[0]), es[1..], es[0].l);
      assert es[1..][j - 1] == es[j];
    }
  }

  predicate HitOn(e: Event, b: Bound) {
    e.StopHit? && e.bound == b
  }

  /** A stop of this address and port, successful or not. */
  predicate StopOn(e: Event, b: Bound) {
    HitOn(e, b) || (e.StopMiss? && e.bound == b)
  }

  function Inserts(es: seq<Event>, b: Bound): nat {
    if es == [] then 0 else (if es[0].Insert? && es[0].bound == b then 1 else 0) + Inserts(es[1..], b)
  }

  function Hits(es: seq<Event>, b: Bound): nat {
    if es == [] then 0 else (if HitOn(es[0], b) then 1 else 0) + Hits(es[1..], b)
  }

  function Registered(s: State, b: Bound): nat {
    if Key(b) in s.forwards then 1 else 0
  }

  lemma CountStep(s: State, e: Event, b: Bound)
    requires Inv(s) && Enabled(s, e)
    ensures Registered(Do(s, e), b) + (if HitOn(e, b) then 1 else 0) ==
            Registered(s, b) + (if e.Insert? && e.bound == b then 1 else 0)
  {
    match e
    case Insert(l, bound) =>
      InsertIsFresh(s, l, bound);
      if Key(bound) == Key(b) { KeyInjective(bound, b); }
    case StopHit(l, bound) =>
      if Key(bound) == Key(b) { KeyInjective(bound, b); }
    case _ =>
  }

  /** Stops succeed exactly as often as starts registered, up to the registration still there. So of two
      concurrent stops of one registered forward exactly one succeeds. */
  lemma {:induction false} StopsBalanceStarts(s: State, es: seq<Event>, b: Bound)
    requires Inv(s) && Possible(s, es)
    ensures Hits(es, b) + Registered(After(s, es), b) == Inserts(es, b) + Registered(s, b)
    decreases |es|
  {
    if es != [] {
      StepKeepsInv(s, es[0]);
      CountStep(s, es[0], b);
      StopsBalanceStarts(Do(s, es[0]), es[1..], b);
    }
  }

  lemma OfTwoStopsOneSucceeds(s: State, es: seq<Event>, b: Bound)
    requires Inv(s) && Possible(s, es) && Registered(s, b) == 1 && Inserts(es, b) == 0
    ensures Hits(es, b) <= 1
    ensures (exists i :: 0 <= i < |es| && StopOn(es[i], b)) ==> Hits(es, b) == 1
  {
    StopsBalanceStarts(s, es, b);
    if i :| 0 <= i < |es| && StopOn(es[i], b) {
      StopMeansHit(s, es, b, i);
    }
  }

  lemma StepKeepsRegistered(s: State, e: Event, b: Bound)
    requires Enabled(s, e) && Registered(s, b) == 1 && !HitOn(e, b)
    ensures Registered(Do(s, e), b) == 1
    ensures !StopOn(e, b)
  {
    if e.StopHit? && Key(e.bound) == Key(b) {
      KeyInjective(e.bound, b);
    }
  }

  lemma {:induction false} StopMeansHit(s: State, es: seq<Event>, b: Bound, i: nat)
    requires Possible(s, es) && Registered(s, b) == 1
    requires i < |es| && StopOn(es[i], b)
    ensures Hits(es, b) >= 1
    decreases |es|
  {
    if !HitOn(es[0], b) {
      StepKeepsRegistered(s, es[0], b);
      if i > 0 {
        assert es[1..][i - 1] == es[i];
        StopMeansHit(Do(s, es[0]), es[1..], b, i - 1);
      }
    }
  }

  lemma StepKeepsEntry(s: State, e: Event, b: Bound, l: Listener)
    requires Inv(s) && Enabled(s, e) && Lookup(s.forwards, b) == Some(l) && !HitOn(e, b)
    ensures Lookup(Do(s, e).forwards, b) == Some(l)
  {
    match e
    case Insert(_, bound) => InsertIsFresh(s, e.l, bound);
    case StopHit(_, bound) => if Key(bound) == Key(b) { KeyInjective(bound, b); }
    case _ =>
  }

  /** A registered listener stays under its key until a stop hits that key. */
  lemma {:induction false} StaysRegistered(s: State, es: seq<Event>, b: Bound, l: Listener)
    requires Inv(s) && Possible(s, es) && Lookup(s.forwards, b) == Some(l) && Hits(es, b) == 0
    ensures Lookup(After(s, es).forwards, b) == Some(l)
    decreases |es|
  {
    if es != [] {
      StepKeepsInv(s, es[0]);
      StepKeepsEntry(s, es[0], b, l);
      StaysRegistered(Do(s, es[0]), es[1..], b, l);
    }
  }

  /** A start with port 0 can be stopped with the port it was told: whatever happens in between, unless
      another stop of that port came first, the stop finds the very listener that was opened. */
  lemma PortZeroIsFoundAgain(s: State, l: Listener, bound: Bound, between: seq<Event>, more: seq<Event>)
    requires Inv(s) && Possible(s, [Listen(l, 0, bound)] + between)
    requires var s' := After(s, [Listen(l, 0, bound)] + between);
             Enabled(s', Insert(l, bound)) && Possible(Do(s', Insert(l, bound)), more) && Hits(more, bound) == 0
    ensures var last := After(Do(After(s, [Listen(l, 0, bound)] + between), Insert(l, bound)), more);
            Enabled(last, StopHit(l, bound)) && !Enabled(last, StopMiss(bound))
  {
    var first := [Listen(l, 0, bound)] + between;
    var s' := After(s, first);
    RunKeepsInv(s, first);
    StepKeepsInv(s', Insert(l, bound));
    StaysRegistered(Do(s', Insert(l, bound)), more, bound, l);
  }

  /** The steps one connection's loop takes for a request. */
  function Steps(c: Policy, forwards: map<string, Listener>, r: Request): seq<Event> {
    match r
    case Forward(parsed, listen) =>
      if !c.present || !c.allowed || parsed.None? || !Permits(c.permitListen, parsed.value) || listen.None? then []
      else
        var bound := Bound(parsed.value.addr, listen.value.1);
        [Listen(listen.value.0, parsed.value.port, bound), Insert(listen.value.0, bound)]
    case Cancel(parsed, _) =>
      if !c.present || parsed.None? then []
      else
        var found := Lookup(forwards, parsed.value);
        if found.Some? then [StopHit(found.value, parsed.value), Close(found.value)]
        else [StopMiss(parsed.value)]
    case _ => []
  }

  lemma TwoSteps(s: State, a: Event, b: Event)
    ensures Possible(s, [a, b]) <==> Enabled(s, a) && Enabled(Do(s, a), b)
    ensures After(s, [a, b]) == Do(Do(s, a), b)
  {
    var mid := Do(s, a);
    assert [a, b][1..] == [b] && [b][1..] == [];
    assert Possible(mid, [b]) <==> Enabled(mid, b);
    assert After(mid, [b]) == Do(mid, b);
  }

  /** The request loop is one of the interleaved parties: each request takes possible steps, as long as the
      system keeps its word about a listener it opens, and they leave the registry the loop leaves. */
  lemma ServeIsARun(c: Policy, s: State, r: Request)
    requires forall e :: e in Steps(c, s.forwards, r) && e.Listen? ==> Enabled(s, e)
    ensures Possible(s, Steps(c, s.forwards, r))
    ensures After(s, Steps(c, s.forwards, r)).forwards == Serve(c, s.forwards, r).1
  {
    match r
    case Forward(parsed, listen) =>
      if c.present && c.allowed && parsed.Some? && Permits(c.permitListen, parsed.value) && listen.Some? {
        var l, bound := listen.value.0, Bound(parsed.value.addr, listen.value.1);
        assert Listen(l, parsed.value.port, bound) in Steps(c, s.forwards, r);
        TwoSteps(s, Listen(l, parsed.value.port, bound), Insert(l, bound));
      }
    case Cancel(parsed, _) =>
      if c.present && parsed.Some? {
        match Lookup(s.forwards, parsed.value)
        case Some(l) => TwoSteps(s, StopHit(l, parsed.value), Close(l));
        case None => assert [StopMiss(parsed.value)][1..] == [];
      }
    case _ =>
  }

  /** The steps of the whole loop. */
  function AllSteps(c: Policy, forwards: map<string, Listener>, rs: seq<Request>): seq<Event>
    decreases |rs|
  {
    if rs == [] then []
    else Steps(c, forwards, rs[0]) + AllSteps(c, Serve(c, forwards, rs[0]).1, rs[1..])
  }

  /** Every listener the system opens along the way is one it may open there. */
  ghost predicate KeepsWord(c: Policy, s: State, rs: seq<Request>)
    decreases |rs|
  {
    rs == [] ||
    var own := Steps(c, s.forwards, rs[0]);
    (forall e :: e in own && e.Listen? ==> Enabled(s, e)) && KeepsWord(c, After(s, own), rs[1..])
  }

  lemma {:induction false} RunsInARow(s: State, a: seq<Event>, b: seq<Event>)
    ensures Possible(s, a + b) <==> Possible(s, a) && Possible(After(s, a), b)
    ensures After(s, a + b) == After(After(s, a), b)
    decreases |a|
  {
    if a == [] {
      assert a + b == b;
    } else {
      assert (a + b)[0] == a[0] && (a + b)[1..] == a[1..] + b;
      RunsInARow(Do(s, a[0]), a[1..], b);
    }
  }

  /** The whole request loop of a connection is a possible run of the interleaved system that ends in the
      registry the loop leaves. */
  lemma {:induction false} ServeAllIsARun(c: Policy, s: State, rs: seq<Request>)
    requires KeepsWord(c, s, rs)
    ensures Possible(s, AllSteps(c, s.forwards, rs))
    ensures After(s, AllSteps(c, s.forwards, rs)).forwards == ServeAll(c, s.forwards, rs).1
    decreases |rs|
  {
    if rs != [] {
      var own := Steps(c, s.forwards, rs[0]);
      ServeIsARun(c, s, rs[0]);
      ServeAllIsARun(c, After(s, own), rs[1..]);
      RunsInARow(s, own, AllSteps(c, After(s, own).forwards, rs[1..]));
    }
  }

  // ---- what the replies say ----

  /** A forward is accepted exactly when it inserts a listener, with the port that listener is bound to;
      afterwards the address and that port find it. Otherwise it is refused and nothing changes. */
  lemma ForwardReply(c: Policy, forwards: map<string, Listener>, r: Request)
    requires r.Forward?
    ensures var (replies, after) := Serve(c, forwards, r);
            if c.present && c.allowed && r.parsed.Some? && Permits(c.permitListen, r.parsed.value)
               && r.listen.Some? then
              var (l, p) := r.listen.value;
              var bound := Bound(r.parsed.value.addr, p);
              && replies == [Accepted(Some(p))]
              && Insert(l, bound) in Steps(c, forwards, r)
              && Lookup(after, bound) == Some(l)
            else
              replies == [Refused] && after == forwards && Steps(c, forwards, r) == []
  {
  }

  /** A cancel is accepted exactly when its address and port are registered and closing works; it is refused
      when it has no step, misses, or closing fails. */
  lemma CancelReply(c: Policy, forwards: map<string, Listener>, r: Request)
    requires r.Cancel?
    ensures var (replies, after) := Serve(c, forwards, r);
            if c.present && r.parsed.Some? && Key(r.parsed.value) in forwards then
              var l := forwards[Key(r.parsed.value)];
              && replies == [if r.closeFails then Refused else Accepted(None)]
              && StopHit(l, r.parsed.value) in Steps(c, forwards, r)
              && Lookup(after, r.parsed.value) == None
            else
              && replies == [Refused] && after == forwards
              && forall e :: e in Steps(c, forwards, r) ==> e.StopMiss?
  {
  }

  /** Requests for Unix sockets leave the registry alone and are accepted, without a port, when there is a
      forwarder that succeeds; a start must also be allowed. */
  lemma StreamReply(c: Policy, forwards: map<string, Listener>, r: Request)
    requires r.StreamForward? || r.StreamCancel?
    ensures Serve(c, forwards, r).1 == forwards
    ensures Serve(c, forwards, r).0 ==
            [if c.streamPresent && r.path.Some? && !r.fails && (r.StreamForward? ==> c.streamAllowed)
             then Accepted(None) else Refused]
  {
  }

  function RepliesOwed(rs: seq<Request>): nat {
    if rs == [] then 0 else (if rs[0].Other? && !rs[0].wantReply then 0 else 1) + RepliesOwed(rs[1..])
  }

  /** Every request gets one reply, except an unknown one that wants none; unknown ones are refused. */
  lemma {:induction false} EveryRequestReplied(c: Policy, forwards: map<string, Listener>, rs: seq<Request>)
    ensures |ServeAll(c, forwards, rs).0| == RepliesOwed(rs)
    ensures forall r :: r in rs && r.Other? && r.wantReply ==> Serve(c, forwards, r).0 == [Refused]
    decreases |rs|
  {
    if rs != [] {
      EveryRequestReplied(c, Serve(c, forwards, rs[0]).1, rs[1..]);
    }
  }

  lemma {:induction false} StaysUntilCancelled(c: Policy, forwards: map<string, Listener>, b: Bound, rs: seq<Request>)
    requires Key(b) in forwards
    requires forall i :: 0 <= i < |rs| ==> !(rs[i].Cancel? && rs[i].parsed == Some(b))
    ensures Key(b) in ServeAll(c, forwards, rs).1
    decreases |rs|
  {
    if rs != [] {
      if rs[0].Cancel? && rs[0].parsed.Some? && Key(rs[0].parsed.value) == Key(b) {
        KeyInjective(rs[0].parsed.value, b);
      }
      StaysUntilCancelled(c, Serve(c, forwards, rs[0]).1, b, rs[1..]);
    }
  }

  /** A forward can be cancelled with the port its reply named: after any requests without such a cancel, it
      is accepted unless closing fails. */
  lemma RepliedPortCancels(c: Policy, forwards: map<string, Listener>, r: Request, p: nat, between: seq<Request>,
                           closeFails: bool)
    requires r.Forward? && Serve(c, forwards, r).0 == [Accepted(Some(p))]
    requires var b := Bound(r.parsed.value.addr, p);
             forall i :: 0 <= i < |between| ==> !(between[i].Cancel? && between[i].parsed == Some(b))
    ensures var b := Bound(r.parsed.value.addr, p);
            Serve(c, ServeAll(c, Serve(c, forwards, r).1, between).1, Cancel(Some(b), closeFails)).0 ==
            [if closeFails then Refused else Accepted(None)]
  {
    var b := Bound(r.parsed.value.addr, p);
    ForwardReply(c, forwards, r);
    StaysUntilCancelled(c, Serve(c, forwards, r).1, b, between);
    CancelReply(c, ServeAll(c, Serve(c, forwards, r).1, between).1, Cancel(Some(b), closeFails));
  }

  // ---- what PermitListen means ----

  /** A list of one entry: "any" lets everything through, "none" nothing, and any other entry exactly the port
      or the address and port it names. What stands behind a "none" does not count. */
  lemma PermitListenMeans(p: string, rest: seq<string>, b: Bound)
    ensures Permits([], b)
    ensures Permits(["any"] + rest, b) && !Permits(["none"] + rest, b)
    ensures p != "any" && p != "none" ==>
              (Permits([p], b) <==> p == JoinHostPort(b.addr, Decimal.Render(b.port)) || p == Decimal.Render(b.port))
  {
    assert (["any"] + rest)[0] == "any" && (["any"] + rest)[..0] == [];
    forall i | 0 <= i < |["none"] + rest| && LetsThrough((["none"] + rest)[i], b)
      ensures "none" in (["none"] + rest)[..i]
    {
      assert i > 0 && (["none"] + rest)[..i][0] == "none";
    }
    assert [p][..0] == [];
    if p != "any" && p != "none" && LetsThrough(p, b) {
      assert LetsThrough([p][0], b) && "none" !in [p][..0];
    }
  }
}
