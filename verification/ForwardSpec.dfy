/** Port-forwarding specifications: the command-line form, the configuration form it is rewritten to,
    and the parser of the latter. */
module ForwardSpec {
  import opened Text

  datatype Forward = Forward(bindAddress: string, bindPort: string, host: string, hostPort: string)

  function Count(s: string, c: char): nat {
    if s == "" then 0 else (if s[0] == c then 1 else 0) + Count(s[1..], c)
  }

  /** Position of the first "]:"; the length when absent. */
  function IndexOfBracketColon(s: string): (r: nat)
    ensures r <= |s| && (r < |s| ==> r + 1 < |s| && s[r] == ']' && s[r + 1] == ':')
  {
    if s == "" then 0
    else if |s| > 1 && s[0] == ']' && s[1] == ':' then 0
    else IndexOfBracketColon(s[1..]) + 1
  }

  /** SplitHostPort: None when the program reports failure. With at most one colon the first is also
      the last. */
  function SplitHostPort(s: string): Option<(string, string)> {
    if "[" <= s then
      var end := IndexOf(s, ']');
      if end == |s| then None
      else
        var rest := s[end + 1..];
        Some((s[1..end], if ":" <= rest then rest[1..] else ""))
    else if Count(s, ':') > 1 then None
    else
      var i := IndexOf(s, ':');
      if i == |s| then None else Some((s[..i], s[i + 1..]))
  }

  /** One half of a forward: address and port, with a path or an unsplittable text as the port. */
  function Endpoint(spec: string): (string, string) {
    if '/' in spec then ("", spec)
    else match SplitHostPort(spec)
      case Some(pair) => pair
      case None => ("", spec)
  }

  /** parseForward; None is its "empty forwarding specification" error. */
  function ParseForward(value: string): Option<Forward> {
    var parts := Fields(value);
    if |parts| == 0 then None
    else
      var (bindAddress, bindPort) := Endpoint(parts[0]);
      var (host, hostPort) := if |parts| >= 2 then Endpoint(parts[1]) else ("", "");
      Some(Forward(bindAddress, bindPort, host, hostPort))
  }

  /** convertForwardSpec */
  function ConvertForwardSpec(spec: string): string {
    if ' ' in spec || '/' in spec then spec
    else
      var end := IndexOfBracketColon(spec);
      if "[" <= spec && end < |spec| then
        var parts := SplitN(spec[end + 2..], ':', 3);
        if |parts| == 3 then spec[..end + 1] + ":" + parts[0] + " " + parts[1] + ":" + parts[2] else spec
      else Rewritten(Split(spec, ':'), spec)
  }

  /** The last switch of convertForwardSpec, on the number of colon-separated parts. */
  function Rewritten(parts: seq<string>, spec: string): string {
    if |parts| == 3 then parts[0] + " " + parts[1] + ":" + parts[2]
    else if |parts| == 4 then parts[0] + ":" + parts[1] + " " + parts[2] + ":" + parts[3]
    else spec
  }

  // ---- components ----

  /** No blank and no path separator. */
  predicate Clean(s: string) {
    forall i :: 0 <= i < |s| ==> !IsSpace(s[i]) && s[i] != '/'
  }

  /** A component of a specification: clean, without colon or opening bracket. */
  predicate Plain(s: string) {
    Clean(s) && forall i :: 0 <= i < |s| ==> s[i] != ':' && s[i] != '['
  }

  /** The inside of a bracketed address. */
  predicate Bracketable(s: string) {
    Clean(s) && ']' !in s
  }

  /** Two components around a separator. */
  function Around(a: string, c: char, b: string): string {
    a + ([c] + b)
  }

  /** [a]:b */
  function Boxed(a: string, b: string): string {
    "[" + (a + ("]:" + b))
  }

  lemma AroundClean(a: string, c: char, b: string)
    requires Clean(a) && Clean(b) && !IsSpace(c) && c != '/'
    ensures Clean(Around(a, c, b)) && ' ' !in Around(a, c, b) && '/' !in Around(a, c, b)
  {
  }

  lemma BoxedClean(a: string, b: string)
    requires Clean(a) && Clean(b)
    ensures Clean(Boxed(a, b)) && ' ' !in Boxed(a, b) && '/' !in Boxed(a, b)
  {
  }

  lemma {:induction false} CountAbsent(s: string, c: char)
    requires c !in s
    ensures Count(s, c) == 0
  {
    if s != "" { CountAbsent(s[1..], c); }
  }

  lemma {:induction false} CountAppend(a: string, b: string, c: char)
    ensures Count(a + b, c) == Count(a, c) + Count(b, c)
  {
    if a == "" {
      assert a + b == b;
    } else {
      assert (a + b)[1..] == a[1..] + b;
      CountAppend(a[1..], b, c);
    }
  }

  lemma {:induction false} SplitLength(s: string, c: char)
    ensures |Split(s, c)| == Count(s, c) + 1
  {
    if s != "" { SplitLength(s[1..], c); }
  }

  lemma SplitAt(p: string, rest: string)
    requires ':' !in p
    ensures Split(Around(p, ':', rest), ':') == [p] + Split(rest, ':')
  {
    SplitPrefix(p, [':'] + rest, ':');
    assert ([':'] + rest)[1..] == rest;
    assert p + "" == p;
  }

  lemma SplitPlain(p: string)
    requires ':' !in p
    ensures Split(p, ':') == [p]
  {
    SplitPrefix(p, "", ':');
    assert p + "" == p;
  }

  lemma SplitThree(a: string, b: string, c: string)
    requires ':' !in a && ':' !in b && ':' !in c
    ensures Split(Around(a, ':', Around(b, ':', c)), ':') == [a, b, c]
  {
    SplitAt(a, Around(b, ':', c));
    SplitAt(b, c);
    SplitPlain(c);
  }

  // ---- what the two parsers do with clean texts ----

  lemma PairEndpoint(a: string, b: string)
    requires Plain(a) && Clean(b) && ':' !in b
    ensures Endpoint(Around(a, ':', b)) == (a, b)
  {
    var s := Around(a, ':', b);
    AroundClean(a, ':', b);
    IndexOfPrefix(a, [':'] + b, ':');
    CountAppend(a, [':'] + b, ':');
    CountAbsent(a, ':');
    CountAbsent(b, ':');
    assert ([':'] + b)[1..] == b;
    assert s[..|a|] == a && s[|a| + 1..] == b;
  }

  lemma BoxedParts(a: string, b: string)
    ensures Boxed(a, b) == ("[" + a) + ("]:" + b) && "[" <= Boxed(a, b)
    ensures var s, end := Boxed(a, b), |a| + 1;
            end < |s| && s[1..end] == a && s[end + 1..] == ":" + b
    ensures ":" <= ":" + b && (":" + b)[1..] == b
  {
  }

  lemma BoxedSplits(a: string, b: string)
    requires ']' !in a
    ensures SplitHostPort(Boxed(a, b)) == Some((a, b))
  {
    var s, end := Boxed(a, b), |a| + 1;
    BoxedParts(a, b);
    assert ']' !in "[" + a;
    IndexOfPrefix("[" + a, "]:" + b, ']');
    assert IndexOf(s, ']') == end;
  }

  lemma BoxedEndpoint(a: string, b: string)
    requires Bracketable(a) && Clean(b)
    ensures Endpoint(Boxed(a, b)) == (a, b)
  {
    BoxedClean(a, b);
    BoxedSplits(a, b);
  }

  lemma PortEndpoint(p: string)
    requires Plain(p)
    ensures Endpoint(p) == ("", p)
  {
    IndexOfAbsent(p, ':');
    CountAbsent(p, ':');
  }

  lemma ParseTwo(listen: string, target: string)
    requires listen != "" && target != "" && Clean(listen) && Clean(target)
    ensures ParseForward(Around(listen, ' ', target)) ==
            Some(Forward(Endpoint(listen).0, Endpoint(listen).1, Endpoint(target).0, Endpoint(target).1))
  {
    FieldsJoin([listen, target]);
    assert [listen, target][1..] == [target];
    assert Join([listen, target], ' ') == listen + [' '] + target == Around(listen, ' ', target);
  }

  lemma ParseOne(spec: string)
    requires spec != "" && Clean(spec)
    ensures ParseForward(spec) == Some(Forward(Endpoint(spec).0, Endpoint(spec).1, "", ""))
  {
    FieldsJoin([spec]);
  }

  lemma GlueTwo(a: string, b: string, c: string)
    ensures a + " " + b + ":" + c == Around(a, ' ', Around(b, ':', c))
  {
    var target := [':'] + c;
    Assoc(a + " " + b, ":", c);
    Assoc(a + " ", b, target);
    Assoc(a, " ", b + target);
  }

  lemma ConvertThree(spec: string, a: string, b: string, c: string)
    requires ' ' !in spec && '/' !in spec && !("[" <= spec) && Split(spec, ':') == [a, b, c]
    ensures ConvertForwardSpec(spec) == Around(a, ' ', Around(b, ':', c))
  {
    calc {
      ConvertForwardSpec(spec);
      Rewritten(Split(spec, ':'), spec);
      a + " " + b + ":" + c;
      { GlueTwo(a, b, c); }
      Around(a, ' ', Around(b, ':', c));
    }
  }

  lemma ConvertFour(spec: string, a: string, b: string, c: string, d: string)
    requires ' ' !in spec && '/' !in spec && !("[" <= spec) && Split(spec, ':') == [a, b, c, d]
    ensures ConvertForwardSpec(spec) == Around(Around(a, ':', b), ' ', Around(c, ':', d))
  {
    calc {
      ConvertForwardSpec(spec);
      Rewritten(Split(spec, ':'), spec);
      a + ":" + b + " " + c + ":" + d;
      { Assoc(a, ":", b); }
      Around(a, ':', b) + " " + c + ":" + d;
      { GlueTwo(Around(a, ':', b), c, d); }
      Around(Around(a, ':', b), ' ', Around(c, ':', d));
    }
  }

  // ---- the shapes of a specification ----

  /** port:host:hostport is recovered exactly when the listen port is not empty, or nothing is given. */
  lemma ThreePartsRecoveredIff(port: string, host: string, hostPort: string)
    requires Plain(port) && Plain(host) && Plain(hostPort)
    ensures ParseForward(ConvertForwardSpec(Around(port, ':', Around(host, ':', hostPort)))) ==
            Some(Forward("", port, host, hostPort))
            <==> port != "" || (host == "" && hostPort == "")
  {
    var target := Around(host, ':', hostPort);
    var spec := Around(port, ':', target);
    AroundClean(host, ':', hostPort);
    AroundClean(port, ':', target);
    SplitThree(port, host, hostPort);
    ConvertThree(spec, port, host, hostPort);
    PairEndpoint(host, hostPort);
    if port != "" {
      ParseTwo(port, target);
      PortEndpoint(port);
    } else {
      assert Around("", ' ', target) == " " + target && (" " + target)[1..] == target;
      assert Fields(" " + target) == Fields(target);
      ParseOne(target);
    }
  }

  /** bind:port:host:hostport is always recovered. */
  lemma FourPartsRecovered(bind: string, port: string, host: string, hostPort: string)
    requires Plain(bind) && Plain(port) && Plain(host) && Plain(hostPort)
    ensures ParseForward(ConvertForwardSpec(Around(bind, ':', Around(port, ':', Around(host, ':', hostPort))))) ==
            Some(Forward(bind, port, host, hostPort))
  {
    var target, listen := Around(host, ':', hostPort), Around(bind, ':', port);
    var rest := Around(port, ':', target);
    AroundClean(host, ':', hostPort);
    AroundClean(bind, ':', port);
    AroundClean(port, ':', target);
    AroundClean(bind, ':', rest);
    SplitThree(port, host, hostPort);
    SplitAt(bind, rest);
    ConvertFour(Around(bind, ':', rest), bind, port, host, hostPort);
    ParseTwo(listen, target);
    PairEndpoint(host, hostPort);
    PairEndpoint(bind, port);
  }

  lemma {:induction false} BracketColonAt(p: string, rest: string)
    requires ']' !in p
    ensures IndexOfBracketColon(p + ("]:" + rest)) == |p|
  {
    if p == "" {
      assert p + ("]:" + rest) == "]:" + rest;
    } else {
      assert (p + ("]:" + rest))[1..] == p[1..] + ("]:" + rest);
      BracketColonAt(p[1..], rest);
    }
  }

  lemma SplitNAt(p: string, rest: string, n: nat)
    requires ':' !in p && n >= 2
    ensures SplitN(Around(p, ':', rest), ':', n) == [p] + SplitN(rest, ':', n - 1)
  {
    var s := Around(p, ':', rest);
    IndexOfPrefix(p, [':'] + rest, ':');
    assert s[..|p|] == p && s[|p| + 1..] == rest;
  }

  lemma BoxedCut(bind: string, rest: string)
    requires ']' !in bind
    ensures var spec, end := Boxed(bind, rest), |bind| + 1;
            IndexOfBracketColon(spec) == end && end + 2 <= |spec|
            && spec[end + 2..] == rest && spec[..end + 1] == "[" + (bind + "]")
  {
    assert Boxed(bind, rest) == ("[" + bind) + ("]:" + rest);
    BracketColonAt("[" + bind, rest);
  }

  /** A bracketed bind address is cut off first; the rest is cut at its first two colons. */
  lemma ConvertBoxed(bind: string, port: string, first: string, last: string)
    requires Bracketable(bind) && Plain(port) && ':' !in first && Clean(first) && Clean(last)
    ensures ConvertForwardSpec(Boxed(bind, Around(port, ':', Around(first, ':', last)))) ==
            Around(Boxed(bind, port), ' ', Around(first, ':', last))
  {
    var rest := Around(port, ':', Around(first, ':', last));
    var spec := Boxed(bind, rest);
    AroundClean(first, ':', last);
    AroundClean(port, ':', Around(first, ':', last));
    BoxedClean(bind, rest);
    BoxedCut(bind, rest);
    SplitNAt(port, Around(first, ':', last), 3);
    SplitNAt(first, last, 2);
    BoxedText(bind, port, first, last);
  }

  lemma BoxedText(bind: string, port: string, first: string, last: string)
    ensures "[" + (bind + "]") + ":" + port + " " + first + ":" + last ==
            Around(Boxed(bind, port), ' ', Around(first, ':', last))
  {
    assert "[" + (bind + "]") + ":" + port == Boxed(bind, port);
  }

  /** [bind]:port:host:hostport is always recovered. */
  lemma BracketedBindRecovered(bind: string, port: string, host: string, hostPort: string)
    requires Bracketable(bind) && Plain(port) && Plain(host) && Plain(hostPort)
    ensures ParseForward(ConvertForwardSpec(Boxed(bind, Around(port, ':', Around(host, ':', hostPort))))) ==
            Some(Forward(bind, port, host, hostPort))
  {
    ConvertBoxed(bind, port, host, hostPort);
    BoxedClean(bind, port);
    AroundClean(host, ':', hostPort);
    ParseTwo(Boxed(bind, port), Around(host, ':', hostPort));
    BoxedEndpoint(bind, port);
    PairEndpoint(host, hostPort);
  }

  /** So is [bind]:port:[host]:hostport: the target is cut at its first colon, wherever that is, and
      glued together again. */
  lemma BracketedBindAndTargetRecovered(bind: string, port: string, host: string, hostPort: string)
    requires Bracketable(bind) && Plain(port) && Bracketable(host) && Plain(hostPort)
    ensures ParseForward(ConvertForwardSpec(Boxed(bind, Around(port, ':', Boxed(host, hostPort))))) ==
            Some(Forward(bind, port, host, hostPort))
  {
    var target := Boxed(host, hostPort);
    BoxedClean(host, hostPort);
    var first, last := CutAtColon(target, |host| + 2);
    ConvertBoxed(bind, port, first, last);
    BoxedClean(bind, port);
    ParseTwo(Boxed(bind, port), target);
    BoxedEndpoint(bind, port);
    BoxedEndpoint(host, hostPort);
  }

  lemma CutAtColon(s: string, i: nat) returns (first: string, last: string)
    requires i < |s| && s[i] == ':' && Clean(s)
    ensures s == Around(first, ':', last) && ':' !in first && Clean(first) && Clean(last)
  {
    var j := IndexOf(s, ':');
    IndexFound(s, i, ':');
    first, last := s[..j], s[j + 1..];
  }

  lemma {:induction false} IndexFound(s: string, i: nat, c: char)
    requires i < |s| && s[i] == c
    ensures IndexOf(s, c) <= i
  {
    if i > 0 && s[0] != c { IndexFound(s[1..], i - 1, c); }
  }

  lemma BoxedIsAround(host: string, hostPort: string)
    ensures Boxed(host, hostPort) == Around("[" + (host + "]"), ':', hostPort)
  {
    Assoc(host, "]", ":" + hostPort);
    Assoc("[", host + "]", ":" + hostPort);
    assert "]:" + hostPort == "]" + (":" + hostPort);
  }

  /** Without a bind address a bracketed target is recovered exactly when it has no colon and the listen
      port is not empty, or nothing is given: the colons of an IPv6 target are counted as separators. */
  lemma BracketedTargetAloneRecoveredIff(port: string, host: string, hostPort: string)
    requires Plain(port) && Bracketable(host) && Plain(hostPort)
    ensures ParseForward(ConvertForwardSpec(Around(port, ':', Boxed(host, hostPort)))) ==
            Some(Forward("", port, host, hostPort))
            <==> ':' !in host && (port != "" || (host == "" && hostPort == ""))
  {
    var target := Boxed(host, hostPort);
    BoxedClean(host, hostPort);
    AroundClean(port, ':', target);
    if ':' !in host {
      var boxed := "[" + (host + "]");
      BoxedIsAround(host, hostPort);
      SplitThree(port, boxed, hostPort);
      ConvertThree(Around(port, ':', target), port, boxed, hostPort);
      BoxedEndpoint(host, hostPort);
      if port != "" {
        ParseTwo(port, target);
        PortEndpoint(port);
      } else {
        BlankInFront(target);
        ParseOne(target);
      }
    } else {
      BracketedHostLost(port, host, hostPort);
    }
  }

  lemma BlankInFront(target: string)
    ensures Fields(Around("", ' ', target)) == Fields(target)
  {
    assert Around("", ' ', target) == " " + target && (" " + target)[1..] == target;
  }

  /** With a bind address that is not bracketed a bracketed target is recovered exactly when it has no
      colon. */
  lemma BracketedTargetWithBindRecoveredIff(bind: string, port: string, host: string, hostPort: string)
    requires Plain(bind) && Plain(port) && Bracketable(host) && Plain(hostPort)
    ensures ParseForward(ConvertForwardSpec(Around(bind, ':', Around(port, ':', Boxed(host, hostPort))))) ==
            Some(Forward(bind, port, host, hostPort))
            <==> ':' !in host
  {
    var target := Boxed(host, hostPort);
    BoxedClean(host, hostPort);
    if ':' !in host {
      BoxedBehindBind(bind, port, host, hostPort);
    } else {
      BoxedColons(host, hostPort);
      ManyParts(bind, port, target);
    }
  }

  lemma BoxedBehindBind(bind: string, port: string, host: string, hostPort: string)
    requires Plain(bind) && Plain(port) && Bracketable(host) && Plain(hostPort) && ':' !in host
    ensures ParseForward(ConvertForwardSpec(Around(bind, ':', Around(port, ':', Boxed(host, hostPort))))) ==
            Some(Forward(bind, port, host, hostPort))
  {
    var target, boxed := Boxed(host, hostPort), "[" + (host + "]");
    var rest := Around(port, ':', target);
    BoxedClean(host, hostPort);
    AroundClean(port, ':', target);
    AroundClean(bind, ':', rest);
    AroundClean(bind, ':', port);
    BoxedIsAround(host, hostPort);
    SplitThree(port, boxed, hostPort);
    SplitAt(bind, rest);
    ConvertFour(Around(bind, ':', rest), bind, port, boxed, hostPort);
    ParseTwo(Around(bind, ':', port), target);
    PairEndpoint(bind, port);
    BoxedEndpoint(host, hostPort);
  }

  lemma BoxedAround(head: string, tail: string, hostPort: string)
    ensures var behind := tail + ("]:" + hostPort);
            && Boxed(Around(head, ':', tail), hostPort) == Around("[" + head, ':', behind)
            && behind == Around(tail + "]", ':', hostPort)
  {
    var behind := tail + ("]:" + hostPort);
    assert "]:" + hostPort == "]" + (":" + hostPort);
    Assoc(tail, "]", ":" + hostPort);
    Assoc([':'], tail, "]:" + hostPort);
    Assoc(head, [':'] + tail, "]:" + hostPort);
    Assoc("[", head, [':'] + behind);
  }

  lemma BracketedHostLost(port: string, host: string, hostPort: string)
    requires Plain(port) && Bracketable(host) && Plain(hostPort) && ':' in host
    ensures ParseForward(ConvertForwardSpec(Around(port, ':', Boxed(host, hostPort)))) !=
            Some(Forward("", port, host, hostPort))
  {
    var i :| 0 <= i < |host| && host[i] == ':';
    var head, tail := CutAtColon(host, i);
    var before := "[" + head;
    assert Clean(before) && ':' !in before && before[0] == '[';
    BoxedAround(head, tail, hostPort);
    if ':' !in tail {
      FourthPart(port, before, tail + "]", hostPort);
    } else {
      ManyColons(tail, hostPort);
      ManyParts(port, before, tail + ("]:" + hostPort));
    }
  }

  /** With five parts or more a specification stays as it is and is read as one field. */
  lemma ManyParts(first: string, second: string, behind: string)
    requires Plain(first) && Clean(second) && ':' !in second && Clean(behind)
    requires Count(behind, ':') >= 2
    ensures var r := ParseForward(ConvertForwardSpec(Around(first, ':', Around(second, ':', behind))));
            r.Some? && r.value.host == ""
  {
    var spec := Around(first, ':', Around(second, ':', behind));
    AroundClean(second, ':', behind);
    AroundClean(first, ':', Around(second, ':', behind));
    SplitAt(first, Around(second, ':', behind));
    SplitAt(second, behind);
    SplitLength(behind, ':');
    assert spec[0] != '[';
    ParseOne(spec);
  }

  lemma FourthPart(port: string, before: string, after: string, hostPort: string)
    requires Plain(port) && Clean(before) && ':' !in before
    requires Clean(after) && ':' !in after && Plain(hostPort)
    ensures var spec := Around(port, ':', Around(before, ':', Around(after, ':', hostPort)));
            var r := ParseForward(ConvertForwardSpec(spec));
            r.Some? && r.value.bindAddress == port && r.value.bindPort == before
  {
    var target, listen := Around(after, ':', hostPort), Around(port, ':', before);
    AroundClean(after, ':', hostPort);
    AroundClean(before, ':', target);
    AroundClean(port, ':', Around(before, ':', target));
    SplitThree(before, after, hostPort);
    SplitAt(port, Around(before, ':', target));
    ConvertFour(Around(port, ':', Around(before, ':', target)), port, before, after, hostPort);
    AroundClean(port, ':', before);
    ParseTwo(listen, target);
    PairEndpoint(port, before);
  }

  lemma BoxedColons(host: string, hostPort: string)
    requires ':' in host
    ensures Count(Boxed(host, hostPort), ':') >= 2
  {
    ManyColons(host, hostPort);
    CountAppend("[", host + ("]:" + hostPort), ':');
  }

  lemma ManyColons(tail: string, hostPort: string)
    requires ':' in tail
    ensures Count(tail + ("]:" + hostPort), ':') >= 2
  {
    CountPositive(tail, ':');
    CountAppend(tail, "]:" + hostPort, ':');
    assert "]:" + hostPort == "]" + (":" + hostPort);
    assert (":" + hostPort)[1..] == hostPort;
    CountAppend("]", ":" + hostPort, ':');
  }

  lemma {:induction false} CountPositive(s: string, c: char)
    requires c in s
    ensures Count(s, c) >= 1
  {
    if s[0] != c { CountPositive(s[1..], c); }
  }

  // ---- the remaining shapes ----

  /** A specification with a slash or a blank goes to the second parser as it is. */
  lemma PathsStay(spec: string)
    requires '/' in spec || ' ' in spec
    ensures ConvertForwardSpec(spec) == spec
  {
  }

  /** Two socket paths are taken whole. */
  lemma SocketPathsRecovered(listen: string, target: string)
    requires listen != "" && target != "" && NoSpace(listen) && NoSpace(target) && '/' in listen && '/' in target
    ensures ParseForward(ConvertForwardSpec(Around(listen, ' ', target))) == Some(Forward("", listen, "", target))
  {
    assert Around(listen, ' ', target)[|listen|] == ' ';
    FieldsJoin([listen, target]);
    assert [listen, target][1..] == [target];
    assert Join([listen, target], ' ') == listen + [' '] + target == Around(listen, ' ', target);
  }

  /** A port alone, and bind:port, have no target. */
  lemma ListenOnlyRecovered(bind: string, port: string)
    requires Plain(bind) && Plain(port)
    ensures port != "" ==> ParseForward(ConvertForwardSpec(port)) == Some(Forward("", port, "", ""))
    ensures ParseForward(ConvertForwardSpec(Around(bind, ':', port))) == Some(Forward(bind, port, "", ""))
  {
    var spec := Around(bind, ':', port);
    AroundClean(bind, ':', port);
    SplitAt(bind, port);
    SplitPlain(port);
    ParseOne(spec);
    PairEndpoint(bind, port);
    if port != "" {
      ParseOne(port);
      PortEndpoint(port);
    }
  }

  /** [bind]:port without a target stays as well. */
  lemma BracketedListenRecovered(bind: string, port: string)
    requires Bracketable(bind) && Plain(port)
    ensures ParseForward(ConvertForwardSpec(Boxed(bind, port))) == Some(Forward(bind, port, "", ""))
  {
    BoxedClean(bind, port);
    BoxedCut(bind, port);
    IndexOfAbsent(port, ':');
    assert SplitN(port, ':', 3) == [port];
    ParseOne(Boxed(bind, port));
    BoxedEndpoint(bind, port);
  }
}
