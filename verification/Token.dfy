/** Expansion of %-tokens in option values. */
module Token {
  import opened Text

  datatype TokenContext = TokenContext(
    remoteHost: string, remotePort: string, remoteUser: string, localUser: string, homeDir: string,
    localHostFQDN: string, localHost: string, originalHost: string, localUserID: string,
    proxyJump: string, hostKeyAlias: string, connHash: string, serverKeyFingerprint: string,
    knownHostsHost: string, knownHostsReason: string, hostKeyBase64: string, hostKeyType: string,
    tunnelInterface: string)

  /** tokenReplacement. `connHash` stands for the result of the connection hash. */
  function Replacement(ctx: TokenContext, ch: char): Option<string> {
    match ch
    case '%' => Some("%")
    case 'C' => Some(ctx.connHash)
    case 'd' => Some(ctx.homeDir)
    case 'f' => Some(ctx.serverKeyFingerprint)
    case 'H' => Some(ctx.knownHostsHost)
    case 'h' => Some(ctx.remoteHost)
    case 'I' => Some(ctx.knownHostsReason)
    case 'i' => Some(ctx.localUserID)
    case 'j' => Some(ctx.proxyJump)
    case 'K' => Some(ctx.hostKeyBase64)
    case 'k' => Some(ctx.hostKeyAlias)
    case 'L' => Some(ctx.localHost)
    case 'l' => Some(ctx.localHostFQDN)
    case 'n' => Some(ctx.originalHost)
    case 'p' => Some(ctx.remotePort)
    case 'r' => Some(ctx.remoteUser)
    case 'T' => Some(ctx.tunnelInterface)
    case 't' => Some(ctx.hostKeyType)
    case 'u' => Some(ctx.localUser)
    case _ => None
  }

  /** What the front of a value expands to, and how many characters that takes. */
  function Front(value: string, ctx: TokenContext): (r: (string, nat))
    requires value != ""
    ensures 1 <= r.1 <= |value|
  {
    if value[0] != '%' || |value| == 1 || Replacement(ctx, value[1]).None? then ([value[0]], 1)
    else (Replacement(ctx, value[1]).value, 2)
  }

  function Expanded(value: string, ctx: TokenContext): string {
    if value == "" then "" else Front(value, ctx).0 + Expanded(value[Front(value, ctx).1..], ctx)
  }

  lemma {:induction false} NoPercentStays(value: string, ctx: TokenContext)
    requires '%' !in value
    ensures Expanded(value, ctx) == value
  {
    if value != "" {
      NoPercentStays(value[1..], ctx);
      assert [value[0]] + value[1..] == value;
    }
  }

  /** ExpandTokens; an absent context means no expansion. */
  method ExpandTokens(value: string, ctx: Option<TokenContext>) returns (r: string)
    ensures r == if ctx.Some? then Expanded(value, ctx.value) else value
  {
    if ctx.None? || '%' !in value {
      if ctx.Some? { NoPercentStays(value, ctx.value); }
      return value;
    }
    r := ExpandAll(value, ctx.value);
  }

  lemma ExpandStep(r: string, value: string, i: nat, ctx: TokenContext)
    requires i < |value|
    ensures var (text, used) := Front(value[i..], ctx);
            i + used <= |value| && r + Expanded(value[i..], ctx) == r + text + Expanded(value[i + used..], ctx)
  {
    var (text, used) := Front(value[i..], ctx);
    assert value[i..][used..] == value[i + used..];
    Assoc(r, text, Expanded(value[i + used..], ctx));
  }

  method ExpandAll(value: string, ctx: TokenContext) returns (r: string)
    ensures r == Expanded(value, ctx)
  {
    r := "";
    var i := 0;
    assert value[0..] == value;
    while i < |value|
      invariant 0 <= i <= |value|
      invariant Expanded(value, ctx) == r + Expanded(value[i..], ctx)
    {
      ExpandStep(r, value, i, ctx);
      var text, used := ExpandFront(value, i, ctx);
      r := r + text;
      i := i + used;
    }
    assert value[i..] == "" && r + "" == r;
  }

  /** The body of the loop of ExpandTokens: what is written, and how far the index moves. */
  method ExpandFront(value: string, i: nat, ctx: TokenContext) returns (text: string, used: nat)
    requires i < |value|
    ensures (text, used) == Front(value[i..], ctx)
  {
    assert value[i..][0] == value[i];
    if value[i] != '%' || i + 1 >= |value| { return [value[i]], 1; }
    assert value[i..][1] == value[i + 1];
    var replacement := Replacement(ctx, value[i + 1]);
    if replacement.Some? { return replacement.value, 2; }
    return [value[i]], 1;
  }

  /** Every percent sign written twice. */
  function Doubled(value: string): string {
    if value == "" then ""
    else (if value[0] == '%' then "%%" else [value[0]]) + Doubled(value[1..])
  }

  /** Doubling is undone in every context. */
  lemma {:induction false} DoublingIsUndone(value: string, ctx: TokenContext)
    ensures Expanded(Doubled(value), ctx) == value
  {
    if value != "" {
      var rest := Doubled(value[1..]);
      DoublingIsUndone(value[1..], ctx);
      if value[0] == '%' {
        assert ("%%" + rest)[1] == '%' && ("%%" + rest)[2..] == rest;
      } else {
        assert ([value[0]] + rest)[1..] == rest;
      }
      assert [value[0]] + value[1..] == value;
    }
  }

  // ---- one pass over the value ----

  datatype Piece = Plain(c: char) | Token(c: char)

  predicate IsToken(c: char) {
    c in {'%', 'C', 'd', 'f', 'H', 'h', 'I', 'i', 'j', 'K', 'k', 'L', 'l', 'n', 'p', 'r', 'T', 't', 'u'}
  }

  /** The value cut into plain characters and tokens, without looking at any replacement. */
  function Pieces(value: string): seq<Piece> {
    if value == "" then []
    else if value[0] != '%' || |value| == 1 || !IsToken(value[1]) then [Plain(value[0])] + Pieces(value[1..])
    else [Token(value[1])] + Pieces(value[2..])
  }

  function Fill(pieces: seq<Piece>, ctx: TokenContext): string {
    if pieces == [] then ""
    else (match pieces[0]
          case Plain(c) => [c]
          case Token(c) => Replacement(ctx, c).GetOr("")) + Fill(pieces[1..], ctx)
  }

  lemma TokensAreKnown(ctx: TokenContext, c: char)
    ensures Replacement(ctx, c).Some? <==> IsToken(c)
  {
  }

  /** Replacement text is never scanned again: the value alone decides the pieces, and expansion fills
      each token in once. */
  lemma {:induction false} ExpansionIsOnePass(value: string, ctx: TokenContext)
    ensures Expanded(value, ctx) == Fill(Pieces(value), ctx)
  {
    if value != "" {
      if |value| > 1 { TokensAreKnown(ctx, value[1]); }
      if value[0] != '%' || |value| == 1 || !IsToken(value[1]) {
        ExpansionIsOnePass(value[1..], ctx);
      } else {
        ExpansionIsOnePass(value[2..], ctx);
      }
    }
  }

  /** The scan of the value ends on a percent sign that is not part of a token. */
  predicate EndsLone(value: string) {
    if value == "" then false
    else if value == "%" then true
    else if value[0] == '%' && IsToken(value[1]) then EndsLone(value[2..])
    else EndsLone(value[1..])
  }

  lemma {:induction false} PiecesOfConcat(a: string, b: string)
    requires !EndsLone(a) || b == "" || !IsToken(b[0])
    ensures Pieces(a + b) == Pieces(a) + Pieces(b)
    decreases |a|
  {
    if a == "" {
      assert a + b == b;
    } else if a == "%" {
      assert (a + b)[1..] == b;
      if b != "" { assert (a + b)[1] == b[0]; }
    } else {
      assert (a + b)[0] == a[0] && (|a| > 1 ==> (a + b)[1] == a[1]);
      if a[0] == '%' && IsToken(a[1]) {
        assert (a + b)[2..] == a[2..] + b;
        PiecesOfConcat(a[2..], b);
        Assoc([Token(a[1])], Pieces(a[2..]), Pieces(b));
      } else {
        assert (a + b)[1..] == a[1..] + b;
        PiecesOfConcat(a[1..], b);
        Assoc([Plain(a[0])], Pieces(a[1..]), Pieces(b));
      }
    }
  }

  /** Without its last percent sign such a value does not end on another one. */
  lemma {:induction false} FrontEndsClean(a: string)
    requires EndsLone(a)
    ensures a[|a| - 1] == '%' && !EndsLone(a[..|a| - 1])
  {
    if a != "%" {
      var k := if a[0] == '%' && IsToken(a[1]) then 2 else 1;
      FrontEndsClean(a[k..]);
      assert a[..|a| - 1][k..] == a[k..][..|a| - 1 - k];
    }
  }

  lemma LoneCut(a: string, b: string)
    requires EndsLone(a)
    ensures Pieces(a) == Pieces(a[..|a| - 1]) + [Plain('%')]
    ensures Pieces(a + b) == Pieces(a[..|a| - 1]) + Pieces("%" + b)
  {
    FrontEndsClean(a);
    var front := a[..|a| - 1];
    assert a == front + "%" && a + b == front + ("%" + b);
    PiecesOfConcat(front, "%");
    PiecesOfConcat(front, "%" + b);
  }

  lemma {:induction false} FillAppend(a: seq<Piece>, b: seq<Piece>, ctx: TokenContext)
    ensures Fill(a + b, ctx) == Fill(a, ctx) + Fill(b, ctx)
  {
    if a == [] {
      assert a + b == b;
    } else {
      assert (a + b)[0] == a[0] && (a + b)[1..] == a[1..] + b;
      FillAppend(a[1..], b, ctx);
      var own := match a[0] case Plain(c) => [c] case Token(c) => Replacement(ctx, c).GetOr("");
      Assoc(own, Fill(a[1..], ctx), Fill(b, ctx));
    }
  }

  /** A concatenation is cut where its parts are cut, exactly unless a lone percent sign at the end of
      the first part meets a token letter. */
  lemma CutsAtConcatIff(a: string, b: string)
    ensures Pieces(a + b) == Pieces(a) + Pieces(b) <==> !EndsLone(a) || b == "" || !IsToken(b[0])
  {
    if !EndsLone(a) || b == "" || !IsToken(b[0]) {
      PiecesOfConcat(a, b);
    } else {
      LoneCut(a, b);
      var n := |Pieces(a[..|a| - 1])|;
      assert Pieces("%" + b)[0] == Token(b[0]);
      assert Pieces(a + b)[n] == Token(b[0]) && (Pieces(a) + Pieces(b))[n] == Plain('%');
    }
  }

  // ---- when expansion distributes ----

  lemma ExpandedConcat(a: string, b: string, ctx: TokenContext)
    requires Pieces(a + b) == Pieces(a) + Pieces(b)
    ensures Expanded(a + b, ctx) == Expanded(a, ctx) + Expanded(b, ctx)
  {
    ExpansionIsOnePass(a, ctx);
    ExpansionIsOnePass(b, ctx);
    ExpansionIsOnePass(a + b, ctx);
    FillAppend(Pieces(a), Pieces(b), ctx);
  }

  /** The number of percent signs in front. */
  function Percents(b: string): (n: nat)
    ensures n <= |b|
  {
    if b == "" || b[0] != '%' then 0 else 1 + Percents(b[1..])
  }

  /** A percent sign before `b` changes what `b` itself expands to. */
  predicate Captured(b: string) {
    var n := Percents(b);
    n % 2 == 1 || (n < |b| && IsToken(b[n]))
  }

  const BLANK := TokenContext("", "", "", "", "", "", "", "", "", "", "", "", "", "", "", "", "", "")

  lemma BlankReplacement(c: char)
    requires c != '%' && IsToken(c)
    ensures Replacement(BLANK, c) == Some("")
  {
  }

  lemma ExpandedPlain(c: char, rest: string, ctx: TokenContext)
    requires c != '%' || rest == "" || !IsToken(rest[0])
    ensures Expanded([c] + rest, ctx) == [c] + Expanded(rest, ctx)
  {
    if rest != "" { TokensAreKnown(ctx, rest[0]); }
    assert ([c] + rest)[1..] == rest;
  }

  lemma ExpandedToken(c: char, rest: string, ctx: TokenContext)
    requires IsToken(c)
    ensures Expanded("%" + ([c] + rest), ctx) == Replacement(ctx, c).GetOr("") + Expanded(rest, ctx)
  {
    var value := "%" + ([c] + rest);
    TokensAreKnown(ctx, c);
    TwoInFront(c, rest);
    assert Front(value, ctx) == (Replacement(ctx, c).value, 2);
  }

  lemma TwoInFront(c: char, rest: string)
    ensures var value := "%" + ([c] + rest);
            |value| > 1 && value[0] == '%' && value[1] == c && value[2..] == rest
  {
  }

  ghost predicate StaysApart(b: string) {
    forall ctx :: Expanded("%" + b, ctx) == "%" + Expanded(b, ctx)
  }

  lemma {:induction false} CapturedIff(b: string)
    ensures StaysApart(b) <==> !Captured(b)
  {
    if b == "" || (b[0] != '%' && !IsToken(b[0])) {
      forall ctx ensures Expanded("%" + b, ctx) == "%" + Expanded(b, ctx) {
        ExpandedPlain('%', b, ctx);
      }
    } else if b[0] != '%' {
      TokenIsCaptured(b);
    } else if |b| > 1 && b[1] == '%' {
      CapturedIff(b[2..]);
      PairMoves(b);
    } else {
      OnePercentIsCaptured(b[1..]);
      assert b == "%" + b[1..];
      assert Percents(b[1..]) == 0;
    }
  }

  lemma TokenIsCaptured(b: string)
    requires b != "" && b[0] != '%' && IsToken(b[0])
    ensures !StaysApart(b)
  {
    var rest := b[1..];
    assert b == [b[0]] + rest;
    ExpandedToken(b[0], rest, BLANK);
    ExpandedPlain(b[0], rest, BLANK);
    BlankReplacement(b[0]);
    assert |Expanded("%" + b, BLANK)| != |"%" + Expanded(b, BLANK)|;
  }

  lemma OnePercentIsCaptured(rest: string)
    requires rest == "" || rest[0] != '%'
    ensures !StaysApart("%" + rest)
  {
    ExpandedToken('%', rest, BLANK);
    assert Replacement(BLANK, '%') == Some("%");
    if rest != "" && IsToken(rest[0]) {
      var behind := rest[1..];
      assert rest == [rest[0]] + behind;
      ExpandedToken(rest[0], behind, BLANK);
      ExpandedPlain(rest[0], behind, BLANK);
      BlankReplacement(rest[0]);
    } else {
      ExpandedPlain('%', rest, BLANK);
    }
    assert |Expanded("%" + ("%" + rest), BLANK)| != |"%" + Expanded("%" + rest, BLANK)|;
  }

  lemma PairMoves(b: string)
    requires |b| > 1 && b[0] == b[1] == '%'
    ensures StaysApart(b) <==> StaysApart(b[2..])
    ensures Captured(b) <==> Captured(b[2..])
  {
    var rest := b[2..];
    assert b[1..][1..] == rest;
    assert Percents(b) == 2 + Percents(rest);
    assert b == "%" + (['%'] + rest) && "%" + b == "%" + (['%'] + ("%" + rest));
    if StaysApart(rest) {
      forall ctx ensures Expanded("%" + b, ctx) == "%" + Expanded(b, ctx) {
        PairExpands(b, rest, ctx);
      }
    } else {
      var ctx :| Expanded("%" + rest, ctx) != "%" + Expanded(rest, ctx);
      PairExpands(b, rest, ctx);
    }
  }

  lemma PairExpands(b: string, rest: string, ctx: TokenContext)
    requires b == "%" + (['%'] + rest) && "%" + b == "%" + (['%'] + ("%" + rest))
    ensures Expanded("%" + b, ctx) == "%" + Expanded(b, ctx) <==>
            Expanded("%" + rest, ctx) == "%" + Expanded(rest, ctx)
  {
    ExpandedToken('%', rest, ctx);
    ExpandedToken('%', "%" + rest, ctx);
    OneInFront(Expanded("%" + rest, ctx), "%" + Expanded(rest, ctx));
  }

  lemma OneInFront(x: string, y: string)
    ensures "%" + x == "%" + y <==> x == y
  {
    assert ("%" + x)[1..] == x && ("%" + y)[1..] == y;
  }

  /** Expansion distributes over a concatenation in every context exactly unless the first part ends on
      a lone percent sign and the second starts with an odd number of them, or with a token letter
      behind an even number. */
  lemma ExpansionDistributesIff(a: string, b: string)
    ensures (forall ctx :: Expanded(a + b, ctx) == Expanded(a, ctx) + Expanded(b, ctx))
            <==> !EndsLone(a) || !Captured(b)
  {
    if !EndsLone(a) {
      PiecesOfConcat(a, b);
      forall ctx ensures Expanded(a + b, ctx) == Expanded(a, ctx) + Expanded(b, ctx) {
        ExpandedConcat(a, b, ctx);
      }
    } else {
      CapturedIff(b);
      if Captured(b) {
        var ctx :| Expanded("%" + b, ctx) != "%" + Expanded(b, ctx);
        LoneExpansion(a, b, ctx);
      } else {
        forall ctx ensures Expanded(a + b, ctx) == Expanded(a, ctx) + Expanded(b, ctx) {
          LoneExpansion(a, b, ctx);
        }
      }
    }
  }

  lemma CleanFrontExpands(front: string, rest: string, ctx: TokenContext)
    requires !EndsLone(front)
    ensures Expanded(front + rest, ctx) == Expanded(front, ctx) + Expanded(rest, ctx)
  {
    PiecesOfConcat(front, rest);
    ExpandedConcat(front, rest, ctx);
  }

  lemma PercentAlone(ctx: TokenContext)
    ensures Expanded("%", ctx) == "%"
  {
    ExpandedPlain('%', "", ctx);
    assert ['%'] + "" == "%";
  }

  lemma LoneExpansion(a: string, b: string, ctx: TokenContext)
    requires EndsLone(a)
    ensures Expanded(a + b, ctx) == Expanded(a, ctx) + Expanded(b, ctx) <==>
            Expanded("%" + b, ctx) == "%" + Expanded(b, ctx)
  {
    FrontEndsClean(a);
    var front := a[..|a| - 1];
    LastPercent(a, b, front);
    CleanFrontExpands(front, "%", ctx);
    CleanFrontExpands(front, "%" + b, ctx);
    PercentAlone(ctx);
    SameFront(Expanded(front, ctx), Expanded("%" + b, ctx), "%", Expanded(b, ctx));
  }

  lemma LastPercent(a: string, b: string, front: string)
    requires a != "" && a[|a| - 1] == '%' && front == a[..|a| - 1]
    ensures a == front + "%" && a + b == front + ("%" + b)
  {
  }

  lemma SameFront(x: string, y: string, u: string, v: string)
    ensures x + y == x + u + v <==> y == u + v
  {
    Assoc(x, u, v);
    if x + y == x + (u + v) {
      assert y == (x + y)[|x|..] && u + v == (x + (u + v))[|x|..];
    }
  }

  // ---- the letters ----

  /** What a percent sign and a letter come out as. */
  function Spelled(c: char, ctx: TokenContext): string {
    Expanded("%" + [c], ctx)
  }

  lemma LetterExpands(c: char, ctx: TokenContext)
    requires IsToken(c)
    ensures Spelled(c, ctx) == Replacement(ctx, c).GetOr("")
  {
    var none: string := "";
    ExpandedToken(c, none, ctx);
    assert "%" + ([c] + none) == "%" + [c];
    assert Replacement(ctx, c).GetOr("") + none == Replacement(ctx, c).GetOr("");
  }

  lemma ConnectionLetters(ctx: TokenContext)
    ensures Spelled('h', ctx) == ctx.remoteHost && Spelled('n', ctx) == ctx.originalHost
    ensures Spelled('p', ctx) == ctx.remotePort && Spelled('r', ctx) == ctx.remoteUser
    ensures Spelled('j', ctx) == ctx.proxyJump && Spelled('C', ctx) == ctx.connHash
    ensures Spelled('T', ctx) == ctx.tunnelInterface && Spelled('%', ctx) == "%"
  {
    forall c | c in {'h', 'n', 'p', 'r', 'j', 'C', 'T', '%'} ensures Spelled(c, ctx) == Replacement(ctx, c).GetOr("") {
      LetterExpands(c, ctx);
    }
  }

  lemma LocalLetters(ctx: TokenContext)
    ensures Spelled('d', ctx) == ctx.homeDir && Spelled('u', ctx) == ctx.localUser
    ensures Spelled('i', ctx) == ctx.localUserID
    ensures Spelled('L', ctx) == ctx.localHost && Spelled('l', ctx) == ctx.localHostFQDN
  {
    forall c | c in {'d', 'u', 'i', 'L', 'l'} ensures Spelled(c, ctx) == Replacement(ctx, c).GetOr("") {
      LetterExpands(c, ctx);
    }
  }

  lemma KeyLetters(ctx: TokenContext)
    ensures Spelled('f', ctx) == ctx.serverKeyFingerprint && Spelled('H', ctx) == ctx.knownHostsHost
    ensures Spelled('I', ctx) == ctx.knownHostsReason && Spelled('K', ctx) == ctx.hostKeyBase64
    ensures Spelled('t', ctx) == ctx.hostKeyType && Spelled('k', ctx) == ctx.hostKeyAlias
  {
    forall c | c in {'f', 'H', 'I', 'K', 't', 'k'} ensures Spelled(c, ctx) == Replacement(ctx, c).GetOr("") {
      LetterExpands(c, ctx);
    }
  }

  /** What every token stands for. */
  lemma LettersMean(ctx: TokenContext)
    ensures Spelled('h', ctx) == ctx.remoteHost && Spelled('n', ctx) == ctx.originalHost
    ensures Spelled('p', ctx) == ctx.remotePort && Spelled('r', ctx) == ctx.remoteUser
    ensures Spelled('j', ctx) == ctx.proxyJump && Spelled('C', ctx) == ctx.connHash
    ensures Spelled('T', ctx) == ctx.tunnelInterface && Spelled('%', ctx) == "%"
    ensures Spelled('d', ctx) == ctx.homeDir && Spelled('u', ctx) == ctx.localUser
    ensures Spelled('i', ctx) == ctx.localUserID
    ensures Spelled('L', ctx) == ctx.localHost && Spelled('l', ctx) == ctx.localHostFQDN
    ensures Spelled('f', ctx) == ctx.serverKeyFingerprint && Spelled('H', ctx) == ctx.knownHostsHost
    ensures Spelled('I', ctx) == ctx.knownHostsReason && Spelled('K', ctx) == ctx.hostKeyBase64
    ensures Spelled('t', ctx) == ctx.hostKeyType && Spelled('k', ctx) == ctx.hostKeyAlias
  {
    ConnectionLetters(ctx);
    LocalLetters(ctx);
    KeyLetters(ctx);
  }

  /** Any other letter stays, with its percent sign. */
  lemma OtherLettersStay(c: char, ctx: TokenContext)
    requires c !in "%CdfHhIijKkLlnprTtu"
    ensures Spelled(c, ctx) == "%" + [c]
  {
    LetterList(c);
    var none: string := "";
    assert [c] + none == [c];
    ExpandedPlain('%', [c], ctx);
    ExpandedPlain(c, none, ctx);
  }

  lemma LetterList(c: char)
    requires c !in "%CdfHhIijKkLlnprTtu"
    ensures !IsToken(c)
  {
    var letters := "%CdfHhIijKkLlnprTtu";
    assert letters[0] == '%' && letters[1] == 'C' && letters[2] == 'd' && letters[3] == 'f' && letters[4] == 'H';
    assert letters[5] == 'h' && letters[6] == 'I' && letters[7] == 'i' && letters[8] == 'j' && letters[9] == 'K';
    assert letters[10] == 'k' && letters[11] == 'L' && letters[12] == 'l' && letters[13] == 'n' && letters[14] == 'p';
    assert letters[15] == 'r' && letters[16] == 'T' && letters[17] == 't' && letters[18] == 'u';
  }

  // ---- the remote host in a value ----

  /** How often the remote host is filled in. */
  function HostTokens(ps: seq<Piece>): nat {
    if ps == [] then 0 else (if ps[0] == Token('h') then 1 else 0) + HostTokens(ps[1..])
  }

  function WithHost(ctx: TokenContext, host: string): TokenContext {
    ctx.(remoteHost := host)
  }

  lemma FillStep(p: Piece, ps: seq<Piece>, ctx: TokenContext)
    ensures Fill([p] + ps, ctx) == Fill([p], ctx) + Fill(ps, ctx)
  {
    FillAppend([p], ps, ctx);
  }

  lemma FillOne(p: Piece, ctx: TokenContext, x: string, y: string)
    ensures p == Token('h') ==> Fill([p], WithHost(ctx, x)) == x
    ensures p != Token('h') ==> Fill([p], WithHost(ctx, x)) == Fill([p], WithHost(ctx, y))
  {
    assert [p][1..] == [];
  }

  lemma {:induction false} HostTokensIff(ps: seq<Piece>)
    ensures HostTokens(ps) == 0 <==> Token('h') !in ps
  {
    if ps != [] {
      HostTokensIff(ps[1..]);
      assert ps == [ps[0]] + ps[1..];
    }
  }

  /** The lengths differ by what the host differs, once for each token. */
  lemma {:induction false} FillLengths(ps: seq<Piece>, ctx: TokenContext, x: string, y: string)
    ensures |Fill(ps, WithHost(ctx, x))| - |Fill(ps, WithHost(ctx, y))| == HostTokens(ps) * (|x| - |y|)
  {
    if ps != [] {
      var p, rest := ps[0], ps[1..];
      assert ps == [p] + rest;
      FillLengths(rest, ctx, x, y);
      FillStep(p, rest, WithHost(ctx, x));
      FillStep(p, rest, WithHost(ctx, y));
      FillOne(p, ctx, x, y);
      FillOne(p, ctx, y, x);
      OneMore(HostTokens(rest), |x| - |y|);
    }
  }

  lemma OneMore(n: nat, d: int)
    ensures (1 + n) * d == d + n * d
  {
  }

  lemma NonZero(n: nat, d: int)
    requires n > 0 && d != 0
    ensures n * d != 0
  {
  }

  lemma SameStart(u: string, v: string, a: string, b: string)
    requires |u| == |v| && u + a == v + b
    ensures u == v && a == b
  {
    assert (u + a)[..|u|] == u && (v + b)[..|v|] == v;
    assert (u + a)[|u|..] == a && (v + b)[|v|..] == b;
  }

  /** With a token for it, two different hosts never give the same text. */
  lemma {:induction false} FillTellsHosts(ps: seq<Piece>, ctx: TokenContext, x: string, y: string)
    requires Token('h') in ps && Fill(ps, WithHost(ctx, x)) == Fill(ps, WithHost(ctx, y))
    ensures x == y
    decreases |ps|
  {
    FillLengths(ps, ctx, x, y);
    HostTokensIff(ps);
    if |x| != |y| { NonZero(HostTokens(ps), |x| - |y|); }
    var p, rest := ps[0], ps[1..];
    assert ps == [p] + rest;
    FillStep(p, rest, WithHost(ctx, x));
    FillStep(p, rest, WithHost(ctx, y));
    FillOne(p, ctx, x, y);
    FillOne(p, ctx, y, x);
    SameStart(Fill([p], WithHost(ctx, x)), Fill([p], WithHost(ctx, y)),
              Fill(rest, WithHost(ctx, x)), Fill(rest, WithHost(ctx, y)));
    if p != Token('h') {
      FillTellsHosts(rest, ctx, x, y);
    }
  }

  lemma {:induction false} FillWithoutHost(ps: seq<Piece>, ctx: TokenContext, x: string, y: string)
    requires Token('h') !in ps
    ensures Fill(ps, WithHost(ctx, x)) == Fill(ps, WithHost(ctx, y))
  {
    if ps != [] {
      var p, rest := ps[0], ps[1..];
      assert ps == [p] + rest;
      FillStep(p, rest, WithHost(ctx, x));
      FillStep(p, rest, WithHost(ctx, y));
      FillOne(p, ctx, x, y);
      FillWithoutHost(rest, ctx, x, y);
    }
  }

  /** Two hosts give a value the same expansion exactly when they are equal or the value has no %h. */
  lemma HostMattersIff(value: string, ctx: TokenContext, x: string, y: string)
    ensures Expanded(value, ctx.(remoteHost := x)) == Expanded(value, ctx.(remoteHost := y))
            <==> x == y || Token('h') !in Pieces(value)
  {
    ExpansionIsOnePass(value, WithHost(ctx, x));
    ExpansionIsOnePass(value, WithHost(ctx, y));
    if Token('h') !in Pieces(value) {
      FillWithoutHost(Pieces(value), ctx, x, y);
    } else if Expanded(value, WithHost(ctx, x)) == Expanded(value, WithHost(ctx, y)) {
      FillTellsHosts(Pieces(value), ctx, x, y);
    }
  }
}
