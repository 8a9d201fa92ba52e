/** Tokens and tildes in the resolved options. */
module PathExpansion {
  import opened Text
  import opened Options
  import Token

  /** SplitFields: blank-separated words, the one being read in `current`. */
  function BlankFields(s: string, current: string): seq<string> {
    if s == "" then Emit(current)
    else if IsBlank(s[0]) then Emit(current) + BlankFields(s[1..], "")
    else BlankFields(s[1..], current + [s[0]])
  }

  method SplitFields(s: string) returns (fields: seq<string>)
    ensures fields == BlankFields(s, "")
  {
    fields := [];
    var current := "";
    for i := 0 to |s|
      invariant BlankFields(s, "") == fields + BlankFields(s[i..], current)
    {
      assert s[i..][0] == s[i] && s[i..][1..] == s[i + 1..];
      if s[i] == ' ' || s[i] == '\t' {
        Assoc(fields, Emit(current), BlankFields(s[i + 1..], ""));
        if |current| > 0 {
          fields := fields + [current];
          current := "";
        }
      } else {
        current := current + [s[i]];
      }
    }
    if |current| > 0 {
      fields := fields + [current];
    }
  }

  function MapTilde(tilde: string -> string, words: seq<string>): (r: seq<string>)
    ensures |r| == |words|
  {
    seq(|words|, i requires 0 <= i < |words| => tilde(words[i]))
  }

  function PathList(tilde: string -> string, paths: string): string {
    Join(MapTilde(tilde, BlankFields(paths, "")), ' ')
  }

  lemma {:induction false} JoinLast(words: seq<string>, w: string)
    requires words != []
    ensures Join(words + [w], ' ') == Join(words, ' ') + " " + w
  {
    assert (words + [w])[0] == words[0] && (words + [w])[1..] == words[1..] + [w];
    if |words| > 1 {
      JoinLast(words[1..], w);
      var front := words[0] + [' '];
      Assoc(front, Join(words[1..], ' ') + " ", w);
      Assoc(front, Join(words[1..], ' '), " ");
    }
  }

  /** expandPathList: the fields in place, and then joined again. */
  method ExpandPathList(tilde: string -> string, paths: string) returns (r: string)
    ensures r == PathList(tilde, paths)
  {
    var fields := SplitFields(paths);
    ghost var was := fields;
    for i := 0 to |fields|
      invariant |fields| == |was|
      invariant forall k :: 0 <= k < i ==> fields[k] == tilde(was[k])
      invariant forall k :: i <= k < |fields| ==> fields[k] == was[k]
    {
      fields := fields[i := tilde(fields[i])];
    }
    assert fields == MapTilde(tilde, was);
    r := "";
    for i := 0 to |fields|
      invariant r == Join(fields[..i], ' ')
    {
      assert fields[..i + 1] == fields[..i] + [fields[i]];
      if i > 0 {
        JoinLast(fields[..i], fields[i]);
        r := r + " ";
      }
      r := r + fields[i];
    }
    assert fields[..|fields|] == fields;
  }

  // ---- what expansion does to each field ----

  predicate IsPath(f: Field) {
    f in {ControlPath, IdentityAgent, KnownHostsCommand, LocalCommand, RemoteCommand, RevokedHostKeys}
  }

  /** What a field's text becomes. */
  function ExpandedText(f: Field, s: string, ctx: Token.TokenContext, tilde: string -> string): string {
    if IsPath(f) then if s == "" || s == "none" then s else tilde(Token.Expanded(s, ctx))
    else if f == UserKnownHostsFile || f == GlobalKnownHostsFile then PathList(tilde, Token.Expanded(s, ctx))
    else if f == ProxyCommand || f == ProxyJump then if s == "none" then s else Token.Expanded(s, ctx)
    else if f == Hostname then Token.Expanded(s, ctx)
    else s
  }

  function ExpandedValue(f: Field, v: Value, ctx: Token.TokenContext, tilde: string -> string): Value {
    if v.Str? then Str(ExpandedText(f, v.s, ctx, tilde)) else v
  }

  function ExpandedItem(item: Item, ctx: Token.TokenContext, tilde: string -> string): Item {
    if item.Text? then Text(tilde(Token.Expanded(item.s, ctx))) else item
  }

  function ExpandedItems(items: seq<Item>, ctx: Token.TokenContext, tilde: string -> string): (r: seq<Item>)
    ensures |r| == |items|
  {
    seq(|items|, i requires 0 <= i < |items| => ExpandedItem(items[i], ctx, tilde))
  }

  function ExpandedList(l: ListField, items: seq<Item>, ctx: Token.TokenContext, tilde: string -> string): seq<Item> {
    if l == IdentityFile || l == CertificateFile then ExpandedItems(items, ctx, tilde) else items
  }

  /** The order in which the fields are expanded; the others come last and are left alone. */
  function Rank(f: Field): nat {
    match f
    case ControlPath => 0
    case IdentityAgent => 1
    case KnownHostsCommand => 2
    case LocalCommand => 3
    case RemoteCommand => 4
    case RevokedHostKeys => 5
    case UserKnownHostsFile => 6
    case GlobalKnownHostsFile => 7
    case ProxyCommand => 8
    case ProxyJump => 9
    case Hostname => 10
    case _ => 11
  }

  lemma RankInjective(f: Field, g: Field)
    requires Rank(f) == Rank(g) < 11
    ensures f == g
  {
  }

  /** The first `n` fields expanded. */
  function Scalars(m: map<Field, Value>, n: nat, ctx: Token.TokenContext, tilde: string -> string): map<Field, Value> {
    map f | f in m :: if Rank(f) < n then ExpandedValue(f, m[f], ctx, tilde) else m[f]
  }

  /** expandPathTokens */
  function ExpandPaths(s: State, ctx: Token.TokenContext, tilde: string -> string): State {
    State(Scalars(s.scalars, 11, ctx, tilde),
          map l | l in s.lists :: ExpandedList(l, s.lists[l], ctx, tilde), s.ignored)
  }

  /** What expansion leaves in one field. */
  lemma ExpandedScalar(s: State, ctx: Token.TokenContext, tilde: string -> string, f: Field)
    ensures ExpandPaths(s, ctx, tilde).Scalar(f) ==
            match s.Scalar(f) case Some(v) => Some(ExpandedValue(f, v, ctx, tilde)) case None => None
  {
    if Rank(f) == 11 { Untouched(f, ctx, tilde); }
  }

  /** Nothing outside the fixed list of fields changes. */
  lemma Untouched(f: Field, ctx: Token.TokenContext, tilde: string -> string)
    requires Rank(f) == 11
    ensures forall v :: ExpandedValue(f, v, ctx, tilde) == v
  {
  }

  lemma ScalarsStep(m: map<Field, Value>, f: Field, ctx: Token.TokenContext, tilde: string -> string)
    requires Rank(f) < 11
    ensures Scalars(m, Rank(f) + 1, ctx, tilde) ==
            if f in m then Scalars(m, Rank(f), ctx, tilde)[f := ExpandedValue(f, m[f], ctx, tilde)]
            else Scalars(m, Rank(f), ctx, tilde)
  {
    forall g | g in m && Rank(g) == Rank(f) ensures g == f {
      RankInjective(f, g);
    }
  }

  // ---- the program's steps ----

  /** The text of one field, by the step that treats it. */
  method ExpandText(f: Field, text: string, ctx: Token.TokenContext, tilde: string -> string) returns (s: string)
    requires Rank(f) < 11
    ensures s == ExpandedText(f, text, ctx, tilde)
  {
    s := text;
    if IsPath(f) {
      if s != "" && s != "none" {
        s := Token.ExpandTokens(s, Some(ctx));
        s := tilde(s);
      }
    } else if f == UserKnownHostsFile || f == GlobalKnownHostsFile {
      s := Token.ExpandTokens(s, Some(ctx));
      s := ExpandPathList(tilde, s);
    } else if f == Hostname || s != "none" {
      s := Token.ExpandTokens(s, Some(ctx));
    }
  }

  /** One field in place. */
  method ExpandField(opts: OptionSet, f: Field, ctx: Token.TokenContext, tilde: string -> string,
                     ghost was: map<Field, Value>)
    requires Rank(f) < 11 && opts.scalars == Scalars(was, Rank(f), ctx, tilde)
    modifies opts`scalars
    ensures opts.scalars == Scalars(was, Rank(f) + 1, ctx, tilde)
  {
    ScalarsStep(was, f, ctx, tilde);
    if f in opts.scalars && opts.scalars[f].Str? {
      var s := ExpandText(f, opts.scalars[f].s, ctx, tilde);
      opts.scalars := opts.scalars[f := Str(s)];
    }
  }

  /** expandStrSlice */
  method ExpandItems(items: seq<Item>, ctx: Token.TokenContext, tilde: string -> string) returns (r: seq<Item>)
    ensures r == ExpandedItems(items, ctx, tilde)
  {
    r := items;
    for i := 0 to |items|
      invariant |r| == |items|
      invariant forall k :: 0 <= k < i ==> r[k] == ExpandedItem(items[k], ctx, tilde)
      invariant forall k :: i <= k < |r| ==> r[k] == items[k]
    {
      if r[i].Text? {
        var s := Token.ExpandTokens(r[i].s, Some(ctx));
        r := r[i := Text(tilde(s))];
      }
    }
  }

  /** The paths that may be empty or "none". */
  method ExpandPathFields(opts: OptionSet, ctx: Token.TokenContext, tilde: string -> string,
                          ghost was: map<Field, Value>)
    requires opts.scalars == Scalars(was, 0, ctx, tilde)
    modifies opts`scalars
    ensures opts.scalars == Scalars(was, 6, ctx, tilde)
  {
    ExpandField(opts, ControlPath, ctx, tilde, was);
    ExpandField(opts, IdentityAgent, ctx, tilde, was);
    ExpandField(opts, KnownHostsCommand, ctx, tilde, was);
    ExpandField(opts, LocalCommand, ctx, tilde, was);
    ExpandField(opts, RemoteCommand, ctx, tilde, was);
    ExpandField(opts, RevokedHostKeys, ctx, tilde, was);
  }

  /** Path lists, proxies and the host name. */
  method ExpandOtherFields(opts: OptionSet, ctx: Token.TokenContext, tilde: string -> string,
                           ghost was: map<Field, Value>)
    requires opts.scalars == Scalars(was, 6, ctx, tilde)
    modifies opts`scalars
    ensures opts.scalars == Scalars(was, 11, ctx, tilde)
  {
    ExpandField(opts, UserKnownHostsFile, ctx, tilde, was);
    ExpandField(opts, GlobalKnownHostsFile, ctx, tilde, was);
    ExpandField(opts, ProxyCommand, ctx, tilde, was);
    ExpandField(opts, ProxyJump, ctx, tilde, was);
    ExpandField(opts, Hostname, ctx, tilde, was);
  }

  lemma NothingExpanded(m: map<Field, Value>, ctx: Token.TokenContext, tilde: string -> string)
    ensures Scalars(m, 0, ctx, tilde) == m
  {
  }

  method ExpandPathTokens(opts: OptionSet, ctx: Token.TokenContext, tilde: string -> string)
    modifies opts
    ensures opts.Contents() == ExpandPaths(old(opts.Contents()), ctx, tilde)
  {
    ghost var was := opts.scalars;
    NothingExpanded(was, ctx, tilde);
    ExpandPathFields(opts, ctx, tilde, was);
    ExpandLists(opts, ctx, tilde);
    ExpandOtherFields(opts, ctx, tilde, was);
  }

  method ExpandLists(opts: OptionSet, ctx: Token.TokenContext, tilde: string -> string)
    modifies opts`lists
    ensures opts.lists == map l | l in old(opts.lists) :: ExpandedList(l, old(opts.lists)[l], ctx, tilde)
  {
    if IdentityFile in opts.lists {
      var items := ExpandItems(opts.lists[IdentityFile], ctx, tilde);
      opts.lists := opts.lists[IdentityFile := items];
    }
    if CertificateFile in opts.lists {
      var items := ExpandItems(opts.lists[CertificateFile], ctx, tilde);
      opts.lists := opts.lists[CertificateFile := items];
    }
  }

  // ---- what it means ----

  /** A value whose percent signs are all doubled comes out as it was written, whatever the context, where
      no tilde is expanded. */
  lemma DoubledComesBack(f: Field, s: string, ctx: Token.TokenContext, tilde: string -> string)
    requires f in {ProxyCommand, ProxyJump, Hostname}
    ensures ExpandedText(f, Token.Doubled(s), ctx, tilde) == s
  {
    var doubled := Token.Doubled(s);
    Token.DoublingIsUndone(s, ctx);
    NoneStays(ctx);
    assert ExpandedText(f, doubled, ctx, tilde) == Token.Expanded(doubled, ctx);
  }

  lemma NoneStays(ctx: Token.TokenContext)
    ensures Token.Expanded("none", ctx) == "none"
  {
    Token.NoPercentStays("none", ctx);
  }

  /** Paths without blanks are expanded one by one, whatever separates them. */
  lemma PathListOfJoin(tilde: string -> string, words: seq<string>)
    requires forall w :: w in words ==> w != "" && forall i :: 0 <= i < |w| ==> !IsBlank(w[i])
    ensures PathList(tilde, Join(words, ' ')) == Join(MapTilde(tilde, words), ' ')
  {
    FieldsOfJoin(words);
  }

  lemma {:induction false} FieldsOfWord(w: string, rest: string, current: string)
    requires forall i :: 0 <= i < |w| ==> !IsBlank(w[i])
    ensures BlankFields(w + rest, current) == BlankFields(rest, current + w)
  {
    if w == "" {
      assert w + rest == rest && current + w == current;
    } else {
      FieldsOfWord(w[1..], rest, current + [w[0]]);
      assert (w + rest)[1..] == w[1..] + rest;
      assert current + [w[0]] + w[1..] == current + w;
    }
  }

  lemma {:induction false} FieldsOfJoin(words: seq<string>)
    requires forall w :: w in words ==> w != "" && forall i :: 0 <= i < |w| ==> !IsBlank(w[i])
    ensures BlankFields(Join(words, ' '), "") == words
  {
    if words == [] {
    } else if |words| == 1 {
      FieldsOfWord(words[0], "", "");
      assert words[0] + "" == words[0] && "" + words[0] == words[0];
    } else {
      var rest := " " + Join(words[1..], ' ');
      FieldsOfWord(words[0], rest, "");
      assert words[0] + [' '] + Join(words[1..], ' ') == words[0] + rest;
      assert "" + words[0] == words[0];
      assert rest[1..] == Join(words[1..], ' ');
      assert forall w :: w in words[1..] ==> w in words;
      FieldsOfJoin(words[1..]);
    }
  }

  /** A host name expanded with its own unexpanded text in place of another host comes out differently
      exactly when the two differ and it mentions %h. */
  lemma OwnHostTokenIff(v: string, h: string, ctx: Token.TokenContext, tilde: string -> string)
    ensures ExpandedText(Hostname, v, ctx.(remoteHost := v), tilde) ==
            ExpandedText(Hostname, v, ctx.(remoteHost := h), tilde)
            <==> v == h || Token.Token('h') !in Token.Pieces(v)
  {
    Token.HostMattersIff(v, ctx, v, h);
  }

  /** For instance: the part behind a leading %h appears twice, and the token stays. */
  lemma OwnHostToken(rest: string, ctx: Token.TokenContext, tilde: string -> string)
    requires '%' !in rest && ctx.remoteHost == "%h" + rest
    ensures ExpandedText(Hostname, "%h" + rest, ctx, tilde) == "%h" + rest + rest
  {
    var value := "%h" + rest;
    assert value == "%" + (['h'] + rest);
    Token.ExpandedToken('h', rest, ctx);
    Token.NoPercentStays(rest, ctx);
  }

  // ---- a token in a path ----

  lemma {:induction false} NoPercentEndsClean(a: string)
    requires '%' !in a
    ensures !Token.EndsLone(a)
  {
    if a != "" { NoPercentEndsClean(a[1..]); }
  }

  /** A token in the middle of plain text. */
  lemma TokenWithin(a: string, c: char, b: string, ctx: Token.TokenContext)
    requires '%' !in a && '%' !in b && Token.IsToken(c)
    ensures Token.Expanded(a + ("%" + ([c] + b)), ctx) == a + (Token.Spelled(c, ctx) + b)
  {
    NoPercentEndsClean(a);
    Token.CleanFrontExpands(a, "%" + ([c] + b), ctx);
    Token.NoPercentStays(a, ctx);
    Token.NoPercentStays(b, ctx);
    Token.ExpandedToken(c, b, ctx);
    Token.LetterExpands(c, ctx);
  }

  lemma WithinIsNoNone(a: string, c: char, b: string)
    ensures a + ("%" + ([c] + b)) != "none" && a + ("%" + ([c] + b)) != ""
  {
    assert (a + ("%" + ([c] + b)))[|a|] == '%';
    assert '%' !in "none";
  }

  /** Paths get both their tokens and their tilde expanded, proxies only their tokens; "none" stays for all of
      them, and for a path so does nothing at all. The files of IdentityFile and CertificateFile are always
      expanded. Other options are left alone. */
  lemma FieldsMean(f: Field, a: string, c: char, b: string, ctx: Token.TokenContext, tilde: string -> string)
    requires '%' !in a && '%' !in b && Token.IsToken(c)
    ensures var text, filled := a + ("%" + ([c] + b)), a + (Token.Spelled(c, ctx) + b);
            && (f.ControlPath? || f.IdentityAgent? || f.KnownHostsCommand? || f.LocalCommand? || f.RemoteCommand?
                || f.RevokedHostKeys? ==>
                  && ExpandedText(f, text, ctx, tilde) == tilde(filled)
                  && ExpandedText(f, "none", ctx, tilde) == "none" && ExpandedText(f, "", ctx, tilde) == "")
            && (f.ProxyCommand? || f.ProxyJump? || f.Hostname? ==> ExpandedText(f, text, ctx, tilde) == filled)
            && (f.ProxyCommand? || f.ProxyJump? ==> ExpandedText(f, "none", ctx, tilde) == "none")
            && (f.UserKnownHostsFile? || f.GlobalKnownHostsFile? ==>
                  ExpandedText(f, text, ctx, tilde) == PathList(tilde, filled))
            && ExpandedItem(Item.Text(text), ctx, tilde) == Item.Text(tilde(filled))
  {
    TokenWithin(a, c, b, ctx);
    WithinIsNoNone(a, c, b);
  }

  /** Which lists are expanded. */
  lemma ListsMean(l: ListField, items: seq<Item>, ctx: Token.TokenContext, tilde: string -> string, i: nat)
    requires i < |items|
    ensures l.IdentityFile? || l.CertificateFile? ==>
              ExpandedList(l, items, ctx, tilde)[i] == ExpandedItem(items[i], ctx, tilde)
    ensures !l.IdentityFile? && !l.CertificateFile? ==> ExpandedList(l, items, ctx, tilde) == items
  {
  }
}
