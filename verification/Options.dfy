/** Applying directives to options: first value wins for scalars, lists accumulate. */
module Options {
  import opened Text
  import opened Glob
  import opened ForwardSpec
  import Decimal

  /** Option fields. The ones the resolution looks at have names of their own. */
  datatype Field =
    | Hostname | User | Port | Tag | CanonicalizeHostname | ClearAllForwardings | RefuseConnection
    | IgnoreUnknown | ControlPath | IdentityAgent | KnownHostsCommand | LocalCommand | RemoteCommand
    | RevokedHostKeys | UserKnownHostsFile | GlobalKnownHostsFile | ProxyCommand | ProxyJump
    | HostKeyAlias | Other(name: string)

  datatype ListField =
    | IdentityFile | CertificateFile | SendEnv | LocalForward | RemoteForward | DynamicForward
    | ChannelTimeout | OtherList(name: string)

  /** A list that is set once, such as CanonicalDomains, is a value like any other. */
  datatype Value = Str(s: string) | Bool(b: bool) | Int(i: int) | Words(words: seq<string>)

  datatype Item = Text(s: string) | Fwd(f: Forward)

  /** The kinds of handlers in the keyword table. */
  datatype Handler =
    | StrField(field: Field)
    | BoolField(field: Field)
    | IntField(field: Field)
    | FirstFields(field: Field)
    | AppendField(list: ListField)
    | IdentityFileHandler
    | ForwardHandler(list: ListField)
    | SendEnvHandler
    | ChannelTimeoutHandler
    | IgnoreUnknownHandler
    | SkipDirective

  type Table = map<string, Handler>

  datatype Directive = Directive(keyword: string, value: string)

  datatype Failure = UnknownOption(keyword: string) | BadForward(value: string)

  /** The value of an Options object. A missing key is a nil field; a missing list is empty. */
  datatype State = State(scalars: map<Field, Value>, lists: map<ListField, seq<Item>>, ignored: set<string>)
  {
    function List(l: ListField): seq<Item> {
      if l in lists then lists[l] else []
    }

    function Scalar(f: Field): Option<Value> {
      if f in scalars then Some(scalars[f]) else None
    }
  }

  const EMPTY := State(map[], map[], {})

  // ---- value parsing ----

  function ParseBool(value: string): Option<bool> {
    var v := ToLower(value);
    if v == "yes" || v == "true" then Some(true)
    else if v == "no" || v == "false" then Some(false)
    else None
  }

  // ---- what one directive would do ----

  /** The scalar a handler sets if it is still unset; None when it sets none or the value is invalid. */
  function ScalarOf(h: Handler, value: string): Option<(Field, Value)> {
    match h
    case StrField(f) => Some((f, Str(value)))
    case BoolField(f) => (match ParseBool(value) case Some(b) => Some((f, Bool(b))) case None => None)
    case IntField(f) => (match Decimal.Atoi(value) case Some(i) => Some((f, Int(i))) case None => None)
    case FirstFields(f) => Some((f, Words(Fields(value))))
    case IgnoreUnknownHandler => Some((IgnoreUnknown, Str(value)))
    case _ => None
  }

  function Texts(words: seq<string>): seq<Item> {
    seq(|words|, i requires 0 <= i < |words| => Text(words[i]))
  }

  /** The list a handler appends to and what it appends, for the handlers that only append. */
  function Appends(h: Handler, value: string): Option<(ListField, seq<Item>)> {
    match h
    case AppendField(l) => Some((l, [Text(value)]))
    case ForwardHandler(l) =>
      (match ParseForward(value) case Some(f) => Some((l, [Fwd(f)])) case None => None)
    case ChannelTimeoutHandler => Some((ChannelTimeout, Texts(Fields(value))))
    case _ => None
  }

  function WithoutMatches(items: seq<Item>, pattern: string): seq<Item> {
    if items == [] then []
    else if items[0].Text? && Matches(pattern, items[0].s) then WithoutMatches(items[1..], pattern)
    else [items[0]] + WithoutMatches(items[1..], pattern)
  }

  /** One word of a SendEnv value: "-pattern" removes, anything else is added. */
  function SendEnvWord(items: seq<Item>, word: string): seq<Item> {
    if "-" <= word then WithoutMatches(items, word[1..]) else items + [Text(word)]
  }

  function SendEnvWords(items: seq<Item>, words: seq<string>): seq<Item>
    decreases |words|
  {
    if words == [] then items else SendEnvWords(SendEnvWord(items, words[0]), words[1..])
  }

  predicate IsNone(value: string) {
    ToLower(value) == "none"
  }

  /** What a directive leaves in list `l` when it held `items`. */
  function ListAfter(h: Handler, value: string, l: ListField, items: seq<Item>): seq<Item> {
    if h == IdentityFileHandler && l == IdentityFile then
      if IsNone(value) then [] else items + [Text(value)]
    else if h == SendEnvHandler && l == SendEnv then SendEnvWords(items, Fields(value))
    else match Appends(h, value)
      case Some((l', more)) => if l == l' then items + more else items
      case None => items
  }

  /** The list a handler works on. */
  function ListOf(h: Handler): Option<ListField> {
    match h
    case AppendField(l) => Some(l)
    case ForwardHandler(l) => Some(l)
    case IdentityFileHandler => Some(IdentityFile)
    case SendEnvHandler => Some(SendEnv)
    case ChannelTimeoutHandler => Some(ChannelTimeout)
    case _ => None
  }

  /** The patterns an IgnoreUnknown value adds, in lower case. */
  function IgnoredOf(pieces: seq<string>): set<string> {
    if pieces == [] then {}
    else
      var p := TrimSpace(ToLower(pieces[0]));
      (if p == "" then {} else {p}) + IgnoredOf(pieces[1..])
  }

  function SetFirst(m: map<Field, Value>, f: Field, v: Value): map<Field, Value> {
    if f in m then m else m[f := v]
  }

  function Handle(h: Handler, value: string, s: State): State {
    var scalars := match ScalarOf(h, value) case Some((f, v)) => SetFirst(s.scalars, f, v) case None => s.scalars;
    var lists := match ListOf(h) case Some(l) => s.lists[l := ListAfter(h, value, l, s.List(l))] case None => s.lists;
    var ignored := if h == IgnoreUnknownHandler then s.ignored + IgnoredOf(Split(value, ',')) else s.ignored;
    State(scalars, lists, ignored)
  }

  /** The keyword is suppressed: by an exact name even when it is known, by a wildcard only when not. */
  predicate Suppressed(t: Table, ignored: set<string>, keyword: string) {
    keyword in ignored || (keyword !in t && exists p :: p in ignored && Matches(p, keyword))
  }

  predicate Rejects(h: Handler, value: string) {
    h.ForwardHandler? && ParseForward(value).None?
  }

  /** ApplyDirective */
  function Apply(t: Table, s: State, d: Directive): Result<State, Failure> {
    var keyword := ToLower(d.keyword);
    if Suppressed(t, s.ignored, keyword) then Ok(s)
    else if keyword !in t then Err(UnknownOption(d.keyword))
    else if Rejects(t[keyword], d.value) then Err(BadForward(d.value))
    else Ok(Handle(t[keyword], d.value, s))
  }

  /** Directives in order, stopping at the first error. */
  function ApplyAll(t: Table, s: State, ds: seq<Directive>): Result<State, Failure>
    decreases |ds|
  {
    if ds == [] then Ok(s)
    else match Apply(t, s, ds[0])
      case Err(e) => Err(e)
      case Ok(s') => ApplyAll(t, s', ds[1..])
  }

  /** mergeOptions: unset scalars are copied, lists are appended; `ignored` is the destination's. */
  function Merge(dst: State, src: State): State {
    State(src.scalars + dst.scalars,
          map l | l in dst.lists.Keys + src.lists.Keys :: dst.List(l) + src.List(l),
          dst.ignored)
  }

  // ---- the Options object ----

  class OptionSet {
    var scalars: map<Field, Value>
    var lists: map<ListField, seq<Item>>
    var ignored: set<string>

    constructor ()
      ensures Contents() == EMPTY
    {
      scalars, lists, ignored := map[], map[], {};
    }

    function Contents(): State
      reads this
    {
      State(scalars, lists, ignored)
    }

    /** setStr, and the common part of setBool and setInt. */
    method SetScalar(f: Field, v: Value)
      modifies this`scalars
      ensures scalars == SetFirst(old(scalars), f, v)
    {
      if f !in scalars {
        scalars := scalars[f := v];
      }
    }

    method SetBool(f: Field, value: string)
      modifies this`scalars
      ensures scalars == match ScalarOf(BoolField(f), value)
                         case Some((f, v)) => SetFirst(old(scalars), f, v) case None => old(scalars)
    {
      if f in scalars { return; }
      var v := ToLower(value);
      if v == "yes" || v == "true" {
        scalars := scalars[f := Bool(true)];
      } else if v == "no" || v == "false" {
        scalars := scalars[f := Bool(false)];
      }
    }

    method SetInt(f: Field, value: string)
      modifies this`scalars
      ensures scalars == match ScalarOf(IntField(f), value)
                         case Some((f, v)) => SetFirst(old(scalars), f, v) case None => old(scalars)
    {
      if f in scalars { return; }
      var v := Decimal.Atoi(value);
      if v.Some? {
        scalars := scalars[f := Int(v.value)];
      }
    }

    method Append(l: ListField, items: seq<Item>)
      modifies this`lists
      ensures lists == old(lists)[l := old(Contents().List(l)) + items]
    {
      lists := lists[l := (if l in lists then lists[l] else []) + items];
    }

    /** The loop of ignoreUnknownHandler over the comma-separated patterns. */
    method AddIgnored(value: string)
      modifies this`ignored
      ensures ignored == old(ignored) + IgnoredOf(Split(value, ','))
    {
      var pieces := Split(value, ',');
      assert pieces[0..] == pieces;
      for i := 0 to |pieces|
        invariant old(ignored) + IgnoredOf(pieces) == ignored + IgnoredOf(pieces[i..])
      {
        assert pieces[i..][0] == pieces[i] && pieces[i..][1..] == pieces[i + 1..];
        var p := TrimSpace(ToLower(pieces[i]));
        if p != "" {
          ignored := ignored + {p};
        }
      }
    }

    /** The dispatch through the keyword table. */
    method Dispatch(h: Handler, value: string) returns (error: Option<Failure>)
      modifies this
      ensures Rejects(h, value) ==> error == Some(BadForward(value)) && Contents() == old(Contents())
      ensures !Rejects(h, value) ==> error == None && Contents() == Handle(h, value, old(Contents()))
    {
      error := None;
      match h {
        case StrField(f) => SetScalar(f, Str(value));
        case BoolField(f) => SetBool(f, value);
        case IntField(f) => SetInt(f, value);
        case FirstFields(f) => SetScalar(f, Words(Fields(value)));
        case AppendField(l) => Append(l, [Text(value)]);
        case IdentityFileHandler =>
          if IsNone(value) {
            lists := lists[IdentityFile := []];
          } else {
            Append(IdentityFile, [Text(value)]);
          }
        case ForwardHandler(l) =>
          var f := ParseForward(value);
          if f.None? { return Some(BadForward(value)); }
          Append(l, [Fwd(f.value)]);
        case SendEnvHandler =>
          var items := AppendSendEnv(Contents().List(SendEnv), value);
          lists := lists[SendEnv := items];
        case ChannelTimeoutHandler => Append(ChannelTimeout, Texts(Fields(value)));
        case IgnoreUnknownHandler =>
          SetScalar(IgnoreUnknown, Str(value));
          AddIgnored(value);
        case SkipDirective =>
      }
    }

    method ApplyDirective(t: Table, d: Directive) returns (error: Option<Failure>)
      modifies this
      ensures match Apply(t, old(Contents()), d)
              case Ok(s) => error == None && Contents() == s
              case Err(e) => error == Some(e) && Contents() == old(Contents())
    {
      var keyword := ToLower(d.keyword);
      if keyword in ignored { return None; }
      if keyword in t {
        error := Dispatch(t[keyword], d.value);
        return;
      }
      var left := ignored;
      while left != {}
        invariant Contents() == old(Contents()) && left <= ignored
        invariant forall p :: p in ignored && p !in left ==> !Matches(p, keyword)
        decreases left
      {
        var p :| p in left;
        var hit := MatchPattern(p, keyword);
        if hit { return None; }
        left := left - {p};
      }
      return Some(UnknownOption(d.keyword));
    }

    method MergeFrom(src: OptionSet)
      modifies this
      ensures Contents() == Merge(old(Contents()), old(src.Contents()))
    {
      var merged := map l | l in lists.Keys + src.lists.Keys :: Contents().List(l) + src.Contents().List(l);
      scalars := src.scalars + scalars;
      lists := merged;
    }
  }

  /** appendSendEnv: the outer loop over words. */
  method AppendSendEnv(existing: seq<Item>, value: string) returns (r: seq<Item>)
    ensures r == SendEnvWords(existing, Fields(value))
  {
    var fields := Fields(value);
    r := existing;
    assert fields[0..] == fields;
    for i := 0 to |fields|
      invariant SendEnvWords(existing, fields) == SendEnvWords(r, fields[i..])
    {
      assert fields[i..][0] == fields[i] && fields[i..][1..] == fields[i + 1..];
      var f := fields[i];
      if "-" <= f {
        r := KeepUnmatched(r, f[1..]);
      } else {
        r := r + [Text(f)];
      }
    }
  }

  /** Its inner loop, keeping what a removal spares. */
  method KeepUnmatched(items: seq<Item>, pattern: string) returns (kept: seq<Item>)
    ensures kept == WithoutMatches(items, pattern)
  {
    kept := [];
    assert items[0..] == items;
    for j := 0 to |items|
      invariant WithoutMatches(items, pattern) == kept + WithoutMatches(items[j..], pattern)
    {
      ghost var rest := WithoutMatches(items[j + 1..], pattern);
      assert items[j..][0] == items[j] && items[j..][1..] == items[j + 1..];
      var hit := false;
      if items[j].Text? {
        hit := MatchPattern(pattern, items[j].s);
      }
      if !hit {
        assert kept + ([items[j]] + rest) == kept + [items[j]] + rest;
        kept := kept + [items[j]];
      }
    }
  }

  // ---- errors and suppression ----

  lemma {:induction false} NoFieldsIff(s: string, current: string)
    ensures FieldsFrom(s, current) == [] <==> current == "" && AllSpace(s)
    decreases |s|
  {
    if s != "" {
      assert s == [s[0]] + s[1..];
      if IsSpace(s[0]) { NoFieldsIff(s[1..], ""); } else { NoFieldsIff(s[1..], current + [s[0]]); }
    }
  }

  /** A value has no forward exactly when it is blank. */
  lemma NoForwardIff(value: string)
    ensures ParseForward(value) == None <==> AllSpace(value)
  {
    NoFieldsIff(value, "");
  }

  lemma {:induction false} IgnoredMembers(pieces: seq<string>, p: string)
    ensures p in IgnoredOf(pieces) <==> p != "" && exists i :: 0 <= i < |pieces| && TrimSpace(ToLower(pieces[i])) == p
  {
    if pieces != [] {
      IgnoredMembers(pieces[1..], p);
      if i :| 0 <= i < |pieces| && TrimSpace(ToLower(pieces[i])) == p {
        if i > 0 { assert pieces[1..][i - 1] == pieces[i]; }
      }
      if i :| 0 <= i < |pieces[1..]| && TrimSpace(ToLower(pieces[1..][i])) == p {
        assert pieces[i + 1] == pieces[1..][i];
      }
    }
  }

  /** Some element of an IgnoreUnknown value names the keyword, or matches it while it is unknown. */
  ghost predicate Covers(t: Table, value: string, keyword: string) {
    var pieces := Split(value, ',');
    exists i :: 0 <= i < |pieces| &&
      var p := TrimSpace(ToLower(pieces[i]));
      p != "" && (p == keyword || (keyword !in t && Matches(p, keyword)))
  }

  lemma CoversIff(t: Table, value: string, keyword: string)
    ensures Suppressed(t, IgnoredOf(Split(value, ',')), keyword) <==> Covers(t, value, keyword)
  {
    var pieces := Split(value, ',');
    forall p ensures p in IgnoredOf(pieces) <==>
                       p != "" && exists i :: 0 <= i < |pieces| && TrimSpace(ToLower(pieces[i])) == p {
      IgnoredMembers(pieces, p);
    }
    if Suppressed(t, IgnoredOf(pieces), keyword) {
      var p :| p in IgnoredOf(pieces) && (p == keyword || (keyword !in t && Matches(p, keyword)));
      var i :| 0 <= i < |pieces| && TrimSpace(ToLower(pieces[i])) == p;
    }
    if Covers(t, value, keyword) {
      var i :| 0 <= i < |pieces| &&
        var p := TrimSpace(ToLower(pieces[i]));
        p != "" && (p == keyword || (keyword !in t && Matches(p, keyword)));
      assert TrimSpace(ToLower(pieces[i])) in IgnoredOf(pieces);
    }
  }

  /** After an IgnoreUnknown, a directive is dropped exactly when an element of its value covers the keyword.
      Otherwise an unknown keyword is an error, and so is a forward with a blank value. */
  lemma IgnoreUnknownMeans(t: Table, value: string, d: Directive)
    ensures var s := Handle(IgnoreUnknownHandler, value, EMPTY);
            var keyword := ToLower(d.keyword);
            && (Covers(t, value, keyword) ==> Apply(t, s, d) == Ok(s))
            && (!Covers(t, value, keyword) && keyword !in t ==> Apply(t, s, d) == Err(UnknownOption(d.keyword)))
            && (!Covers(t, value, keyword) && keyword in t && t[keyword].ForwardHandler? && AllSpace(d.value) ==>
                  Apply(t, s, d) == Err(BadForward(d.value)))
            && (!Covers(t, value, keyword) && keyword in t && !(t[keyword].ForwardHandler? && AllSpace(d.value)) ==>
                  Apply(t, s, d) == Ok(Handle(t[keyword], d.value, s)))
  {
    var s := Handle(IgnoreUnknownHandler, value, EMPTY);
    assert s.ignored == {} + IgnoredOf(Split(value, ',')) == IgnoredOf(Split(value, ','));
    CoversIff(t, value, ToLower(d.keyword));
    NoForwardIff(d.value);
  }

  lemma LowerYesNo()
    ensures ToLower("yes") == "yes" && ToLower("true") == "true" && ToLower("no") == "no" && ToLower("false") == "false"
  {
  }

  /** The texts of switches, in any case; every other text is invalid. */
  lemma SwitchTexts(value: string)
    ensures ToLower(value) == "yes" || ToLower(value) == "true" <==> ParseBool(value) == Some(true)
    ensures ToLower(value) == "no" || ToLower(value) == "false" <==> ParseBool(value) == Some(false)
  {
    LowerYesNo();
  }

  // ---- handlers that split their value ----

  lemma FirstTakes(f: Field, value: string, s: State)
    requires f !in s.scalars
    ensures Handle(FirstFields(f), value, s).Scalar(f) == Some(Words(Fields(value)))
  {
  }

  lemma TimeoutsTaken(value: string, s: State)
    ensures Handle(ChannelTimeoutHandler, value, s).List(ChannelTimeout) ==
            s.List(ChannelTimeout) + Texts(Fields(value))
  {
  }

  lemma SentTaken(value: string, s: State)
    ensures Handle(SendEnvHandler, value, s).List(SendEnv) == SendEnvWords(s.List(SendEnv), Fields(value))
  {
  }

  /** Handlers that take words take them all, in order: a list that is set once, ChannelTimeout, and SendEnv
      as long as no word removes anything. */
  lemma WordsTaken(ws: seq<string>, f: Field, s: State)
    requires forall w :: w in ws ==> w != "" && NoSpace(w) && w[0] != '-'
    ensures f !in s.scalars ==> Handle(FirstFields(f), Join(ws, ' '), s).Scalar(f) == Some(Words(ws))
    ensures Handle(ChannelTimeoutHandler, Join(ws, ' '), s).List(ChannelTimeout) == s.List(ChannelTimeout) + Texts(ws)
    ensures Handle(SendEnvHandler, Join(ws, ' '), s).List(SendEnv) == s.List(SendEnv) + Texts(ws)
  {
    FieldsJoin(ws);
    if f !in s.scalars { FirstTakes(f, Join(ws, ' '), s); }
    TimeoutsTaken(Join(ws, ' '), s);
    SentTaken(Join(ws, ' '), s);
    SentInOrder(s.List(SendEnv), ws);
  }

  lemma {:induction false} SentInOrder(items: seq<Item>, ws: seq<string>)
    requires forall w :: w in ws ==> w != "" && w[0] != '-'
    ensures SendEnvWords(items, ws) == items + Texts(ws)
    decreases |ws|
  {
    if ws != [] {
      assert ws[0] in ws && forall w :: w in ws[1..] ==> w in ws;
      SentInOrder(items + [Text(ws[0])], ws[1..]);
      assert items + [Text(ws[0])] + Texts(ws[1..]) == items + Texts(ws);
    }
  }

  /** A word with a dash removes every name its pattern matches among those sent before it. */
  lemma {:induction false} WordRemoves(items: seq<Item>, pattern: string, item: Item)
    requires item.Text?
    ensures item in SendEnvWord(items, "-" + pattern) <==> item in items && !Matches(pattern, item.s)
    decreases |items|
  {
    assert ("-" + pattern)[1..] == pattern;
    if items != [] {
      WordRemoves(items[1..], pattern, item);
      assert items == [items[0]] + items[1..];
    }
  }
}
