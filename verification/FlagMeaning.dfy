/** What each command-line flag does, from the argument to the options. */
module FlagMeaning {
  import opened Text
  import opened Options
  import opened ForwardSpec
  import opened Args
  import opened Bundling
  import Decimal

  // ---- the options a flag sets ----

  /** The keyword table takes the lower-case form of a keyword to a handler. */
  predicate Maps(t: Table, keyword: string, h: Handler) {
    ToLower(keyword) in t && t[ToLower(keyword)] == h
  }

  function Named(name: string): Field {
    Field.Other(name)
  }

  /** The fields that are texts, and those that are switches, under the names of their keywords. */
  const TEXTS := ["AddressFamily", "ForwardAgent", "ControlMaster", "SessionType", "BindInterface", "BindAddress",
                  "Ciphers", "EscapeChar", "PKCS11Provider", "MACs", "Tunnel", "TunnelDevice"]
  const SWITCHES := ["Compression", "GatewayPorts", "GSSAPIAuthentication", "GSSAPIDelegateCredentials", "ForwardX11",
                     "ForwardX11Trusted", "StdinNull", "ForkAfterAuthentication"]

  /** The entries of the keyword table that flags use. */
  ghost predicate FlagTable(t: Table) {
    && (forall i :: 0 <= i < |TEXTS| ==> Maps(t, TEXTS[i], StrField(Named(TEXTS[i]))))
    && (forall i :: 0 <= i < |SWITCHES| ==> Maps(t, SWITCHES[i], BoolField(Named(SWITCHES[i]))))
    && Maps(t, "ProxyJump", StrField(ProxyJump)) && Maps(t, "ControlPath", StrField(ControlPath))
    && Maps(t, "Port", IntField(Port)) && Maps(t, "IdentityFile", IdentityFileHandler)
    && Maps(t, "LocalForward", ForwardHandler(LocalForward)) && Maps(t, "RemoteForward", ForwardHandler(RemoteForward))
    && Maps(t, "DynamicForward", AppendField(DynamicForward))
  }

  /** The directives parsing has added to those there were. */
  function Added(a: Args, b: Args): seq<Directive> {
    if |a.directives| <= |b.directives| then b.directives[|a.directives|..] else []
  }

  /** The options after the directives that the given arguments add. */
  function Optioned(t: Table, s: State, a: Args, mode: Mode, args: seq<string>): Result<State, Failure> {
    ApplyAll(t, s, Added(a, Parsed(a, mode, args).args))
  }

  /** The state with one more scalar set, unless it is set already; nothing else changes. */
  function Set(s: State, f: Field, v: Value): State {
    if f in s.scalars then s else State(s.scalars[f := v], s.lists, s.ignored)
  }

  /** The state with one more item at the end of a list; nothing else changes. */
  function Put(s: State, l: ListField, item: Item): State {
    State(s.scalars, s.lists[l := s.List(l) + [item]], s.ignored)
  }

  // ---- from a flag to its directives ----

  lemma AddedTo(a: Args, f: Settings, more: seq<Directive>)
    ensures Added(a, AddAll(a.(settings := f), more)) == more
    ensures Fielded(a, AddAll(a.(settings := f), more)) == Some(f)
  {
    assert (a.directives + more)[|a.directives|..] == more;
  }

  /** The settings, when nothing but them and the directives differs. */
  function Fielded(a: Args, b: Args): Option<Settings> {
    if b.destination == a.destination && b.command == a.command && b.rest == a.rest then Some(b.settings) else None
  }

  /** The settings after the given arguments, which leave the positionals alone. */
  function Fields(a: Args, mode: Mode, args: seq<string>): Option<Settings> {
    Fielded(a, Parsed(a, mode, args).args)
  }

  lemma BareParsed(t: Table, s: State, a: Args, mode: Mode, x: char)
    requires IsBare(x)
    ensures Parsed(a, mode, [Dash([x])]).error == None
    ensures Optioned(t, s, a, mode, [Dash([x])]) == ApplyAll(t, s, BareDirectives(x))
    ensures Fields(a, mode, [Dash([x])]) == Some(BareField(a.settings, x))
  {
    ParsedBare(a, mode, x, []);
    assert [Dash([x])] + [] == [Dash([x])];
    AddedTo(a, BareField(a.settings, x), BareDirectives(x));
  }

  lemma ArgumentParsed(t: Table, s: State, a: Args, mode: Mode, x: char, value: string)
    requires TakesArgument(x)
    ensures Parsed(a, mode, [Dash([x]), value]).error == None
    ensures Optioned(t, s, a, mode, [Dash([x]), value]) == ApplyAll(t, s, ArgumentDirectives(x, value))
    ensures Fields(a, mode, [Dash([x]), value]) == Some(ArgumentField(a.settings, x, value))
  {
    ParsedArgument(a, mode, x, value, []);
    assert [Dash([x]), value] + [] == [Dash([x]), value];
    AddedTo(a, ArgumentField(a.settings, x, value), ArgumentDirectives(x, value));
  }

  // ---- from a directive to the options ----

  /** Nothing is ignored yet. */
  predicate Ready(s: State) {
    s.ignored == {}
  }

  lemma OneApplied(t: Table, s: State, keyword: string, h: Handler, value: string)
    requires Ready(s) && Maps(t, keyword, h)
    ensures ApplyAll(t, s, One(keyword, value)) ==
            if Rejects(h, value) then Err(BadForward(value)) else Ok(Handle(h, value, s))
  {
    var d := Options.Directive(keyword, value);
    assert One(keyword, value)[0] == d && One(keyword, value)[1..] == [];
  }

  lemma TextSet(t: Table, s: State, keyword: string, f: Field, value: string)
    requires Ready(s) && Maps(t, keyword, StrField(f))
    ensures ApplyAll(t, s, One(keyword, value)) == Ok(Set(s, f, Str(value)))
  {
    OneApplied(t, s, keyword, StrField(f), value);
  }

  lemma YesNo()
    ensures ParseBool("yes") == Some(true) && ParseBool("no") == Some(false)
  {
    assert ToLower("yes") == "yes" && ToLower("no") == "no";
  }

  lemma SwitchSet(t: Table, s: State, keyword: string, f: Field, on: bool)
    requires Ready(s) && Maps(t, keyword, BoolField(f))
    ensures ApplyAll(t, s, One(keyword, if on then "yes" else "no")) == Ok(Set(s, f, Bool(on)))
  {
    YesNo();
    OneApplied(t, s, keyword, BoolField(f), if on then "yes" else "no");
  }

  lemma ThenApplied(t: Table, s: State, keyword: string, value: string, middle: State, more: seq<Directive>)
    requires ApplyAll(t, s, One(keyword, value)) == Ok(middle)
    ensures ApplyAll(t, s, One(keyword, value) + more) == ApplyAll(t, middle, more)
  {
    var d := Options.Directive(keyword, value);
    assert One(keyword, value)[0] == d && One(keyword, value)[1..] == [];
    assert (One(keyword, value) + more)[0] == d && (One(keyword, value) + more)[1..] == more;
  }

  // ---- what flags stand for ----

  /** An option a flag sets. */
  datatype Given = Given(name: string, value: Value)

  function SetAll(s: State, gs: seq<Given>): State
    decreases |gs|
  {
    if gs == [] then s else SetAll(Set(s, Named(gs[0].name), gs[0].value), gs[1..])
  }

  /** The options each flag without argument stands for. */
  function Stands(x: char): seq<Given> {
    if x == '4' then [Given("AddressFamily", Str("inet"))]
    else if x == '6' then [Given("AddressFamily", Str("inet6"))]
    else if x == 'A' then [Given("ForwardAgent", Str("yes"))]
    else if x == 'a' then [Given("ForwardAgent", Str("no"))]
    else if x == 'M' then [Given("ControlMaster", Str("yes"))]
    else if x == 'N' then [Given("SessionType", Str("none"))]
    else if x == 's' then [Given("SessionType", Str("subsystem"))]
    else StandsSwitched(x)
  }

  function StandsSwitched(x: char): seq<Given> {
    if x == 'C' then [Given("Compression", Bool(true))]
    else if x == 'g' then [Given("GatewayPorts", Bool(true))]
    else if x == 'k' then [Given("GSSAPIDelegateCredentials", Bool(false))]
    else if x == 'K' then [Given("GSSAPIAuthentication", Bool(true)), Given("GSSAPIDelegateCredentials", Bool(true))]
    else if x == 'X' then [Given("ForwardX11", Bool(true))]
    else if x == 'x' then [Given("ForwardX11", Bool(false))]
    else if x == 'Y' then [Given("ForwardX11", Bool(true)), Given("ForwardX11Trusted", Bool(true))]
    else if x == 'n' then [Given("StdinNull", Bool(true))]
    else if x == 'f' then [Given("StdinNull", Bool(true)), Given("ForkAfterAuthentication", Bool(true))]
    else []
  }

  /** The option is a text of the table, or a switch of it. */
  ghost predicate InTable(t: Table, g: Given) {
    match g.value
    case Str(_) => Maps(t, g.name, StrField(Named(g.name)))
    case Bool(_) => Maps(t, g.name, BoolField(Named(g.name)))
    case _ => false
  }

  function Written(v: Value): string {
    match v
    case Str(s) => s
    case Bool(on) => if on then "yes" else "no"
    case _ => ""
  }

  function Directed(gs: seq<Given>): seq<Directive> {
    if gs == [] then [] else One(gs[0].name, Written(gs[0].value)) + Directed(gs[1..])
  }

  lemma SetReady(s: State, f: Field, v: Value)
    ensures Ready(Set(s, f, v)) == Ready(s)
  {
  }

  /** The directives of options set them, one after the other. */
  lemma {:induction false} DirectedSets(t: Table, s: State, gs: seq<Given>)
    requires Ready(s) && forall i :: 0 <= i < |gs| ==> InTable(t, gs[i])
    ensures ApplyAll(t, s, Directed(gs)) == Ok(SetAll(s, gs))
    decreases |gs|
  {
    if gs != [] {
      var g, f := gs[0], Named(gs[0].name);
      assert InTable(t, g);
      match g.value {
        case Str(text) => TextSet(t, s, g.name, f, text);
        case Bool(on) => SwitchSet(t, s, g.name, f, on);
      }
      var middle := Set(s, f, g.value);
      ThenApplied(t, s, g.name, Written(g.value), middle, Directed(gs[1..]));
      SetReady(s, f, g.value);
      DirectedSets(t, middle, gs[1..]);
    }
  }

  lemma DirectedOne(g: Given)
    ensures Directed([g]) == One(g.name, Written(g.value))
  {
    assert [g][1..] == [];
    assert One(g.name, Written(g.value)) + [] == One(g.name, Written(g.value));
  }

  lemma DirectedTwo(g: Given, h: Given)
    ensures Directed([g, h]) == One(g.name, Written(g.value)) + One(h.name, Written(h.value))
  {
    assert [g, h][1..] == [h];
    DirectedOne(h);
  }

  lemma TextFlagsDirected(x: char)
    requires x in {'4', '6', 'A', 'a', 'M', 'N', 's'}
    ensures BareDirectives(x) == Directed(Stands(x))
  {
    DirectedOne(Stands(x)[0]);
  }

  lemma SwitchFlagsDirected(x: char)
    requires x in {'C', 'g', 'k', 'X', 'x', 'n'}
    ensures BareDirectives(x) == Directed(Stands(x))
  {
    DirectedOne(Stands(x)[0]);
  }

  lemma DoubleFlagsDirected(x: char)
    requires x in {'K', 'Y', 'f'}
    ensures BareDirectives(x) == Directed(Stands(x))
  {
    DirectedTwo(Stands(x)[0], Stands(x)[1]);
  }

  lemma QuietFlagsDirected(x: char)
    requires x in {'T', 'G', 'V', 'y', 'q', 'v', 't'}
    ensures BareDirectives(x) == Directed(Stands(x))
  {
  }

  lemma FlagDirected(x: char)
    requires IsBare(x)
    ensures BareDirectives(x) == Directed(Stands(x))
  {
    if x in {'4', '6', 'A', 'a', 'M', 'N', 's'} { TextFlagsDirected(x); }
    else if x in {'C', 'g', 'k', 'X', 'x', 'n'} { SwitchFlagsDirected(x); }
    else if x in {'K', 'Y', 'f'} { DoubleFlagsDirected(x); }
    else { QuietFlagsDirected(x); }
  }

  lemma StandsInTable(t: Table, x: char)
    requires FlagTable(t)
    ensures forall i :: 0 <= i < |Stands(x)| ==> InTable(t, Stands(x)[i])
  {
    assert TEXTS[0] == "AddressFamily" && TEXTS[1] == "ForwardAgent" && TEXTS[2] == "ControlMaster";
    assert TEXTS[3] == "SessionType";
    SwitchesInTable(t, x);
  }

  lemma ConnectionInTable(t: Table)
    requires FlagTable(t)
    ensures Maps(t, "Compression", BoolField(Named("Compression")))
    ensures Maps(t, "GatewayPorts", BoolField(Named("GatewayPorts")))
    ensures Maps(t, "GSSAPIAuthentication", BoolField(Named("GSSAPIAuthentication")))
    ensures Maps(t, "GSSAPIDelegateCredentials", BoolField(Named("GSSAPIDelegateCredentials")))
  {
    assert SWITCHES[0] == "Compression" && SWITCHES[1] == "GatewayPorts" && SWITCHES[2] == "GSSAPIAuthentication";
    assert SWITCHES[3] == "GSSAPIDelegateCredentials";
  }

  lemma SessionInTable(t: Table)
    requires FlagTable(t)
    ensures Maps(t, "ForwardX11", BoolField(Named("ForwardX11")))
    ensures Maps(t, "ForwardX11Trusted", BoolField(Named("ForwardX11Trusted")))
    ensures Maps(t, "StdinNull", BoolField(Named("StdinNull")))
    ensures Maps(t, "ForkAfterAuthentication", BoolField(Named("ForkAfterAuthentication")))
  {
    assert SWITCHES[4] == "ForwardX11" && SWITCHES[5] == "ForwardX11Trusted" && SWITCHES[6] == "StdinNull";
    assert SWITCHES[7] == "ForkAfterAuthentication";
  }

  lemma SwitchesInTable(t: Table, x: char)
    requires FlagTable(t)
    ensures forall i :: 0 <= i < |StandsSwitched(x)| ==> InTable(t, StandsSwitched(x)[i])
  {
    ConnectionInTable(t);
    SessionInTable(t);
  }

  /** A flag without argument sets exactly the options it stands for, each unless it is set already, and
      leaves every other scalar and list alone. */
  lemma BareFlagMeans(t: Table, s: State, a: Args, mode: Mode, x: char)
    requires FlagTable(t) && Ready(s) && IsBare(x)
    ensures Parsed(a, mode, [Dash([x])]).error == None
    ensures Optioned(t, s, a, mode, [Dash([x])]) == Ok(SetAll(s, Stands(x)))
  {
    BareParsed(t, s, a, mode, x);
    FlagDirected(x);
    StandsInTable(t, x);
    DirectedSets(t, s, Stands(x));
  }

  // ---- flags with an argument ----

  /** The options a flag stands for whose argument is taken as it is, apart from -J and -S. */
  function StandsWith(x: char, v: string): seq<Given> {
    if x == 'B' then [Given("BindInterface", Str(v))]
    else if x == 'b' then [Given("BindAddress", Str(v))]
    else if x == 'c' then [Given("Ciphers", Str(v))]
    else if x == 'e' then [Given("EscapeChar", Str(v))]
    else if x == 'I' then [Given("PKCS11Provider", Str(v))]
    else if x == 'm' then [Given("MACs", Str(v))]
    else if x == 'w' then [Given("Tunnel", Str("yes")), Given("TunnelDevice", Str(v))]
    else []
  }

  predicate TakesText(x: char) {
    x in {'B', 'b', 'c', 'e', 'I', 'm', 'w', 'l', 'O', 'o', 'P', 'Q', 'W', 'E', 'F'}
  }

  lemma TextDirected(x: char, v: string)
    requires x in {'B', 'b', 'c', 'e', 'I', 'm'}
    ensures ArgumentDirectives(x, v) == Directed(StandsWith(x, v))
  {
    DirectedOne(StandsWith(x, v)[0]);
  }

  lemma TunnelDirected(v: string)
    ensures ArgumentDirectives('w', v) == Directed(StandsWith('w', v))
  {
    DirectedTwo(StandsWith('w', v)[0], StandsWith('w', v)[1]);
  }

  lemma FieldOnlyDirected(x: char, v: string)
    requires x in {'l', 'O', 'o', 'P', 'Q', 'W', 'E', 'F'}
    ensures ArgumentDirectives(x, v) == Directed(StandsWith(x, v))
  {
  }

  lemma BoundInTable(t: Table)
    requires FlagTable(t)
    ensures Maps(t, "BindInterface", StrField(Named("BindInterface")))
    ensures Maps(t, "BindAddress", StrField(Named("BindAddress")))
    ensures Maps(t, "Ciphers", StrField(Named("Ciphers"))) && Maps(t, "EscapeChar", StrField(Named("EscapeChar")))
  {
    assert TEXTS[4] == "BindInterface" && TEXTS[5] == "BindAddress" && TEXTS[6] == "Ciphers";
    assert TEXTS[7] == "EscapeChar";
  }

  lemma TunnelInTable(t: Table)
    requires FlagTable(t)
    ensures Maps(t, "PKCS11Provider", StrField(Named("PKCS11Provider"))) && Maps(t, "MACs", StrField(Named("MACs")))
    ensures Maps(t, "Tunnel", StrField(Named("Tunnel"))) && Maps(t, "TunnelDevice", StrField(Named("TunnelDevice")))
  {
    assert TEXTS[8] == "PKCS11Provider" && TEXTS[9] == "MACs" && TEXTS[10] == "Tunnel" && TEXTS[11] == "TunnelDevice";
  }

  lemma StandsWithInTable(t: Table, x: char, v: string)
    requires FlagTable(t)
    ensures forall i :: 0 <= i < |StandsWith(x, v)| ==> InTable(t, StandsWith(x, v)[i])
  {
    BoundInTable(t);
    TunnelInTable(t);
  }

  /** A flag with such an argument sets exactly the options it stands for; those that only fill a field of the
      record set none. */
  lemma TextFlagMeans(t: Table, s: State, a: Args, mode: Mode, x: char, v: string)
    requires FlagTable(t) && Ready(s) && TakesText(x)
    ensures Parsed(a, mode, [Dash([x]), v]).error == None
    ensures Optioned(t, s, a, mode, [Dash([x]), v]) == Ok(SetAll(s, StandsWith(x, v)))
  {
    ArgumentParsed(t, s, a, mode, x, v);
    if x in {'B', 'b', 'c', 'e', 'I', 'm'} { TextDirected(x, v); }
    else if x == 'w' { TunnelDirected(v); }
    else { FieldOnlyDirected(x, v); }
    StandsWithInTable(t, x, v);
    DirectedSets(t, s, StandsWith(x, v));
  }

  lemma JumpDirected(v: string)
    ensures ArgumentDirectives('J', v) == One("ProxyJump", v) && ArgumentDirectives('S', v) == One("ControlPath", v)
  {
  }

  /** -J and -S set the proxy jump and the control path. */
  lemma PathFlagsMean(t: Table, s: State, a: Args, mode: Mode, v: string)
    requires FlagTable(t) && Ready(s)
    ensures Optioned(t, s, a, mode, [Dash(['J']), v]) == Ok(Set(s, ProxyJump, Str(v)))
    ensures Optioned(t, s, a, mode, [Dash(['S']), v]) == Ok(Set(s, ControlPath, Str(v)))
  {
    ArgumentParsed(t, s, a, mode, 'J', v);
    ArgumentParsed(t, s, a, mode, 'S', v);
    JumpDirected(v);
    TextSet(t, s, "ProxyJump", ProxyJump, v);
    TextSet(t, s, "ControlPath", ControlPath, v);
  }

  lemma ForwardsDirected(v: string)
    ensures ArgumentDirectives('L', v) == One("LocalForward", ConvertForwardSpec(v))
    ensures ArgumentDirectives('R', v) == One("RemoteForward", ConvertForwardSpec(v))
    ensures ArgumentDirectives('D', v) == One("DynamicForward", v)
  {
  }

  lemma ForwardApplied(t: Table, s: State, keyword: string, l: ListField, value: string)
    requires Ready(s) && Maps(t, keyword, ForwardHandler(l)) && l != IdentityFile && l != SendEnv
    ensures ApplyAll(t, s, One(keyword, value)) ==
            match ParseForward(value)
            case Some(f) => Ok(Put(s, l, Fwd(f)))
            case None => Err(BadForward(value))
  {
    OneApplied(t, s, keyword, ForwardHandler(l), value);
  }

  /** -L and -R append exactly the forward of their argument, in configuration form, to their own list and
      leave everything else alone; an argument without a forward is an error. */
  lemma ForwardFlagsMean(t: Table, s: State, a: Args, mode: Mode, v: string)
    requires FlagTable(t) && Ready(s)
    ensures Optioned(t, s, a, mode, [Dash(['L']), v]) ==
            match ParseForward(ConvertForwardSpec(v))
            case Some(f) => Ok(Put(s, LocalForward, Fwd(f)))
            case None => Err(BadForward(ConvertForwardSpec(v)))
    ensures Optioned(t, s, a, mode, [Dash(['R']), v]) ==
            match ParseForward(ConvertForwardSpec(v))
            case Some(f) => Ok(Put(s, RemoteForward, Fwd(f)))
            case None => Err(BadForward(ConvertForwardSpec(v)))
  {
    ArgumentParsed(t, s, a, mode, 'L', v);
    ArgumentParsed(t, s, a, mode, 'R', v);
    ForwardsDirected(v);
    ForwardApplied(t, s, "LocalForward", LocalForward, ConvertForwardSpec(v));
    ForwardApplied(t, s, "RemoteForward", RemoteForward, ConvertForwardSpec(v));
  }

  lemma DynamicApplied(t: Table, s: State, v: string)
    requires Ready(s) && Maps(t, "DynamicForward", AppendField(DynamicForward))
    ensures ApplyAll(t, s, One("DynamicForward", v)) == Ok(Put(s, DynamicForward, Item.Text(v)))
  {
    OneApplied(t, s, "DynamicForward", AppendField(DynamicForward), v);
  }

  /** -D appends its argument to DynamicForward. */
  lemma DynamicFlagMeans(t: Table, s: State, a: Args, mode: Mode, v: string)
    requires FlagTable(t) && Ready(s)
    ensures Optioned(t, s, a, mode, [Dash(['D']), v]) == Ok(Put(s, DynamicForward, Item.Text(v)))
  {
    ArgumentParsed(t, s, a, mode, 'D', v);
    ForwardsDirected(v);
    DynamicApplied(t, s, v);
  }

  lemma NumbersDirected(v: string)
    ensures ArgumentDirectives('i', v) == One("IdentityFile", v) && ArgumentDirectives('p', v) == One("Port", v)
  {
  }

  lemma IdentityApplied(t: Table, s: State, v: string)
    requires Ready(s) && Maps(t, "IdentityFile", IdentityFileHandler)
    ensures ApplyAll(t, s, One("IdentityFile", v)) ==
            Ok(if ToLower(v) == "none" then State(s.scalars, s.lists[IdentityFile := []], s.ignored)
               else Put(s, IdentityFile, Item.Text(v)))
  {
    OneApplied(t, s, "IdentityFile", IdentityFileHandler, v);
  }

  /** -i appends its argument to IdentityFile, and "none" in any case empties it. */
  lemma IdentityFlagMeans(t: Table, s: State, a: Args, mode: Mode, v: string)
    requires FlagTable(t) && Ready(s)
    ensures Optioned(t, s, a, mode, [Dash(['i']), v]) ==
            Ok(if ToLower(v) == "none" then State(s.scalars, s.lists[IdentityFile := []], s.ignored)
               else Put(s, IdentityFile, Item.Text(v)))
  {
    ArgumentParsed(t, s, a, mode, 'i', v);
    NumbersDirected(v);
    IdentityApplied(t, s, v);
  }

  lemma PortApplied(t: Table, s: State, v: string)
    requires Ready(s) && Maps(t, "Port", IntField(Port))
    ensures ApplyAll(t, s, One("Port", v)) ==
            Ok(match Decimal.Atoi(v) case Some(n) => Set(s, Port, Int(n)) case None => s)
  {
    OneApplied(t, s, "Port", IntField(Port), v);
  }

  /** -p sets the port when its argument is a number, and nothing otherwise. */
  lemma PortFlagMeans(t: Table, s: State, a: Args, mode: Mode, v: string)
    requires FlagTable(t) && Ready(s)
    ensures Optioned(t, s, a, mode, [Dash(['p']), v]) ==
            Ok(match Decimal.Atoi(v) case Some(n) => Set(s, Port, Int(n)) case None => s)
  {
    ArgumentParsed(t, s, a, mode, 'p', v);
    NumbersDirected(v);
    PortApplied(t, s, v);
  }

  // ---- the fields of the record ----

  /** The field each flag without argument sets, and no other. */
  lemma SwitchFields(f: Settings)
    ensures BareField(f, 'N') == f.(noCommand := true) && BareField(f, 's') == f.(subsystem := true)
    ensures BareField(f, 'T') == f.(noTTY := true) && BareField(f, 'G') == f.(printConfig := true)
    ensures BareField(f, 'V') == f.(version := true)
  {
  }

  lemma CountFields(f: Settings)
    ensures BareField(f, 'y') == f.(syslog := true) && BareField(f, 'q') == f.(quiet := true)
  {
  }

  lemma RepeatFields(f: Settings)
    ensures BareField(f, 'v') == f.(verbosity := f.verbosity + 1)
    ensures BareField(f, 't') == f.(ttyCount := f.ttyCount + 1)
  {
  }

  lemma BareFieldOf(a: Args, mode: Mode, x: char)
    requires IsBare(x)
    ensures Fields(a, mode, [Dash([x])]) == Some(BareField(a.settings, x))
  {
    BareParsed(map[], EMPTY, a, mode, x);
  }

  /** The field each flag without argument sets. */
  lemma SwitchFlagFields(a: Args, mode: Mode)
    ensures Fields(a, mode, [Dash(['N'])]) == Some(a.settings.(noCommand := true))
    ensures Fields(a, mode, [Dash(['s'])]) == Some(a.settings.(subsystem := true))
    ensures Fields(a, mode, [Dash(['T'])]) == Some(a.settings.(noTTY := true))
    ensures Fields(a, mode, [Dash(['G'])]) == Some(a.settings.(printConfig := true))
    ensures Fields(a, mode, [Dash(['V'])]) == Some(a.settings.(version := true))
  {
    BareFieldOf(a, mode, 'N');
    BareFieldOf(a, mode, 's');
    BareFieldOf(a, mode, 'T');
    BareFieldOf(a, mode, 'G');
    BareFieldOf(a, mode, 'V');
    SwitchFields(a.settings);
  }

  lemma CountFlagFields(a: Args, mode: Mode)
    ensures Fields(a, mode, [Dash(['y'])]) == Some(a.settings.(syslog := true))
    ensures Fields(a, mode, [Dash(['q'])]) == Some(a.settings.(quiet := true))
    ensures Fields(a, mode, [Dash(['v'])]) == Some(a.settings.(verbosity := a.settings.verbosity + 1))
    ensures Fields(a, mode, [Dash(['t'])]) == Some(a.settings.(ttyCount := a.settings.ttyCount + 1))
  {
    BareFieldOf(a, mode, 'y');
    BareFieldOf(a, mode, 'q');
    BareFieldOf(a, mode, 'v');
    BareFieldOf(a, mode, 't');
    CountFields(a.settings);
    RepeatFields(a.settings);
  }

  lemma NamedFields(f: Settings, v: string)
    ensures ArgumentField(f, 'I', v) == f.(pkcs11 := v) && ArgumentField(f, 'l', v) == f.(user := v)
    ensures ArgumentField(f, 'O', v) == f.(ctlCmd := v) && ArgumentField(f, 'o', v) == f.(options := f.options + [v])
    ensures ArgumentField(f, 'P', v) == f.(tag := v)
  {
  }

  lemma FiledFields(f: Settings, v: string)
    ensures ArgumentField(f, 'p', v) == f.(port := v) && ArgumentField(f, 'Q', v) == f.(queryType := v)
    ensures ArgumentField(f, 'W', v) == f.(stdioFwd := v) && ArgumentField(f, 'E', v) == f.(logFile := v)
    ensures ArgumentField(f, 'F', v) == f.(configFile := v)
  {
  }

  lemma ArgumentFieldOf(a: Args, mode: Mode, x: char, v: string)
    requires TakesArgument(x)
    ensures Fields(a, mode, [Dash([x]), v]) == Some(ArgumentField(a.settings, x, v))
  {
    ArgumentParsed(map[], EMPTY, a, mode, x, v);
  }

  /** The field each flag with an argument sets. */
  lemma NamedFlagFields(a: Args, mode: Mode, v: string)
    ensures Fields(a, mode, [Dash(['I']), v]) == Some(a.settings.(pkcs11 := v))
    ensures Fields(a, mode, [Dash(['l']), v]) == Some(a.settings.(user := v))
    ensures Fields(a, mode, [Dash(['O']), v]) == Some(a.settings.(ctlCmd := v))
    ensures Fields(a, mode, [Dash(['o']), v]) == Some(a.settings.(options := a.settings.options + [v]))
    ensures Fields(a, mode, [Dash(['P']), v]) == Some(a.settings.(tag := v))
  {
    ArgumentFieldOf(a, mode, 'I', v);
    ArgumentFieldOf(a, mode, 'l', v);
    ArgumentFieldOf(a, mode, 'O', v);
    ArgumentFieldOf(a, mode, 'o', v);
    ArgumentFieldOf(a, mode, 'P', v);
    NamedFields(a.settings, v);
  }

  lemma FiledFlagFields(a: Args, mode: Mode, v: string)
    ensures Fields(a, mode, [Dash(['p']), v]) == Some(a.settings.(port := v))
    ensures Fields(a, mode, [Dash(['Q']), v]) == Some(a.settings.(queryType := v))
    ensures Fields(a, mode, [Dash(['W']), v]) == Some(a.settings.(stdioFwd := v))
    ensures Fields(a, mode, [Dash(['E']), v]) == Some(a.settings.(logFile := v))
    ensures Fields(a, mode, [Dash(['F']), v]) == Some(a.settings.(configFile := v))
  {
    ArgumentFieldOf(a, mode, 'p', v);
    ArgumentFieldOf(a, mode, 'Q', v);
    ArgumentFieldOf(a, mode, 'W', v);
    ArgumentFieldOf(a, mode, 'E', v);
    ArgumentFieldOf(a, mode, 'F', v);
    FiledFields(a.settings, v);
  }

  /** The other flags set none. */
  lemma OtherFlagFields(a: Args, mode: Mode, x: char)
    requires x in {'4', '6', 'A', 'a', 'C', 'g', 'K', 'k', 'M', 'X', 'x', 'Y', 'f', 'n'}
    ensures Fields(a, mode, [Dash([x])]) == Some(a.settings)
  {
    BareFieldOf(a, mode, x);
  }

  lemma OtherArgumentFields(a: Args, mode: Mode, x: char, v: string)
    requires x in {'B', 'b', 'c', 'D', 'e', 'i', 'J', 'L', 'm', 'R', 'S', 'w'}
    ensures Fields(a, mode, [Dash([x]), v]) == Some(a.settings)
  {
    ArgumentFieldOf(a, mode, x, v);
  }

  // ---- errors and positionals ----

  predicate BareLetter(x: char) {
    x in {'4', '6', 'A', 'a', 'C', 'g', 'K', 'k', 'M', 'N', 'X', 'x', 'Y', 'f', 'n', 's', 'T', 'G', 'V', 'y', 'q', 'v',
          't'}
  }

  predicate ArgumentLetter(x: char) {
    x in {'B', 'b', 'c', 'D', 'e', 'I', 'i', 'J', 'L', 'l', 'm', 'O', 'o', 'P', 'p', 'Q', 'R', 'S', 'W', 'w', 'E', 'F'}
  }

  lemma BareLetters(x: char)
    ensures BareLetter(x) <==> IsBare(x)
  {
  }

  lemma ArgumentLetters(x: char)
    ensures ArgumentLetter(x) <==> TakesArgument(x)
  {
  }

  /** A letter that is no flag is an error, and nothing is done for it. */
  lemma UnknownLetter(a: Args, mode: Mode, x: char, next: seq<string>)
    requires !BareLetter(x) && !ArgumentLetter(x) && x != '-'
    ensures Parsed(a, mode, [Dash([x])] + next) == Outcome(a, Some(UnknownFlag(x)))
  {
    BareLetters(x);
    ArgumentLetters(x);
    ParsedOption(a, mode, [x], next);
  }

  /** A flag that needs an argument and has none is an error, and nothing is done for it. */
  lemma MissingArgument(a: Args, mode: Mode, x: char)
    requires ArgumentLetter(x)
    ensures Parsed(a, mode, [Dash([x])]) == Outcome(a, Some(NeedsArgument(x)))
  {
    ArgumentLetters(x);
    NotBoth(x);
    BareIsNoDash(x);
    ParsedOption(a, mode, [x], []);
    assert [Dash([x])] + [] == [Dash([x])];
  }

  /** Positionals are kept in order, in the rest when only options are parsed. */
  lemma RestKept(a: Args, words: seq<string>)
    ensures Positional(a, words, OptionsOnly) == a.(rest := a.rest + words)
  {
    assert a.rest + [] == a.rest;
  }

  /** Without a destination the first one becomes it, and the others go to the rest ... */
  lemma HostKept(a: Args, first: string, more: seq<string>)
    ensures a.destination == "" ==>
              Positional(a, [first] + more, OptionsHost) == a.(destination := first, rest := a.rest + more)
    ensures a.destination != "" ==> Positional(a, more, OptionsHost) == a.(rest := a.rest + more)
  {
    assert ([first] + more)[1..] == more;
    assert a.rest + [] == a.rest;
  }

  /** ... or to the command. */
  lemma CommandKept(a: Args, first: string, more: seq<string>)
    ensures a.destination == "" ==>
              Positional(a, [first] + more, OptionsHostCommand) == a.(destination := first, command := a.command + more)
    ensures a.destination != "" ==> Positional(a, more, OptionsHostCommand) == a.(command := a.command + more)
  {
    assert ([first] + more)[1..] == more;
    assert a.command + [] == a.command;
  }

  /** A double dash ends the options: what follows it is positional, whatever it looks like. */
  lemma DashesEnd(a: Args, mode: Mode, words: seq<string>)
    ensures Parsed(a, mode, ["--"] + words) == Outcome(Positional(a, words, mode), None)
  {
    assert (["--"] + words)[1..] == words;
  }

  /** So do a single dash and a word that does not start with one; they are positional themselves. */
  lemma WordEnds(a: Args, mode: Mode, words: seq<string>)
    requires words != [] && (words[0] == "-" || words[0] == "" || words[0][0] != '-')
    ensures Parsed(a, mode, words) == Outcome(Positional(a, words, mode), None)
  {
  }
}
