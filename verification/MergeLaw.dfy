/** Merging two option sets and applying two directive lists in a row. */
module MergeLaw {
  import opened Text
  import opened Glob
  import opened Options

  // ---- a directive list is an error or a list of handler runs ----

  datatype Step = Step(handler: Handler, value: string)

  function IgnoredAfter(ignored: set<string>, step: Step): set<string> {
    if step.handler == IgnoreUnknownHandler then ignored + IgnoredOf(Split(step.value, ',')) else ignored
  }

  /** The handler runs of a directive list, up to its first error. */
  function Effective(t: Table, ignored: set<string>, ds: seq<Directive>): seq<Step>
    decreases |ds|
  {
    if ds == [] then []
    else
      var keyword := ToLower(ds[0].keyword);
      if Suppressed(t, ignored, keyword) then Effective(t, ignored, ds[1..])
      else if keyword !in t || Rejects(t[keyword], ds[0].value) then []
      else
        var step := Step(t[keyword], ds[0].value);
        [step] + Effective(t, IgnoredAfter(ignored, step), ds[1..])
  }

  /** The first error of a directive list; it depends on the suppressed keywords only. */
  function ErrorOf(t: Table, ignored: set<string>, ds: seq<Directive>): Option<Failure>
    decreases |ds|
  {
    if ds == [] then None
    else
      var keyword := ToLower(ds[0].keyword);
      if Suppressed(t, ignored, keyword) then ErrorOf(t, ignored, ds[1..])
      else if keyword !in t then Some(UnknownOption(ds[0].keyword))
      else if Rejects(t[keyword], ds[0].value) then Some(BadForward(ds[0].value))
      else ErrorOf(t, IgnoredAfter(ignored, Step(t[keyword], ds[0].value)), ds[1..])
  }

  function Run(s: State, steps: seq<Step>): State
    decreases |steps|
  {
    if steps == [] then s else Run(Handle(steps[0].handler, steps[0].value, s), steps[1..])
  }

  lemma {:induction false} ApplyAllRuns(t: Table, s: State, ds: seq<Directive>)
    ensures ApplyAll(t, s, ds) ==
            match ErrorOf(t, s.ignored, ds)
            case Some(e) => Err(e)
            case None => Ok(Run(s, Effective(t, s.ignored, ds)))
    decreases |ds|
  {
    if ds != [] {
      var keyword := ToLower(ds[0].keyword);
      if Suppressed(t, s.ignored, keyword) {
        ApplyAllRuns(t, s, ds[1..]);
      } else if keyword in t && !Rejects(t[keyword], ds[0].value) {
        ApplyAllRuns(t, Handle(t[keyword], ds[0].value, s), ds[1..]);
      }
    }
  }

  // ---- what a run leaves in each field ----

  /** The first valid value for a scalar. */
  function FirstValid(steps: seq<Step>, f: Field): Option<Value> {
    if steps == [] then None
    else match ScalarOf(steps[0].handler, steps[0].value)
      case Some((g, v)) => if f == g then Some(v) else FirstValid(steps[1..], f)
      case None => FirstValid(steps[1..], f)
  }

  function OrElse<T>(a: Option<T>, b: Option<T>): Option<T> {
    if a.Some? then a else b
  }

  function StepAppends(step: Step, l: ListField): seq<Item> {
    match Appends(step.handler, step.value)
    case Some((m, items)) => if l == m then items else []
    case None => []
  }

  /** Everything appended to a list. */
  function Contribution(steps: seq<Step>, l: ListField): seq<Item> {
    if steps == [] then [] else StepAppends(steps[0], l) + Contribution(steps[1..], l)
  }

  /** A list by itself: what the steps make of it. */
  function RunList(items: seq<Item>, steps: seq<Step>, l: ListField): seq<Item>
    decreases |steps|
  {
    if steps == [] then items
    else RunList(ListAfter(steps[0].handler, steps[0].value, l, items), steps[1..], l)
  }

  predicate PlainList(l: ListField) {
    l != IdentityFile && l != SendEnv
  }

  /** As in the keyword table, the two special lists have no handlers but their own. */
  predicate TableOk(t: Table) {
    forall k :: k in t ==> (t[k].AppendField? || t[k].ForwardHandler? ==> PlainList(t[k].list))
  }

  lemma {:induction false} RunScalar(s: State, steps: seq<Step>, f: Field)
    ensures Run(s, steps).Scalar(f) == OrElse(s.Scalar(f), FirstValid(steps, f))
    decreases |steps|
  {
    if steps != [] {
      RunScalar(Handle(steps[0].handler, steps[0].value, s), steps[1..], f);
    }
  }

  lemma StepList(h: Handler, value: string, s: State, l: ListField)
    ensures Handle(h, value, s).List(l) == ListAfter(h, value, l, s.List(l))
  {
  }

  lemma {:induction false} RunIsRunList(s: State, steps: seq<Step>, l: ListField)
    ensures Run(s, steps).List(l) == RunList(s.List(l), steps, l)
    decreases |steps|
  {
    if steps != [] {
      StepList(steps[0].handler, steps[0].value, s, l);
      RunIsRunList(Handle(steps[0].handler, steps[0].value, s), steps[1..], l);
    }
  }

  lemma PlainStep(step: Step, l: ListField, items: seq<Item>)
    requires PlainList(l)
    ensures ListAfter(step.handler, step.value, l, items) == items + StepAppends(step, l)
  {
    assert items + [] == items;
  }

  lemma {:induction false} RunPlainList(items: seq<Item>, steps: seq<Step>, l: ListField)
    requires PlainList(l)
    ensures RunList(items, steps, l) == items + Contribution(steps, l)
    decreases |steps|
  {
    if steps == [] {
      assert items + [] == items;
    } else {
      var own := StepAppends(steps[0], l);
      calc {
        RunList(items, steps, l);
        { PlainStep(steps[0], l, items); }
        RunList(items + own, steps[1..], l);
        { RunPlainList(items + own, steps[1..], l); }
        items + own + Contribution(steps[1..], l);
        { Assoc(items, own, Contribution(steps[1..], l)); }
        items + Contribution(steps, l);
      }
    }
  }

  lemma {:induction false} RunListAppend(items: seq<Item>, a: seq<Step>, b: seq<Step>, l: ListField)
    ensures RunList(items, a + b, l) == RunList(RunList(items, a, l), b, l)
    decreases |a|
  {
    if a == [] {
      assert a + b == b;
    } else {
      assert (a + b)[0] == a[0] && (a + b)[1..] == a[1..] + b;
      RunListAppend(ListAfter(a[0].handler, a[0].value, l, items), a[1..], b, l);
    }
  }

  lemma {:induction false} FirstValidAppend(a: seq<Step>, b: seq<Step>, f: Field)
    ensures FirstValid(a + b, f) == OrElse(FirstValid(a, f), FirstValid(b, f))
  {
    if a == [] {
      assert a + b == b;
    } else {
      assert (a + b)[0] == a[0] && (a + b)[1..] == a[1..] + b;
      FirstValidAppend(a[1..], b, f);
    }
  }

  lemma {:induction false} ContributionAppend(a: seq<Step>, b: seq<Step>, l: ListField)
    ensures Contribution(a + b, l) == Contribution(a, l) + Contribution(b, l)
  {
    if a == [] {
      assert a + b == b;
    } else {
      calc {
        Contribution(a + b, l);
        { assert (a + b)[0] == a[0] && (a + b)[1..] == a[1..] + b; }
        StepAppends(a[0], l) + Contribution(a[1..] + b, l);
        { ContributionAppend(a[1..], b, l); }
        StepAppends(a[0], l) + (Contribution(a[1..], l) + Contribution(b, l));
        { Assoc(StepAppends(a[0], l), Contribution(a[1..], l), Contribution(b, l)); }
        Contribution(a, l) + Contribution(b, l);
      }
    }
  }

  // ---- the homomorphism ----

  /** The ignored set a directive list leaves behind. */
  function Ignoring(t: Table, ignored: set<string>, ds: seq<Directive>): set<string>
    decreases |ds|
  {
    if ds == [] then ignored
    else
      var keyword := ToLower(ds[0].keyword);
      if Suppressed(t, ignored, keyword) then Ignoring(t, ignored, ds[1..])
      else if keyword !in t then ignored
      else Ignoring(t, IgnoredAfter(ignored, Step(t[keyword], ds[0].value)), ds[1..])
  }

  /** No directive of the list is suppressed by an ignored set. */
  predicate Untouched(t: Table, ignored: set<string>, ds: seq<Directive>) {
    forall i :: 0 <= i < |ds| ==> !Suppressed(t, ignored, ToLower(ds[i].keyword))
  }

  // One directive in front of a list, for each of the three functions.

  lemma EffectiveStep(t: Table, ignored: set<string>, d: Directive, ds: seq<Directive>)
    ensures var keyword := ToLower(d.keyword);
            Effective(t, ignored, [d] + ds) ==
            if Suppressed(t, ignored, keyword) then Effective(t, ignored, ds)
            else if keyword !in t || Rejects(t[keyword], d.value) then []
            else [Step(t[keyword], d.value)] + Effective(t, IgnoredAfter(ignored, Step(t[keyword], d.value)), ds)
  {
    assert ([d] + ds)[1..] == ds;
  }

  lemma ErrorStep(t: Table, ignored: set<string>, d: Directive, ds: seq<Directive>)
    ensures var keyword := ToLower(d.keyword);
            ErrorOf(t, ignored, [d] + ds) ==
            if Suppressed(t, ignored, keyword) then ErrorOf(t, ignored, ds)
            else if keyword !in t then Some(UnknownOption(d.keyword))
            else if Rejects(t[keyword], d.value) then Some(BadForward(d.value))
            else ErrorOf(t, IgnoredAfter(ignored, Step(t[keyword], d.value)), ds)
  {
    assert ([d] + ds)[1..] == ds;
  }

  lemma ConsAppend<T>(x: T, rest: seq<T>, b: seq<T>)
    ensures [x] + rest + b == [x] + (rest + b)
  {
  }

  lemma {:induction false} AppendErrors(t: Table, ignored: set<string>, a: seq<Directive>, b: seq<Directive>)
    ensures ErrorOf(t, ignored, a + b) == OrElse(ErrorOf(t, ignored, a), ErrorOf(t, Ignoring(t, ignored, a), b))
    decreases |a|
  {
    if a == [] {
      assert a + b == b;
    } else {
      var d, rest := a[0], a[1..];
      assert a == [d] + rest;
      ConsAppend(d, rest, b);
      ErrorStep(t, ignored, d, rest);
      ErrorStep(t, ignored, d, rest + b);
      var keyword := ToLower(d.keyword);
      if Suppressed(t, ignored, keyword) {
        AppendErrors(t, ignored, rest, b);
      } else if keyword in t {
        AppendErrors(t, IgnoredAfter(ignored, Step(t[keyword], d.value)), rest, b);
      }
    }
  }

  lemma {:induction false} AppendRuns(t: Table, ignored: set<string>, a: seq<Directive>, b: seq<Directive>)
    requires ErrorOf(t, ignored, a) == None
    ensures Effective(t, ignored, a + b) == Effective(t, ignored, a) + Effective(t, Ignoring(t, ignored, a), b)
    decreases |a|
  {
    if a == [] {
      assert a + b == b;
    } else {
      var d, rest := a[0], a[1..];
      assert a == [d] + rest;
      ConsAppend(d, rest, b);
      EffectiveStep(t, ignored, d, rest);
      EffectiveStep(t, ignored, d, rest + b);
      var keyword := ToLower(d.keyword);
      if Suppressed(t, ignored, keyword) {
        AppendRuns(t, ignored, rest, b);
      } else {
        var next := IgnoredAfter(ignored, Step(t[keyword], d.value));
        AppendRuns(t, next, rest, b);
        ConsAppend(Step(t[keyword], d.value), Effective(t, next, rest), Effective(t, Ignoring(t, next, rest), b));
      }
    }
  }

  lemma SuppressedByUnion(t: Table, x: set<string>, y: set<string>, keyword: string)
    ensures Suppressed(t, x + y, keyword) == (Suppressed(t, x, keyword) || Suppressed(t, y, keyword))
  {
  }

  lemma {:induction false} ExtraIgnored(t: Table, ignored: set<string>, extra: set<string>, ds: seq<Directive>)
    requires Untouched(t, extra, ds)
    ensures Effective(t, extra + ignored, ds) == Effective(t, ignored, ds)
    ensures ErrorOf(t, extra + ignored, ds) == ErrorOf(t, ignored, ds)
    decreases |ds|
  {
    if ds != [] {
      var keyword := ToLower(ds[0].keyword);
      SuppressedByUnion(t, extra, ignored, keyword);
      assert Untouched(t, extra, ds[1..]);
      if Suppressed(t, ignored, keyword) {
        ExtraIgnored(t, ignored, extra, ds[1..]);
      } else if keyword in t {
        var step := Step(t[keyword], ds[0].value);
        assert extra + IgnoredAfter(ignored, step) == IgnoredAfter(extra + ignored, step);
        ExtraIgnored(t, IgnoredAfter(ignored, step), extra, ds[1..]);
      }
    }
  }

  /** When A suppresses nothing of B, the handler runs of A and B in a row are those of A and those of B. */
  lemma AppendOfUntouched(t: Table, a: seq<Directive>, b: seq<Directive>)
    requires Untouched(t, Ignoring(t, {}, a), b)
    ensures ErrorOf(t, {}, a + b) == OrElse(ErrorOf(t, {}, a), ErrorOf(t, {}, b))
    ensures ErrorOf(t, {}, a) == None ==> Effective(t, {}, a + b) == Effective(t, {}, a) + Effective(t, {}, b)
  {
    var extra := Ignoring(t, {}, a);
    AppendErrors(t, {}, a, b);
    if ErrorOf(t, {}, a) == None { AppendRuns(t, {}, a, b); }
    ExtraIgnored(t, {}, extra, b);
    assert extra + {} == extra;
  }

  /** No directive of the list is an IgnoreUnknown. */
  predicate IgnoreFree(t: Table, ds: seq<Directive>) {
    forall i :: 0 <= i < |ds| ==> ToLower(ds[i].keyword) in t ==> t[ToLower(ds[i].keyword)] != IgnoreUnknownHandler
  }

  /** A list without IgnoreUnknown suppresses nothing of any other. */
  lemma {:induction false} IgnoreFreeLeavesUntouched(t: Table, a: seq<Directive>, b: seq<Directive>)
    requires IgnoreFree(t, a)
    ensures Ignoring(t, {}, a) == {} && Untouched(t, Ignoring(t, {}, a), b)
    decreases |a|
  {
    if a != [] {
      assert IgnoreFree(t, a[1..]) by {
        forall i | 0 <= i < |a[1..]| ensures a[1..][i] == a[i + 1] {}
      }
      IgnoreFreeLeavesUntouched(t, a[1..], b);
    }
  }

  /** Two states agree on every scalar and every append-only list. */
  ghost predicate Agree(a: State, b: State) {
    && (forall f :: a.Scalar(f) == b.Scalar(f))
    && (forall l :: PlainList(l) ==> a.List(l) == b.List(l))
  }

  /** The law at one pair of lists: applying A and then B is the same as merging what A gives with what
      B gives, errors included. */
  ghost predicate LawHolds(t: Table, a: seq<Directive>, b: seq<Directive>) {
    match (ApplyAll(t, EMPTY, a), ApplyAll(t, EMPTY, b))
    case (Err(e), _) => ApplyAll(t, EMPTY, a + b) == Err(e)
    case (Ok(_), Err(e)) => ApplyAll(t, EMPTY, a + b) == Err(e)
    case (Ok(x), Ok(y)) => ApplyAll(t, EMPTY, a + b).Ok? && Agree(ApplyAll(t, EMPTY, a + b).value, Merge(x, y))
  }

  /** What B's handlers do behind A is what they do alone, as far as it shows: scalars A has set do not. */
  ghost predicate SameShown(a: seq<Step>, behind: seq<Step>, alone: seq<Step>) {
    && (forall f :: FirstValid(a, f).Some? || FirstValid(behind, f) == FirstValid(alone, f))
    && (forall l :: PlainList(l) ==> Contribution(behind, l) == Contribution(alone, l))
  }

  /** A fails, or what A ignores changes neither B's error nor, when there is none, anything B shows. */
  ghost predicate IgnoringIsHarmless(t: Table, a: seq<Directive>, b: seq<Directive>) {
    ErrorOf(t, {}, a).Some? ||
    var ignored := Ignoring(t, {}, a);
    && ErrorOf(t, ignored, b) == ErrorOf(t, {}, b)
    && (ErrorOf(t, {}, b) == None ==> SameShown(Effective(t, {}, a), Effective(t, ignored, b), Effective(t, {}, b)))
  }

  /** The exact condition of the law. */
  lemma MergeLawIff(t: Table, a: seq<Directive>, b: seq<Directive>)
    ensures LawHolds(t, a, b) <==> IgnoringIsHarmless(t, a, b)
  {
    var ignored := Ignoring(t, {}, a);
    ApplyAllRuns(t, EMPTY, a);
    ApplyAllRuns(t, EMPTY, b);
    ApplyAllRuns(t, EMPTY, a + b);
    AppendErrors(t, {}, a, b);
    if ErrorOf(t, {}, a) == None {
      AppendRuns(t, {}, a, b);
      AgreeIffSameShown(Effective(t, {}, a), Effective(t, ignored, b), Effective(t, {}, b));
    }
  }

  lemma AgreeIffSameShown(a: seq<Step>, behind: seq<Step>, alone: seq<Step>)
    ensures Agree(Run(EMPTY, a + behind), Merge(Run(EMPTY, a), Run(EMPTY, alone))) <==> SameShown(a, behind, alone)
  {
    var both, merged := Run(EMPTY, a + behind), Merge(Run(EMPTY, a), Run(EMPTY, alone));
    forall f
      ensures both.Scalar(f) == merged.Scalar(f) <==>
              FirstValid(a, f).Some? || FirstValid(behind, f) == FirstValid(alone, f)
    {
      RunScalars(a, behind, f);
      RunScalars(a, alone, f);
      MergedScalar(a, alone, f);
    }
    forall l | PlainList(l)
      ensures both.List(l) == merged.List(l) <==> Contribution(behind, l) == Contribution(alone, l)
    {
      RunLists(a, behind, l);
      RunLists(a, alone, l);
      MergedPlainList(a, alone, l);
      SameSuffix(Contribution(a, l), Contribution(behind, l), Contribution(alone, l));
    }
  }

  lemma RunScalars(a: seq<Step>, b: seq<Step>, f: Field)
    ensures Run(EMPTY, a + b).Scalar(f) == OrElse(FirstValid(a, f), FirstValid(b, f))
  {
    RunScalar(EMPTY, a + b, f);
    FirstValidAppend(a, b, f);
  }

  lemma RunLists(a: seq<Step>, b: seq<Step>, l: ListField)
    requires PlainList(l)
    ensures Run(EMPTY, a + b).List(l) == Contribution(a, l) + Contribution(b, l)
  {
    PlainListIsContribution(a + b, l);
    ContributionAppend(a, b, l);
  }

  lemma SameSuffix(x: seq<Item>, y: seq<Item>, z: seq<Item>)
    ensures x + y == x + z <==> y == z
  {
    if x + y == x + z {
      assert y == (x + y)[|x|..] && z == (x + z)[|x|..];
    }
  }

  /** In particular the law holds when A's IgnoreUnknown suppresses no directive of B. */
  lemma MergeIsHomomorphism(t: Table, a: seq<Directive>, b: seq<Directive>)
    requires Untouched(t, Ignoring(t, {}, a), b)
    ensures LawHolds(t, a, b)
  {
    var extra := Ignoring(t, {}, a);
    ExtraIgnored(t, {}, extra, b);
    assert extra + {} == extra;
    MergeLawIff(t, a, b);
  }

  /** Otherwise it can fail: the ignored set of A reaches B only when they are applied in a row. */
  lemma IgnoreUnknownBreaksTheLaw()
    ensures var t := map["ignoreunknown" := IgnoreUnknownHandler, "tag" := StrField(Tag)];
            var a, b := [Directive("ignoreunknown", "tag")], [Directive("tag", "x")];
            && ApplyAll(t, EMPTY, a).Ok? && ApplyAll(t, EMPTY, b).Ok? && ApplyAll(t, EMPTY, a + b).Ok?
            && ApplyAll(t, EMPTY, a + b).value.Scalar(Tag) == None
            && Merge(ApplyAll(t, EMPTY, a).value, ApplyAll(t, EMPTY, b).value).Scalar(Tag) == Some(Str("x"))
  {
    var t := map["ignoreunknown" := IgnoreUnknownHandler, "tag" := StrField(Tag)];
    var first, second := Directive("ignoreunknown", "tag"), Directive("tag", "x");
    var a, b := [first], [second];
    assert ToLower("ignoreunknown") == "ignoreunknown" && ToLower("tag") == "tag";
    TagIsOnePiece();
    assert IgnoredOf(["tag"]) == {"tag"} by { assert ["tag"][1..] == []; }
    var s := Handle(IgnoreUnknownHandler, "tag", EMPTY);
    assert Apply(t, EMPTY, first) == Ok(s) && s.ignored == {} + {"tag"} == {"tag"};
    assert Apply(t, s, second) == Ok(s);
    assert a[1..] == [] && b[1..] == [] && (a + b)[0] == first && (a + b)[1..] == b;
    assert ApplyAll(t, s, b) == ApplyAll(t, s, []) == Ok(s);
    assert ApplyAll(t, EMPTY, b) == Ok(Handle(StrField(Tag), "x", EMPTY));
  }

  lemma TagIsOnePiece()
    ensures Split("tag", ',') == ["tag"] && TrimSpace("tag") == "tag"
  {
    SplitPrefix("tag", "", ',');
    assert "tag" + "" == "tag";
  }

  lemma MergedScalar(a: seq<Step>, b: seq<Step>, f: Field)
    ensures Run(EMPTY, a + b).Scalar(f) == Merge(Run(EMPTY, a), Run(EMPTY, b)).Scalar(f)
  {
    RunScalar(EMPTY, a + b, f);
    RunScalar(EMPTY, a, f);
    RunScalar(EMPTY, b, f);
    FirstValidAppend(a, b, f);
  }

  lemma MergedList(x: State, y: State, l: ListField)
    ensures Merge(x, y).List(l) == x.List(l) + y.List(l)
  {
  }

  lemma EmptyRunList(steps: seq<Step>, l: ListField)
    ensures Run(EMPTY, steps).List(l) == RunList([], steps, l)
  {
    RunIsRunList(EMPTY, steps, l);
  }

  lemma PlainListIsContribution(steps: seq<Step>, l: ListField)
    requires PlainList(l)
    ensures Run(EMPTY, steps).List(l) == Contribution(steps, l)
  {
    EmptyRunList(steps, l);
    RunPlainList([], steps, l);
    assert [] + Contribution(steps, l) == Contribution(steps, l);
  }

  lemma MergedPlainList(a: seq<Step>, b: seq<Step>, l: ListField)
    requires PlainList(l)
    ensures Run(EMPTY, a + b).List(l) == Merge(Run(EMPTY, a), Run(EMPTY, b)).List(l)
  {
    PlainListIsContribution(a + b, l);
    PlainListIsContribution(a, l);
    PlainListIsContribution(b, l);
    ContributionAppend(a, b, l);
    MergedList(Run(EMPTY, a), Run(EMPTY, b), l);
  }

  // ---- the two lists for which it can fail ----

  predicate OwnHandler(h: Handler) {
    h.AppendField? || h.ForwardHandler? ==> PlainList(h.list)
  }

  predicate OwnHandlers(steps: seq<Step>) {
    forall i :: 0 <= i < |steps| ==> OwnHandler(steps[i].handler)
  }

  predicate Clears(steps: seq<Step>) {
    exists i :: 0 <= i < |steps| && steps[i].handler == IdentityFileHandler && IsNone(steps[i].value)
  }

  /** What earlier steps left in IdentityFile survives unless a "none" clears it. */
  lemma {:induction false} IdentitySplit(x: seq<Item>, y: seq<Item>, steps: seq<Step>)
    requires OwnHandlers(steps)
    ensures RunList(x + y, steps, IdentityFile) ==
            (if Clears(steps) then [] else x) + RunList(y, steps, IdentityFile)
    decreases |steps|
  {
    if steps != [] {
      var h, value, rest := steps[0].handler, steps[0].value, steps[1..];
      assert OwnHandler(h);
      assert OwnHandlers(rest);
      ClearsRest(steps);
      if h == IdentityFileHandler && IsNone(value) {
        assert [] + RunList([], rest, IdentityFile) == RunList([], rest, IdentityFile);
      } else if h == IdentityFileHandler {
        assert x + y + [Text(value)] == x + (y + [Text(value)]);
        IdentitySplit(x, y + [Text(value)], rest);
      } else {
        IdentitySplit(x, y, rest);
      }
    }
  }

  lemma ClearsRest(steps: seq<Step>)
    requires steps != []
    ensures Clears(steps) <==> (steps[0].handler == IdentityFileHandler && IsNone(steps[0].value)) || Clears(steps[1..])
  {
    if Clears(steps[1..]) {
      var i :| 0 <= i < |steps[1..]| && steps[1..][i].handler == IdentityFileHandler && IsNone(steps[1..][i].value);
      assert steps[i + 1] == steps[1..][i];
    }
    if Clears(steps) {
      var i :| 0 <= i < |steps| && steps[i].handler == IdentityFileHandler && IsNone(steps[i].value);
      if i > 0 { assert steps[1..][i - 1] == steps[i]; }
    }
  }

  /** IdentityFile follows the law exactly when A leaves it empty or B never says "none". */
  lemma IdentityFileLawIff(a: seq<Step>, b: seq<Step>)
    requires OwnHandlers(b)
    ensures Run(EMPTY, a + b).List(IdentityFile) == Merge(Run(EMPTY, a), Run(EMPTY, b)).List(IdentityFile)
            <==> Run(EMPTY, a).List(IdentityFile) == [] || !Clears(b)
  {
    EmptyRunList(a + b, IdentityFile);
    EmptyRunList(a, IdentityFile);
    EmptyRunList(b, IdentityFile);
    RunListAppend([], a, b, IdentityFile);
    var x, y := RunList([], a, IdentityFile), RunList([], b, IdentityFile);
    assert x + [] == x;
    IdentitySplit(x, [], b);
    MergedList(Run(EMPTY, a), Run(EMPTY, b), IdentityFile);
    if x + y == [] + y { assert |x| == 0; }
  }

  /** The patterns a list of steps removes from SendEnv. */
  function RemovedBy(words: seq<string>): set<string> {
    if words == [] then {} else (if "-" <= words[0] then {words[0][1..]} else {}) + RemovedBy(words[1..])
  }

  function Removals(steps: seq<Step>): set<string> {
    if steps == [] then {}
    else (if steps[0].handler == SendEnvHandler then RemovedBy(Fields(steps[0].value)) else {}) + Removals(steps[1..])
  }

  predicate Removed(item: Item, patterns: set<string>) {
    item.Text? && exists p :: p in patterns && Matches(p, item.s)
  }

  function Survivors(items: seq<Item>, patterns: set<string>): seq<Item> {
    if items == [] then []
    else if Removed(items[0], patterns) then Survivors(items[1..], patterns)
    else [items[0]] + Survivors(items[1..], patterns)
  }

  lemma {:induction false} SurvivorsAppend(x: seq<Item>, y: seq<Item>, ps: set<string>)
    ensures Survivors(x + y, ps) == Survivors(x, ps) + Survivors(y, ps)
  {
    if x == [] {
      assert x + y == y;
    } else {
      assert (x + y)[0] == x[0] && (x + y)[1..] == x[1..] + y;
      SurvivorsAppend(x[1..], y, ps);
    }
  }

  lemma {:induction false} SurvivorsTwice(x: seq<Item>, p: set<string>, q: set<string>)
    ensures Survivors(Survivors(x, p), q) == Survivors(x, p + q)
  {
    if x != [] {
      SurvivorsTwice(x[1..], p, q);
      assert Removed(x[0], p + q) <==> Removed(x[0], p) || Removed(x[0], q);
    }
  }

  lemma {:induction false} NothingRemoved(x: seq<Item>)
    ensures Survivors(x, {}) == x
  {
    if x != [] { NothingRemoved(x[1..]); }
  }

  lemma {:induction false} WithoutIsSurvivors(x: seq<Item>, p: string)
    ensures WithoutMatches(x, p) == Survivors(x, {p})
  {
    if x != [] {
      WithoutIsSurvivors(x[1..], p);
      assert Removed(x[0], {p}) <==> x[0].Text? && Matches(p, x[0].s);
    }
  }

  lemma {:induction false} SendEnvWordsSplit(x: seq<Item>, y: seq<Item>, words: seq<string>)
    ensures SendEnvWords(x + y, words) == Survivors(x, RemovedBy(words)) + SendEnvWords(y, words)
    decreases |words|
  {
    if words == [] {
      NothingRemoved(x);
    } else {
      var w, rest := words[0], words[1..];
      if "-" <= w {
        var p := w[1..];
        WithoutIsSurvivors(x + y, p);
        WithoutIsSurvivors(y, p);
        SurvivorsAppend(x, y, {p});
        SendEnvWordsSplit(Survivors(x, {p}), Survivors(y, {p}), rest);
        SurvivorsTwice(x, {p}, RemovedBy(rest));
      } else {
        assert x + y + [Text(w)] == x + (y + [Text(w)]);
        SendEnvWordsSplit(x, y + [Text(w)], rest);
        assert {} + RemovedBy(rest) == RemovedBy(rest);
      }
    }
  }

  lemma {:induction false} SendEnvSplit(x: seq<Item>, y: seq<Item>, steps: seq<Step>)
    requires OwnHandlers(steps)
    ensures RunList(x + y, steps, SendEnv) == Survivors(x, Removals(steps)) + RunList(y, steps, SendEnv)
    decreases |steps|
  {
    if steps == [] {
      NothingRemoved(x);
    } else {
      var h, rest := steps[0].handler, steps[1..];
      assert OwnHandler(h);
      assert OwnHandlers(rest);
      if h == SendEnvHandler {
        var words := Fields(steps[0].value);
        SendEnvWordsSplit(x, y, words);
        SendEnvSplit(Survivors(x, RemovedBy(words)), SendEnvWords(y, words), rest);
        SurvivorsTwice(x, RemovedBy(words), Removals(rest));
      } else {
        SendEnvSplit(x, y, rest);
        assert {} + Removals(rest) == Removals(rest);
      }
    }
  }

  lemma {:induction false} AllSurviveIff(x: seq<Item>, ps: set<string>)
    ensures |Survivors(x, ps)| <= |x|
    ensures Survivors(x, ps) == x <==> forall i :: 0 <= i < |x| ==> !Removed(x[i], ps)
  {
    if x != [] {
      AllSurviveIff(x[1..], ps);
      assert forall i :: 0 < i < |x| ==> x[i] == x[1..][i - 1];
      if Removed(x[0], ps) {
        assert |Survivors(x, ps)| < |x|;
      } else {
        assert Survivors(x, ps) == x <==> Survivors(x[1..], ps) == x[1..] by {
          assert x == [x[0]] + x[1..];
          assert ([x[0]] + Survivors(x[1..], ps))[1..] == Survivors(x[1..], ps);
        }
      }
    }
  }

  /** SendEnv follows the law exactly when no name A sends is removed by a pattern of B. */
  lemma SendEnvLawIff(a: seq<Step>, b: seq<Step>)
    requires OwnHandlers(b)
    ensures Run(EMPTY, a + b).List(SendEnv) == Merge(Run(EMPTY, a), Run(EMPTY, b)).List(SendEnv)
            <==> forall i :: 0 <= i < |Run(EMPTY, a).List(SendEnv)| ==>
                   !Removed(Run(EMPTY, a).List(SendEnv)[i], Removals(b))
  {
    EmptyRunList(a + b, SendEnv);
    EmptyRunList(a, SendEnv);
    EmptyRunList(b, SendEnv);
    RunListAppend([], a, b, SendEnv);
    var x, y := RunList([], a, SendEnv), RunList([], b, SendEnv);
    assert x + [] == x;
    SendEnvSplit(x, [], b);
    AllSurviveIff(x, Removals(b));
    MergedList(Run(EMPTY, a), Run(EMPTY, b), SendEnv);
    SamePrefix(Survivors(x, Removals(b)), x, y);
  }

  lemma SamePrefix(a: seq<Item>, b: seq<Item>, c: seq<Item>)
    ensures a + c == b + c <==> a == b
  {
    if a + c == b + c {
      assert |a| == |b|;
      assert a == (a + c)[..|a|] && b == (b + c)[..|b|];
    }
  }

  lemma {:induction false} EffectiveOwn(t: Table, ignored: set<string>, ds: seq<Directive>)
    requires TableOk(t)
    ensures OwnHandlers(Effective(t, ignored, ds))
    decreases |ds|
  {
    if ds != [] {
      var keyword := ToLower(ds[0].keyword);
      if Suppressed(t, ignored, keyword) {
        EffectiveOwn(t, ignored, ds[1..]);
      } else if keyword in t && !Rejects(t[keyword], ds[0].value) {
        EffectiveOwn(t, IgnoredAfter(ignored, Step(t[keyword], ds[0].value)), ds[1..]);
      }
    }
  }

  /** The homomorphism on the two remaining lists of directive lists that apply: it holds for
      IdentityFile exactly when A leaves it empty or B never says "none", and for SendEnv exactly when
      B removes no name A sends. */
  lemma OtherListsLawIff(t: Table, a: seq<Directive>, b: seq<Directive>)
    requires TableOk(t) && Untouched(t, Ignoring(t, {}, a), b)
    requires ApplyAll(t, EMPTY, a).Ok? && ApplyAll(t, EMPTY, b).Ok?
    ensures ApplyAll(t, EMPTY, a + b).Ok?
    ensures var x, y, both := ApplyAll(t, EMPTY, a).value, ApplyAll(t, EMPTY, b).value, ApplyAll(t, EMPTY, a + b).value;
            var steps := Effective(t, {}, b);
            && (both.List(IdentityFile) == Merge(x, y).List(IdentityFile)
                <==> x.List(IdentityFile) == [] || !Clears(steps))
            && (both.List(SendEnv) == Merge(x, y).List(SendEnv)
                <==> forall i :: 0 <= i < |x.List(SendEnv)| ==> !Removed(x.List(SendEnv)[i], Removals(steps)))
  {
    ApplyAllRuns(t, EMPTY, a);
    ApplyAllRuns(t, EMPTY, b);
    ApplyAllRuns(t, EMPTY, a + b);
    AppendOfUntouched(t, a, b);
    EffectiveOwn(t, {}, b);
    IdentityFileLawIff(Effective(t, {}, a), Effective(t, {}, b));
    SendEnvLawIff(Effective(t, {}, a), Effective(t, {}, b));
  }
}
