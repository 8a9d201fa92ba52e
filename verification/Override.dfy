/** The `-o` options of a command line. */
module Override {
  import opened Text
  import opened Parser

  /** ParseOverride; None is either of its two errors. */
  function ParseOverride(opt: string): Option<(string, string)> {
    var i := IndexOf(opt, '=');
    if 0 < i < |opt| then
      var keyword := TrimSpace(opt[..i]);
      if keyword == "" then None else Some((keyword, TrimSpace(opt[i + 1..])))
    else
      var fields := SplitN(opt, ' ', 2);
      if fields[0] == "" then None
      else Some((fields[0], if |fields| > 1 then TrimSpace(fields[1]) else ""))
  }

  function Readings(opts: seq<string>): (r: seq<Option<(string, string)>>)
    ensures |r| == |opts|
  {
    seq(|opts|, i requires 0 <= i < |opts| => ParseOverride(opts[i]))
  }

  /** The entries of overrides numbered from `n` on; the number of a wrong one. */
  function EntriesOf(rs: seq<Option<(string, string)>>, n: nat): Result<seq<Entry>, nat>
    decreases |rs|
  {
    if rs == [] then Ok([])
    else match rs[0]
      case None => Err(n)
      case Some((keyword, value)) =>
        match EntriesOf(rs[1..], n + 1)
        case Err(e) => Err(e)
        case Ok(rest) => Ok([Entry(None, keyword, value, SourceInfo("command-line", n))] + rest)
  }

  function OverrideEntries(opts: seq<string>, n: nat): Result<seq<Entry>, nat> {
    EntriesOf(Readings(opts), n)
  }

  /** Entries in front of the rest, or its error. */
  function Behind(before: seq<Entry>, r: Result<seq<Entry>, nat>): Result<seq<Entry>, nat> {
    match r
    case Ok(rest) => Ok(before + rest)
    case Err(e) => Err(e)
  }

  lemma BehindTwice(a: seq<Entry>, b: seq<Entry>, r: Result<seq<Entry>, nat>)
    ensures Behind(a, Behind(b, r)) == Behind(a + b, r)
  {
    if r.Ok? { Assoc(a, b, r.value); }
  }

  /** ParseOverrides */
  method ParseOverrides(opts: seq<string>) returns (r: Result<seq<Entry>, nat>)
    ensures r == OverrideEntries(opts, 1)
  {
    var entries: seq<Entry> := [];
    ghost var rs := Readings(opts);
    ghost var goal := OverrideEntries(opts, 1);
    assert rs[0..] == rs;
    assert goal == Behind([], goal) by { if goal.Ok? { assert [] + goal.value == goal.value; } }
    for i := 0 to |opts|
      invariant goal == Behind(entries, EntriesOf(rs[i..], i + 1))
    {
      assert rs[i..][0] == rs[i] && rs[i..][1..] == rs[i + 1..];
      var parsed := ParseOverride(opts[i]);
      assert parsed == rs[i];
      if parsed.None? { return Err(i + 1); }
      var (keyword, value) := parsed.value;
      var entry := Entry(None, keyword, value, SourceInfo("command-line", i + 1));
      BehindTwice(entries, [entry], EntriesOf(rs[i + 1..], i + 2));
      entries := entries + [entry];
    }
    assert entries + [] == entries;
    return Ok(entries);
  }

  lemma {:induction false} EntriesAreUnconditional(rs: seq<Option<(string, string)>>, n: nat)
    requires EntriesOf(rs, n).Ok?
    ensures |EntriesOf(rs, n).value| == |rs|
    ensures forall e :: e in EntriesOf(rs, n).value ==> e.conditions == None
    decreases |rs|
  {
    if rs != [] {
      EntriesAreUnconditional(rs[1..], n + 1);
    }
  }

  /** Every entry of an override is unconditional. */
  lemma OverridesAreUnconditional(opts: seq<string>, n: nat)
    requires OverrideEntries(opts, n).Ok?
    ensures |OverrideEntries(opts, n).value| == |opts|
    ensures forall e :: e in OverrideEntries(opts, n).value ==> e.conditions == None
  {
    EntriesAreUnconditional(Readings(opts), n);
  }

  // ---- the two forms of an override ----

  predicate Trimmed(s: string) {
    s == "" || (!IsSpace(s[0]) && !IsSpace(s[|s| - 1]))
  }

  lemma TrimmedStays(s: string)
    requires Trimmed(s)
    ensures TrimSpace(s) == s
  {
  }

  predicate OptionName(k: string) {
    k != "" && NoSpace(k) && '=' !in k
  }

  /** keyword=value is always taken apart at its first '='. */
  lemma EqualsForm(k: string, value: string)
    requires OptionName(k) && Trimmed(value)
    ensures ParseOverride(k + ("=" + value)) == Some((k, value))
  {
    var opt := k + ("=" + value);
    IndexOfPrefix(k, "=" + value, '=');
    assert opt[..|k|] == k && opt[|k| + 1..] == value;
    TrimmedStays(k);
    TrimmedStays(value);
  }

  /** keyword and value around a blank are recovered exactly when the value has no '=': otherwise the
      keyword and the front of the value are taken for the keyword. */
  lemma BlankFormIff(k: string, value: string)
    requires OptionName(k) && Trimmed(value)
    ensures ParseOverride(k + (" " + value)) == Some((k, value)) <==> '=' !in value
  {
    var opt := k + (" " + value);
    if '=' in value {
      EqualsBehind(k, value);
      TrimShortens(opt[IndexOf(opt, '=') + 1..]);
    } else {
      assert '=' !in k + (" " + value);
      IndexOfAbsent(opt, '=');
      BlankCuts(k, value);
      TrimmedStays(value);
    }
  }

  lemma BlankCuts(k: string, value: string)
    requires NoSpace(k)
    ensures SplitN(k + (" " + value), ' ', 2) == [k, value]
  {
    var opt := k + (" " + value);
    IndexOfPrefix(k, " " + value, ' ');
    assert opt[..|k|] == k && opt[|k| + 1..] == value;
    assert SplitN(value, ' ', 1) == [value];
  }

  lemma EqualsBehind(k: string, value: string)
    requires '=' !in k && '=' in value
    ensures var opt := k + (" " + value);
            |k| < IndexOf(opt, '=') < |opt|
  {
    var opt, front := k + (" " + value), k + " ";
    assert opt == front + value && '=' !in front;
    assert opt[..IndexOf(opt, '=')] == opt ==> '=' !in opt;
    assert forall j :: 0 <= j <= |k| ==> opt[j] == front[j];
  }

  lemma {:induction false} TrimLeftShortens(s: string)
    ensures |TrimLeft(s)| <= |s|
  {
    if s != "" && IsSpace(s[0]) { TrimLeftShortens(s[1..]); }
  }

  lemma {:induction false} TrimRightShortens(s: string)
    ensures |TrimRight(s)| <= |s|
  {
    if s != "" && IsSpace(s[|s| - 1]) { TrimRightShortens(s[..|s| - 1]); }
  }

  lemma TrimShortens(s: string)
    ensures |TrimSpace(s)| <= |s|
  {
    TrimLeftShortens(s);
    TrimRightShortens(TrimLeft(s));
  }

  // ---- wrong overrides ----

  lemma {:induction false} EntriesFailIff(rs: seq<Option<(string, string)>>, n: nat)
    ensures EntriesOf(rs, n).Ok? <==> forall i :: 0 <= i < |rs| ==> rs[i].Some?
    ensures EntriesOf(rs, n).Err? ==>
              var i := EntriesOf(rs, n).error - n;
              0 <= i < |rs| && rs[i] == None && forall j :: 0 <= j < i ==> rs[j].Some?
    decreases |rs|
  {
    if rs != [] {
      EntriesFailIff(rs[1..], n + 1);
      assert rs == [rs[0]] + rs[1..];
    }
  }

  /** Overrides are read exactly when each of them is right; otherwise the first wrong one is reported by its
      number. */
  lemma OverridesFailIff(opts: seq<string>, n: nat)
    ensures OverrideEntries(opts, n).Ok? <==> forall i :: 0 <= i < |opts| ==> ParseOverride(opts[i]).Some?
    ensures OverrideEntries(opts, n).Err? ==>
              var i := OverrideEntries(opts, n).error - n;
              && 0 <= i < |opts| && ParseOverride(opts[i]) == None
              && forall j :: 0 <= j < i ==> ParseOverride(opts[j]).Some?
  {
    EntriesFailIff(Readings(opts), n);
    assert forall i :: 0 <= i < |opts| ==> Readings(opts)[i] == ParseOverride(opts[i]);
  }
}
