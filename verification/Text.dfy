/** The string vocabulary shared by the other modules.
    A Go string is a byte string; here every byte is one `char`, and the classification of
    characters (white space, case) is the ASCII one. */
module Text {

  datatype Option<+T> = None | Some(value: T) {
    function GetOr(default: T): T {
      if Some? then value else default
    }
  }

  datatype Result<+T, +E> = Ok(value: T) | Err(error: E)

  /** The ASCII part of unicode.IsSpace: tab, newline, vertical tab, form feed, return, space. */
  predicate IsSpace(c: char) {
    c == ' ' || 9 <= c as int <= 13
  }

  /** The two separators the hand-written splitters of the configuration parser look at. */
  predicate IsBlank(c: char) {
    c == ' ' || c == '\t'
  }

  function Lower(c: char): char {
    if 'A' <= c <= 'Z' then ((c as int) + 32) as char else c
  }

  /** strings.ToLower */
  function ToLower(s: string): (r: string)
    ensures |r| == |s| && forall i :: 0 <= i < |s| ==> r[i] == Lower(s[i])
  {
    seq(|s|, i requires 0 <= i < |s| => Lower(s[i]))
  }

  lemma Assoc<T>(a: seq<T>, b: seq<T>, c: seq<T>)
    ensures a + (b + c) == a + b + c
  {
  }

  /** Moving one character across a cut. */
  lemma Shift(a: string, s: string, i: nat, rest: string)
    requires i < |s| && a == s[..i]
    ensures a + ([s[i]] + rest) == s[..i + 1] + rest
    ensures s[i..] != "" && s[i..][0] == s[i] && s[i..][1..] == s[i + 1..]
  {
  }

  function TrimLeft(s: string): string {
    if s != "" && IsSpace(s[0]) then TrimLeft(s[1..]) else s
  }

  function TrimRight(s: string): string {
    if s != "" && IsSpace(s[|s| - 1]) then TrimRight(s[..|s| - 1]) else s
  }

  /** strings.TrimSpace */
  function TrimSpace(s: string): string {
    TrimRight(TrimLeft(s))
  }

  predicate AllSpace(s: string) {
    forall i :: 0 <= i < |s| ==> IsSpace(s[i])
  }

  lemma {:induction false} TrimLeftOf(w: string, s: string)
    requires AllSpace(w)
    ensures TrimLeft(w + s) == TrimLeft(s)
  {
    if w == "" {
      assert w + s == s;
    } else {
      assert (w + s)[1..] == w[1..] + s;
      TrimLeftOf(w[1..], s);
    }
  }

  lemma {:induction false} TrimRightOf(s: string, w: string)
    requires AllSpace(w)
    ensures TrimRight(s + w) == TrimRight(s)
    decreases |w|
  {
    if w == "" {
      assert s + w == s;
    } else {
      assert (s + w)[..|s + w| - 1] == s + w[..|w| - 1];
      TrimRightOf(s, w[..|w| - 1]);
    }
  }

  /** Trimming takes off white space only: what is left is empty or starts and ends with something else. */
  lemma {:induction false} TrimLeftCuts(s: string) returns (w: string)
    ensures AllSpace(w) && s == w + TrimLeft(s)
    ensures TrimLeft(s) == "" || !IsSpace(TrimLeft(s)[0])
  {
    if s != "" && IsSpace(s[0]) {
      var rest := TrimLeftCuts(s[1..]);
      w := [s[0]] + rest;
      Assoc([s[0]], rest, TrimLeft(s));
    } else {
      w := "";
      assert w + s == s;
    }
  }

  lemma {:induction false} TrimRightCuts(s: string) returns (w: string)
    ensures AllSpace(w) && s == TrimRight(s) + w
    ensures TrimRight(s) == "" || !IsSpace(TrimRight(s)[|TrimRight(s)| - 1])
  {
    if s != "" && IsSpace(s[|s| - 1]) {
      var front := s[..|s| - 1];
      var rest := TrimRightCuts(front);
      w := rest + [s[|s| - 1]];
      assert s == front + [s[|s| - 1]];
      Assoc(TrimRight(s), rest, [s[|s| - 1]]);
    } else {
      w := "";
      assert s + w == s;
    }
  }

  /** White space around a text makes no difference to the trimmed text. */
  lemma TrimSpaceOf(w: string, s: string, v: string)
    requires AllSpace(w) && AllSpace(v)
    ensures TrimSpace(w + (s + v)) == TrimSpace(s)
  {
    TrimLeftOf(w, s + v);
    var u := TrimLeftCuts(s);
    var t := TrimLeft(s);
    assert s + v == u + (t + v);
    TrimLeftOf(u, t + v);
    if t == "" {
      assert t + v == v + "";
      TrimLeftOf(v, "");
    } else {
      assert TrimLeft(t + v) == t + v;
      TrimRightOf(t, v);
    }
  }

  lemma TrimSpaceIsTight(s: string)
    ensures var t := TrimSpace(s); t == "" || (!IsSpace(t[0]) && !IsSpace(t[|t| - 1]))
  {
    var w := TrimLeftCuts(s);
    var v := TrimRightCuts(TrimLeft(s));
    if TrimSpace(s) != "" { assert TrimLeft(s)[0] == TrimSpace(s)[0]; }
  }

  /** Nothing is left exactly of white space. */
  lemma TrimmedToNothingIff(s: string)
    ensures TrimSpace(s) == "" <==> AllSpace(s)
  {
    var w := TrimLeftCuts(s);
    var v := TrimRightCuts(TrimLeft(s));
    if AllSpace(s) {
      assert s == s + "";
      TrimLeftOf(s, "");
    }
  }

  /** strings.Split with a one-character separator: always at least one piece. */
  function Split(s: string, sep: char): (r: seq<string>)
    ensures |r| >= 1
  {
    if s == "" then [""]
    else if s[0] == sep then [""] + Split(s[1..], sep)
    else
      var rest := Split(s[1..], sep);
      [[s[0]] + rest[0]] + rest[1..]
  }

  /** strings.Join with a one-character separator. */
  function Join(pieces: seq<string>, sep: char): string {
    if pieces == [] then ""
    else if |pieces| == 1 then pieces[0]
    else pieces[0] + [sep] + Join(pieces[1..], sep)
  }

  lemma {:induction false} SplitPrefix(p: string, s: string, sep: char)
    requires sep !in p
    ensures Split(p + s, sep) == [p + Split(s, sep)[0]] + Split(s, sep)[1..]
  {
    if p == "" {
      assert p + s == s;
      assert "" + Split(s, sep)[0] == Split(s, sep)[0];
    } else {
      SplitPrefix(p[1..], s, sep);
      var tail := Split(s, sep);
      assert (p + s)[1..] == p[1..] + s;
      assert [p[0]] + (p[1..] + tail[0]) == p + tail[0];
      assert ([p[1..] + tail[0]] + tail[1..])[1..] == tail[1..];
    }
  }

  /** Splitting undoes joining when no piece contains the separator. */
  lemma {:induction false} SplitJoin(pieces: seq<string>, sep: char)
    requires pieces != []
    requires forall p :: p in pieces ==> sep !in p
    ensures Split(Join(pieces, sep), sep) == pieces
  {
    if |pieces| == 1 {
      SplitPrefix(pieces[0], "", sep);
      assert pieces[0] + "" == pieces[0];
    } else {
      var rest := [sep] + Join(pieces[1..], sep);
      SplitPrefix(pieces[0], rest, sep);
      assert pieces[0] + [sep] + Join(pieces[1..], sep) == pieces[0] + rest;
      assert rest[1..] == Join(pieces[1..], sep);
      SplitJoin(pieces[1..], sep);
      assert pieces[0] + "" == pieces[0];
    }
  }

  /** strings.Index for one character; the length when absent. */
  function IndexOf(s: string, c: char): (r: nat)
    ensures r <= |s| && c !in s[..r] && (r < |s| ==> s[r] == c)
  {
    if s == "" || s[0] == c then 0
    else
      var rest := IndexOf(s[1..], c);
      assert s[..rest + 1] == [s[0]] + s[1..][..rest];
      rest + 1
  }

  /** strings.SplitN */
  function SplitN(s: string, sep: char, n: nat): seq<string>
    requires n >= 1
  {
    var i := IndexOf(s, sep);
    if n == 1 || i == |s| then [s] else [s[..i]] + SplitN(s[i + 1..], sep, n - 1)
  }

  lemma {:induction false} IndexOfPrefix(p: string, s: string, c: char)
    requires c !in p && s != "" && s[0] == c
    ensures IndexOf(p + s, c) == |p|
  {
    if p == "" {
      assert p + s == s;
    } else {
      assert (p + s)[1..] == p[1..] + s;
      IndexOfPrefix(p[1..], s, c);
    }
  }

  lemma {:induction false} IndexOfAbsent(s: string, c: char)
    requires c !in s
    ensures IndexOf(s, c) == |s|
  {
    if s != "" { IndexOfAbsent(s[1..], c); }
  }

  function Emit(current: string): seq<string> {
    if current == "" then [] else [current]
  }

  /** strings.Fields, with the characters of the field being read in `current`. */
  function FieldsFrom(s: string, current: string): seq<string> {
    if s == "" then Emit(current)
    else if IsSpace(s[0]) then Emit(current) + FieldsFrom(s[1..], "")
    else FieldsFrom(s[1..], current + [s[0]])
  }

  function Fields(s: string): seq<string> {
    FieldsFrom(s, "")
  }

  predicate NoSpace(s: string) {
    forall i :: 0 <= i < |s| ==> !IsSpace(s[i])
  }

  lemma {:induction false} FieldsWord(w: string, s: string, current: string)
    requires NoSpace(w)
    ensures FieldsFrom(w + s, current) == FieldsFrom(s, current + w)
  {
    if w == "" {
      assert w + s == s && current + w == current;
    } else {
      FieldsWord(w[1..], s, current + [w[0]]);
      assert (w + s)[1..] == w[1..] + s;
      assert current + [w[0]] + w[1..] == current + w;
    }
  }

  /** Reading the fields of space-joined words gives the words back. */
  lemma {:induction false} FieldsJoin(ws: seq<string>)
    requires forall w :: w in ws ==> w != "" && NoSpace(w)
    ensures Fields(Join(ws, ' ')) == ws
  {
    if ws == [] {
    } else if |ws| == 1 {
      FieldsWord(ws[0], "", "");
      assert ws[0] + "" == ws[0] && "" + ws[0] == ws[0];
    } else {
      var rest := " " + Join(ws[1..], ' ');
      FieldsWord(ws[0], rest, "");
      assert ws[0] + [' '] + Join(ws[1..], ' ') == ws[0] + rest;
      assert "" + ws[0] == ws[0];
      assert rest[1..] == Join(ws[1..], ' ');
      assert forall w :: w in ws[1..] ==> w in ws;
      FieldsJoin(ws[1..]);
    }
  }

  // ---- subsequences ----

  /** `a` is `b` with some elements left out. */
  predicate Subsequence<T(==)>(a: seq<T>, b: seq<T>) {
    if a == [] then true
    else if b == [] then false
    else if a[0] == b[0] then Subsequence(a[1..], b[1..])
    else Subsequence(a, b[1..])
  }

  lemma {:induction false} SkipOne<T>(a: seq<T>, b: seq<T>, x: T)
    requires Subsequence(a, b)
    ensures Subsequence(a, [x] + b)
    decreases |b|, 1
  {
    assert ([x] + b)[1..] == b;
    if a != [] && a[0] == x {
      DropFirst(a, b);
    }
  }

  lemma {:induction false} DropFirst<T>(a: seq<T>, b: seq<T>)
    requires a != [] && Subsequence(a, b)
    ensures Subsequence(a[1..], b)
    decreases |b|, 0
  {
    if a[0] == b[0] {
      SkipOne(a[1..], b[1..], b[0]);
      assert [b[0]] + b[1..] == b;
    } else {
      DropFirst(a, b[1..]);
      SkipOne(a[1..], b[1..], b[0]);
      assert [b[0]] + b[1..] == b;
    }
  }
}
