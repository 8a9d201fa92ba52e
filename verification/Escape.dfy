/** The escape reader of an interactive session: a byte transducer driven through Read calls. */
module Escape {
  import opened Text

  type byte = b: int | 0 <= b < 256

  const CR: byte := 13
  const LF: byte := 10
  const DOT: byte := 46
  const QUESTION: byte := 63

  // ---- the transducer ----

  /** Everything the reader forwards of `input`, the first byte being at a line start or not. */
  function Forwarded(esc: byte, atStart: bool, input: seq<byte>): seq<byte>
    decreases |input|
  {
    if esc == 0 then input
    else if input == [] then []
    else
      var b, rest := input[0], input[1..];
      if b == CR || b == LF then [b] + Forwarded(esc, true, rest)
      else if atStart && b == esc then
        if rest == [] then [b]
        else if rest[0] == DOT then []
        else if rest[0] == QUESTION then Forwarded(esc, false, rest[1..])
        else if rest[0] == esc then [esc] + Forwarded(esc, false, rest[1..])
        else [esc, rest[0]] + Forwarded(esc, false, rest[1..])
      else [b] + Forwarded(esc, false, rest)
  }

  /** Whether the user disconnects with an escaped dot. */
  predicate Disconnects(esc: byte, atStart: bool, input: seq<byte>)
    decreases |input|
  {
    if esc == 0 || input == [] then false
    else
      var b, rest := input[0], input[1..];
      if b == CR || b == LF then Disconnects(esc, true, rest)
      else if atStart && b == esc then
        rest != [] && (rest[0] == DOT || Disconnects(esc, false, rest[1..]))
      else Disconnects(esc, false, rest)
  }

  /** The escape byte named by an EscapeChar value; 0 for none. */
  function EscapeByte(setting: seq<byte>): byte {
    if setting == [] then 126
    else if setting == [110, 111, 110, 101] then 0
    else if |setting| == 2 && setting[0] == 94 then setting[1] % 32
    else setting[0]
  }

  // ---- one call ----

  /** One Read: what it stores, what is left of the input, the line-start flag, whether it reports
      end-of-file, and whether it calls closeFn. */
  datatype Step = Step(out: seq<byte>, left: seq<byte>, atStart: bool, end: bool, closes: bool)

  /** A Read into a buffer of `room` bytes while an escape byte is set. */
  function StepOf(esc: byte, atStart: bool, source: seq<byte>, room: nat): Step {
    if source == [] then Step([], [], atStart, true, false)
    else
      var b, rest := source[0], source[1..];
      if b == CR || b == LF then Step([b], rest, true, false, false)
      else if atStart && b == esc then
        if rest == [] then Step([b], [], false, true, false)
        else if rest[0] == DOT then Step([], rest[1..], false, true, true)
        else if rest[0] == QUESTION then Step([], rest[1..], false, false, false)
        else if rest[0] == esc then Step([esc], rest[1..], false, false, false)
        else Step(if room >= 2 then [esc, rest[0]] else [esc], rest[1..], false, false, false)
      else Step([b], rest, false, false, false)
  }

  /** With room for two bytes, what a call stores followed by what is still to be forwarded is what was
      to be forwarded before it. */
  lemma StepForwards(esc: byte, atStart: bool, source: seq<byte>, room: nat)
    requires esc != 0 && room >= 2
    ensures var s := StepOf(esc, atStart, source, room);
            && Forwarded(esc, atStart, source) == s.out + (if s.end then [] else Forwarded(esc, s.atStart, s.left))
            && Disconnects(esc, atStart, source) == (s.closes || (!s.end && Disconnects(esc, s.atStart, s.left)))
            && (s.closes ==> s.end)
            && (!s.end ==> |s.left| < |source|)
  {
    var s := StepOf(esc, atStart, source, room);
    assert s.out + [] == s.out;
  }

  /** Where a one-byte buffer loses a byte: exactly at an unrecognised escape. */
  predicate LosesByte(esc: byte, atStart: bool, source: seq<byte>) {
    && |source| >= 2 && atStart && source[0] == esc && esc != CR && esc != LF
    && source[1] != DOT && source[1] != QUESTION && source[1] != esc
  }

  /** A one-byte buffer works like a larger one except that at an unrecognised escape the byte behind the
      escape byte is gone. */
  lemma OneByteBuffer(esc: byte, atStart: bool, source: seq<byte>)
    ensures var one, two := StepOf(esc, atStart, source, 1), StepOf(esc, atStart, source, 2);
            && one == two.(out := one.out)
            && (one.out != two.out <==> LosesByte(esc, atStart, source))
            && (one.out != two.out ==> two.out == one.out + [source[1]])
  {
  }

  // ---- calls in a row ----

  /** Reads into buffers of the given sizes, up to the one that reports end-of-file: everything stored,
      and the state left behind. */
  function Calls(esc: byte, atStart: bool, source: seq<byte>, sizes: seq<nat>): Step
    decreases |sizes|
  {
    if sizes == [] then Step([], source, atStart, false, false)
    else
      var s := StepOf(esc, atStart, source, sizes[0]);
      if s.end then s
      else
        var rest := Calls(esc, s.atStart, s.left, sizes[1..]);
        rest.(out := s.out + rest.out)
  }

  /** The calls with a one-byte buffer that meet an unrecognised escape. */
  function Losses(esc: byte, atStart: bool, source: seq<byte>, sizes: seq<nat>): nat
    decreases |sizes|
  {
    if sizes == [] then 0
    else
      var s := StepOf(esc, atStart, source, sizes[0]);
      (if sizes[0] == 1 && LosesByte(esc, atStart, source) then 1 else 0)
      + if s.end then 0 else Losses(esc, s.atStart, s.left, sizes[1..])
  }

  /** What is stored, and what is still to be forwarded unless the end was reported. */
  function Total(esc: byte, s: Step): seq<byte> {
    s.out + if s.end then [] else Forwarded(esc, s.atStart, s.left)
  }

  /** One call with any buffer. */
  lemma StepTotal(esc: byte, atStart: bool, source: seq<byte>, size: nat)
    requires esc != 0 && size >= 1
    ensures var s, loss := StepOf(esc, atStart, source, size), size == 1 && LosesByte(esc, atStart, source);
            && (!loss ==> Total(esc, s) == Forwarded(esc, atStart, source))
            && |Total(esc, s)| + (if loss then 1 else 0) == |Forwarded(esc, atStart, source)|
            && Disconnects(esc, atStart, source) == (s.closes || (!s.end && Disconnects(esc, s.atStart, s.left)))
            && (!s.end ==> !s.closes && |s.left| < |source|)
  {
    StepForwards(esc, atStart, source, if size == 1 then 2 else size);
    if size == 1 { OneByteBuffer(esc, atStart, source); }
  }

  lemma TotalOfCalls(esc: byte, first: Step, rest: Step)
    requires !first.end
    ensures Total(esc, rest.(out := first.out + rest.out)) == first.out + Total(esc, rest)
  {
    var more := if rest.end then [] else Forwarded(esc, rest.atStart, rest.left);
    Assoc(first.out, rest.out, more);
  }

  lemma {:induction false} CallsTotal(esc: byte, atStart: bool, source: seq<byte>, sizes: seq<nat>)
    requires esc != 0 && forall i :: 0 <= i < |sizes| ==> sizes[i] >= 1
    ensures var c, losses := Calls(esc, atStart, source, sizes), Losses(esc, atStart, source, sizes);
            && (losses == 0 ==> Total(esc, c) == Forwarded(esc, atStart, source))
            && |Total(esc, c)| + losses == |Forwarded(esc, atStart, source)|
    decreases |sizes|
  {
    if sizes == [] {
      assert [] + Forwarded(esc, atStart, source) == Forwarded(esc, atStart, source);
    } else {
      var s := StepOf(esc, atStart, source, sizes[0]);
      StepTotal(esc, atStart, source, sizes[0]);
      if !s.end {
        CallsTotal(esc, s.atStart, s.left, sizes[1..]);
        TotalOfCalls(esc, s, Calls(esc, s.atStart, s.left, sizes[1..]));
      }
    }
  }

  /** Whatever the buffers, what the calls store followed by what is still to be forwarded is the
      transducer's output exactly when no one-byte buffer meets an unrecognised escape. */
  lemma CallsForwardIff(esc: byte, atStart: bool, source: seq<byte>, sizes: seq<nat>)
    requires esc != 0 && forall i :: 0 <= i < |sizes| ==> sizes[i] >= 1
    ensures Total(esc, Calls(esc, atStart, source, sizes)) == Forwarded(esc, atStart, source)
            <==> Losses(esc, atStart, source, sizes) == 0
  {
    CallsTotal(esc, atStart, source, sizes);
  }

  /** The calls disconnect when the input does, at the latest with as many calls as there are bytes and
      one more. */
  lemma {:induction false} CallsEnd(esc: byte, atStart: bool, source: seq<byte>, sizes: seq<nat>)
    requires esc != 0 && forall i :: 0 <= i < |sizes| ==> sizes[i] >= 1
    ensures var c := Calls(esc, atStart, source, sizes);
            && Disconnects(esc, atStart, source) == (c.closes || (!c.end && Disconnects(esc, c.atStart, c.left)))
            && (c.closes ==> c.end)
            && (|sizes| > |source| ==> c.end)
    decreases |sizes|
  {
    if sizes != [] {
      var s := StepOf(esc, atStart, source, sizes[0]);
      StepTotal(esc, atStart, source, sizes[0]);
      if !s.end {
        CallsEnd(esc, s.atStart, s.left, sizes[1..]);
      }
    }
  }

  // ---- the reader ----

  datatype ReadError = NoError | EndOfFile

  class EscapeReader {
    const esc: byte
    /** What the wrapped reader still has to deliver; it ends with end-of-file. */
    var source: seq<byte>
    var atStart: bool
    /** How often closeFn has been called. */
    var closed: nat

    constructor (setting: seq<byte>, source: seq<byte>)
      ensures esc == EscapeByte(setting) && this.source == source && atStart && closed == 0
    {
      this.esc := EscapeByte(setting);
      this.source := source;
      this.atStart := true;
      this.closed := 0;
    }

    /** The wrapped reader filling a one-byte buffer; `ok` is false at the end of its bytes. */
    method ReadByte() returns (ok: bool, b: byte)
      modifies this`source
      ensures ok == (old(source) != [])
      ensures ok ==> b == old(source)[0] && source == old(source)[1..]
      ensures !ok ==> source == old(source)
    {
      if source == [] { return false, 0; }
      b := source[0];
      source := source[1..];
      ok := true;
    }

    /** The wrapped reader filling a larger buffer: some of its bytes, at least one. */
    method ReadThrough(p: array<byte>) returns (n: nat, error: ReadError)
      requires p.Length > 0
      modifies this`source, p
      ensures n <= p.Length && n <= |old(source)|
      ensures p[..n] == old(source)[..n] && source == old(source)[n..]
      ensures error == EndOfFile <==> old(source) == []
      ensures old(source) != [] ==> n > 0
    {
      if source == [] { return 0, EndOfFile; }
      n := if |source| < p.Length then |source| else p.Length;
      for i := 0 to n
        invariant source == old(source)
        invariant p[..i] == old(source)[..i]
      {
        p[i] := source[i];
      }
      source := source[n..];
      error := NoError;
    }

    /** Read */
    method Read(p: array<byte>) returns (n: nat, error: ReadError)
      requires p.Length > 0
      modifies this, p
      ensures n <= p.Length
      ensures esc != 0 ==>
                var s := StepOf(esc, old(atStart), old(source), p.Length);
                && p[..n] == s.out && source == s.left && atStart == s.atStart
                && (error == EndOfFile <==> s.end)
                && closed == old(closed) + if s.closes then 1 else 0
      ensures esc == 0 ==>
                && n <= |old(source)| && p[..n] == old(source)[..n] && source == old(source)[n..]
                && (error == EndOfFile <==> old(source) == [])
                && (error == NoError ==> n > 0)
                && closed == old(closed)
    {
      if esc == 0 {
        n, error := ReadThrough(p);
        return;
      }
      var ok, b := ReadByte();
      if !ok { return 0, EndOfFile; }
      if b == CR || b == LF {
        atStart := true;
        p[0] := b;
        return 1, NoError;
      }
      if atStart && b == esc {
        atStart := false;
        var ok2, next := ReadByte();
        if !ok2 {
          p[0] := b;
          return 1, EndOfFile;
        }
        if next == DOT {
          closed := closed + 1;
          return 0, EndOfFile;
        } else if next == QUESTION {
          return 0, NoError;
        } else if next == esc {
          p[0] := esc;
          return 1, NoError;
        } else {
          p[0] := esc;
          if p.Length >= 2 {
            p[1] := next;
            return 2, NoError;
          }
          return 1, NoError;
        }
      }
      atStart := false;
      p[0] := b;
      return 1, NoError;
    }
  }

  /** One call through a fresh buffer. */
  method ReadSome(r: EscapeReader, size: nat) returns (out: seq<byte>, end: bool)
    requires size >= 1
    modifies r
    ensures r.esc != 0 ==>
              var s := StepOf(r.esc, old(r.atStart), old(r.source), size);
              && out == s.out && end == s.end && r.source == s.left && r.atStart == s.atStart
              && r.closed == old(r.closed) + if s.closes then 1 else 0
    ensures r.esc == 0 ==>
              && out + r.source == old(r.source) && end == (old(r.source) == []) && r.closed == old(r.closed)
              && (!end ==> |r.source| < |old(r.source)|)
  {
    var p := new byte[size];
    var n, error := r.Read(p);
    out, end := p[..n], error == EndOfFile;
    if r.esc == 0 {
      assert old(r.source)[..n] + old(r.source)[n..] == old(r.source);
    }
  }

  /** The calls in a row, up to end-of-file or the last buffer. */
  method ReadAll(r: EscapeReader, sizes: seq<nat>) returns (out: seq<byte>, finished: bool)
    requires r.esc != 0 && forall i :: 0 <= i < |sizes| ==> sizes[i] >= 1
    modifies r
    ensures Calls(r.esc, old(r.atStart), old(r.source), sizes) ==
            Step(out, r.source, r.atStart, finished, r.closed != old(r.closed))
    ensures r.closed <= old(r.closed) + 1 && r.closed >= old(r.closed)
  {
    out, finished := [], false;
    ghost var goal := Calls(r.esc, r.atStart, r.source, sizes);
    assert sizes[0..] == sizes && [] + goal.out == goal.out;
    for i := 0 to |sizes|
      invariant r.closed == old(r.closed)
      invariant goal == Prepend(out, Calls(r.esc, r.atStart, r.source, sizes[i..]))
    {
      PrependCalls(out, r.esc, r.atStart, r.source, sizes, i);
      ghost var s := StepOf(r.esc, r.atStart, r.source, sizes[i]);
      StepTotal(r.esc, r.atStart, r.source, sizes[i]);
      var piece, end := ReadSome(r, sizes[i]);
      out := out + piece;
      if end { return out, true; }
      assert !s.closes;
    }
    assert out + [] == out;
  }

  /** Reading through buffers of any sizes: everything comes through as the transducer forwards it exactly
      when no one-byte buffer meets an unrecognised escape, and closeFn is called exactly at a disconnect. */
  method Drain(r: EscapeReader, sizes: seq<nat>) returns (out: seq<byte>, finished: bool)
    requires r.esc != 0 && forall i :: 0 <= i < |sizes| ==> sizes[i] >= 1
    modifies r
    ensures (out + if finished then [] else Forwarded(r.esc, r.atStart, r.source)) ==
            Forwarded(r.esc, old(r.atStart), old(r.source))
            <==> Losses(r.esc, old(r.atStart), old(r.source), sizes) == 0
    ensures |sizes| > |old(r.source)| ==>
              finished && r.closed == old(r.closed) + if Disconnects(r.esc, old(r.atStart), old(r.source)) then 1 else 0
  {
    CallsForwardIff(r.esc, r.atStart, r.source, sizes);
    CallsEnd(r.esc, r.atStart, r.source, sizes);
    out, finished := ReadAll(r, sizes);
  }

  /** The same calls with something stored before. */
  function Prepend(before: seq<byte>, s: Step): Step {
    s.(out := before + s.out)
  }

  lemma PrependCalls(before: seq<byte>, esc: byte, atStart: bool, source: seq<byte>, sizes: seq<nat>, i: nat)
    requires i < |sizes|
    ensures var s := StepOf(esc, atStart, source, sizes[i]);
            Prepend(before, Calls(esc, atStart, source, sizes[i..])) ==
            if s.end then Prepend(before, s)
            else Prepend(before + s.out, Calls(esc, s.atStart, s.left, sizes[i + 1..]))
  {
    assert sizes[i..][0] == sizes[i] && sizes[i..][1..] == sizes[i + 1..];
    var s := StepOf(esc, atStart, source, sizes[i]);
    var rest := Calls(esc, s.atStart, s.left, sizes[i + 1..]);
    Assoc(before, s.out, rest.out);
  }

  /** Without an escape byte everything comes through as it is. */
  method DrainPlain(r: EscapeReader, sizes: seq<nat>) returns (out: seq<byte>, finished: bool)
    requires r.esc == 0 && forall i :: 0 <= i < |sizes| ==> sizes[i] >= 1
    modifies r
    ensures out + r.source == old(r.source) && r.closed == old(r.closed)
    ensures finished ==> r.source == []
    ensures |sizes| > |old(r.source)| ==> finished
  {
    out, finished := [], false;
    assert [] + r.source == r.source;
    for i := 0 to |sizes|
      invariant out + r.source == old(r.source) && r.closed == old(r.closed)
      invariant |r.source| + i <= |old(r.source)|
    {
      ghost var before := r.source;
      var piece, end := ReadSome(r, sizes[i]);
      assert out + (piece + r.source) == out + piece + r.source;
      out := out + piece;
      if end { return out, true; }
    }
  }

  // ---- sending text safely ----

  /** Every escape byte at a line start written twice. */
  function Doubled(esc: byte, atStart: bool, text: seq<byte>): seq<byte>
    decreases |text|
  {
    if text == [] then []
    else if atStart && text[0] == esc then [esc, esc] + Doubled(esc, text[0] == CR || text[0] == LF, text[1..])
    else [text[0]] + Doubled(esc, text[0] == CR || text[0] == LF, text[1..])
  }

  predicate Special(esc: byte) {
    esc == 0 || esc == CR || esc == LF || esc == DOT || esc == QUESTION
  }

  lemma {:induction false} DoublingIsUndone(esc: byte, atStart: bool, text: seq<byte>)
    requires !Special(esc)
    ensures Forwarded(esc, atStart, Doubled(esc, atStart, text)) == text
    ensures !Disconnects(esc, atStart, Doubled(esc, atStart, text))
    decreases |text|
  {
    if text != [] {
      var b, rest := text[0], Doubled(esc, text[0] == CR || text[0] == LF, text[1..]);
      DoublingIsUndone(esc, b == CR || b == LF, text[1..]);
      var sent := Doubled(esc, atStart, text);
      if atStart && b == esc {
        assert sent == [esc, esc] + rest;
        assert sent[1..][0] == esc && sent[1..][1..] == rest;
      } else {
        assert sent[1..] == rest;
      }
      assert [b] + text[1..] == text;
    }
  }

  /** Doubling makes every text come through unchanged, exactly for the escape bytes that are not
      special to the reader. */
  lemma DoublingIsUndoneIff(esc: byte)
    ensures (forall text :: Forwarded(esc, true, Doubled(esc, true, text)) == text) <==> !Special(esc)
  {
    if Special(esc) {
      var text: seq<byte> := [esc];
      var sent: seq<byte> := [esc, esc];
      assert Doubled(esc, true, text) == sent + Doubled(esc, esc == CR || esc == LF, []) == sent;
      var nothing: seq<byte> := [];
      assert sent[1..] == text && text[1..] == nothing;
      assert Forwarded(esc, true, Doubled(esc, true, text)) != text;
    } else {
      forall text ensures Forwarded(esc, true, Doubled(esc, true, text)) == text {
        DoublingIsUndone(esc, true, text);
      }
    }
  }

  // ---- inputs in a row ----

  /** Where the transducer stands: before the first byte of a line or another one, behind an escape
      byte, or behind a disconnect. */
  datatype Place = LineStart | InLine | Escaped | Gone

  function PlaceAfter(esc: byte, atStart: bool, input: seq<byte>): Place
    requires esc != 0
    decreases |input|
  {
    if input == [] then if atStart then LineStart else InLine
    else
      var b, rest := input[0], input[1..];
      if b == CR || b == LF then PlaceAfter(esc, true, rest)
      else if atStart && b == esc then
        if rest == [] then Escaped else if rest[0] == DOT then Gone else PlaceAfter(esc, false, rest[1..])
      else PlaceAfter(esc, false, rest)
  }

  /** What the transducer does at the front of an input that does not end within an escape. */
  lemma ForwardedFront(esc: byte, atStart: bool, x: seq<byte>) returns (own: seq<byte>, left: seq<byte>, next: bool)
    requires esc != 0 && x != []
    requires PlaceAfter(esc, atStart, x) != Gone && !(atStart && x == [esc] && esc != CR && esc != LF)
    ensures left == x[if atStart && x[0] == esc && esc != CR && esc != LF then 2 else 1..]
    ensures PlaceAfter(esc, atStart, x) == PlaceAfter(esc, next, left)
    ensures forall y :: Forwarded(esc, atStart, x + y) == own + Forwarded(esc, next, left + y)
  {
    if atStart && x[0] == esc && esc != CR && esc != LF {
      left, next := x[2..], false;
      own := if x[1] == QUESTION then [] else if x[1] == esc then [esc] else [esc, x[1]];
      forall y ensures Forwarded(esc, atStart, x + y) == own + Forwarded(esc, next, left + y) {
        assert (x + y)[1..][0] == x[1] && (x + y)[1..][1..] == left + y;
      }
    } else {
      own, left, next := [x[0]], x[1..], x[0] == CR || x[0] == LF;
      forall y ensures Forwarded(esc, atStart, x + y) == own + Forwarded(esc, next, left + y) {
        assert (x + y)[1..] == left + y;
      }
    }
  }

  lemma ForwardedGone(esc: byte, atStart: bool, x: seq<byte>, y: seq<byte>)
    requires esc != 0 && PlaceAfter(esc, atStart, x) == Gone
    ensures Forwarded(esc, atStart, x + y) == Forwarded(esc, atStart, x)
    decreases |x|
  {
    assert x != [];
    assert (x + y)[1..] == x[1..] + y;
    if x[0] != CR && x[0] != LF && atStart && x[0] == esc {
      assert (x[1..] + y)[0] == x[1];
      if x[1] != DOT {
        assert (x[1..] + y)[1..] == x[2..] + y && x[1..][1..] == x[2..];
        ForwardedGone(esc, false, x[2..], y);
      }
    } else {
      ForwardedGone(esc, x[0] == CR || x[0] == LF, x[1..], y);
    }
  }

  /** An input that ends within an escape ends with the escape byte, at a line start. */
  lemma {:induction false} EscapedFront(esc: byte, atStart: bool, x: seq<byte>)
    requires esc != 0 && PlaceAfter(esc, atStart, x) == Escaped
    ensures x != [] && x[|x| - 1] == esc && PlaceAfter(esc, atStart, x[..|x| - 1]) == LineStart
    decreases |x|
  {
    var front := x[..|x| - 1];
    if x[0] == CR || x[0] == LF || !atStart || x[0] != esc {
      EscapedFront(esc, x[0] == CR || x[0] == LF, x[1..]);
      assert front[0] == x[0] && front[1..] == x[1..][..|x| - 2];
    } else if |x| > 1 {
      EscapedFront(esc, false, x[2..]);
      assert x[1..][1..] == x[2..];
      assert front[0] == x[0] && front[1..][0] == x[1] && front[1..][1..] == x[2..][..|x| - 3];
    }
  }

  lemma {:induction false} ForwardedBehind(esc: byte, atStart: bool, x: seq<byte>, y: seq<byte>)
    requires esc != 0 && PlaceAfter(esc, atStart, x) in {LineStart, InLine}
    ensures Forwarded(esc, atStart, x + y) ==
            Forwarded(esc, atStart, x) + Forwarded(esc, PlaceAfter(esc, atStart, x) == LineStart, y)
    decreases |x|
  {
    if x == [] {
      assert x + y == y && [] + Forwarded(esc, atStart, y) == Forwarded(esc, atStart, y);
    } else {
      var own, left, next := ForwardedFront(esc, atStart, x);
      ForwardedBehind(esc, next, left, y);
      assert x + [] == x && left + [] == left;
      Assoc(own, Forwarded(esc, next, left), Forwarded(esc, PlaceAfter(esc, atStart, x) == LineStart, y));
    }
  }

  /** The first part of an input decides, by the place it leads to, how the rest is read. Behind an escape
      byte the rest is read as if that byte stood in front of it at a line start. */
  lemma ForwardedConcat(esc: byte, atStart: bool, x: seq<byte>, y: seq<byte>)
    requires esc != 0
    ensures match PlaceAfter(esc, atStart, x)
            case LineStart => Forwarded(esc, atStart, x + y) == Forwarded(esc, atStart, x) + Forwarded(esc, true, y)
            case InLine => Forwarded(esc, atStart, x + y) == Forwarded(esc, atStart, x) + Forwarded(esc, false, y)
            case Escaped =>
              x != [] && Forwarded(esc, atStart, x + y) ==
                         Forwarded(esc, atStart, x[..|x| - 1]) + Forwarded(esc, true, [esc] + y)
            case Gone => Forwarded(esc, atStart, x + y) == Forwarded(esc, atStart, x)
  {
    match PlaceAfter(esc, atStart, x)
    case Gone => ForwardedGone(esc, atStart, x, y);
    case Escaped =>
      EscapedFront(esc, atStart, x);
      var front := x[..|x| - 1];
      assert x + y == front + ([esc] + y);
      ForwardedBehind(esc, atStart, front, [esc] + y);
    case _ => ForwardedBehind(esc, atStart, x, y);
  }

  /** A newline begins a line exactly when the input before it does not end within an escape or behind a
      disconnect: an escape swallows the line start of the newline behind it. */
  lemma {:induction false} NewlineBeginsLineIff(esc: byte, atStart: bool, x: seq<byte>, newline: byte)
    requires esc != 0 && newline in {CR, LF}
    ensures PlaceAfter(esc, atStart, x + [newline]) == LineStart
            <==> PlaceAfter(esc, atStart, x) == LineStart || PlaceAfter(esc, atStart, x) == InLine
    decreases |x|
  {
    var y := x + [newline];
    if x == [] {
      assert y == [newline] && y[1..] == [];
    } else {
      var b := x[0];
      assert y[0] == b && y[1..] == x[1..] + [newline];
      if b != CR && b != LF && atStart && b == esc {
        if |x| == 1 {
          assert y[1..] == [newline] && y[1..][1..] == [];
        } else {
          assert y[1..][0] == x[1] && y[1..][1..] == x[2..] + [newline] && x[1..][1..] == x[2..];
          if x[1] != DOT { NewlineBeginsLineIff(esc, false, x[2..], newline); }
        }
      } else {
        NewlineBeginsLineIff(esc, b == CR || b == LF, x[1..], newline);
      }
    }
  }

  // ---- what escapes mean ----

  /** An escape byte at a line start: with a dot it ends everything, with a question mark nothing comes of the
      two, with itself it comes through once, and with any other byte both come through. */
  lemma EscapesMean(esc: byte, x: seq<byte>, c: byte, y: seq<byte>)
    requires esc !in {0, CR, LF} && PlaceAfter(esc, true, x) == LineStart
    ensures var all, behind := x + ([esc, c] + y), Forwarded(esc, false, y);
            && (c == DOT ==> Forwarded(esc, true, all) == Forwarded(esc, true, x))
            && (c == QUESTION ==> Forwarded(esc, true, all) == Forwarded(esc, true, x) + behind)
            && (c == esc && c != DOT && c != QUESTION ==>
                  Forwarded(esc, true, all) == Forwarded(esc, true, x) + ([esc] + behind))
            && (c !in {DOT, QUESTION, esc} ==>
                  Forwarded(esc, true, all) == Forwarded(esc, true, x) + ([esc, c] + behind))
  {
    var z := [esc, c] + y;
    ForwardedConcat(esc, true, x, z);
    assert z[0] == esc && z[1..] == [c] + y && z[1..][0] == c && z[1..][1..] == y;
    assert Forwarded(esc, true, x) + [] == Forwarded(esc, true, x);
  }

  /** Whether a command stands at position `i`: an escape byte at a line start with a byte that has a meaning. */
  predicate CommandAt(esc: byte, atStart: bool, text: seq<byte>, i: nat)
    requires esc != 0 && i + 1 < |text|
  {
    text[i] == esc && PlaceAfter(esc, atStart, text[..i]) == LineStart && text[i + 1] in {DOT, QUESTION, esc}
  }

  ghost predicate HasCommand(esc: byte, atStart: bool, text: seq<byte>)
    requires esc != 0
  {
    exists i :: 0 <= i && i + 1 < |text| && CommandAt(esc, atStart, text, i)
  }

  /** Commands behind the first `k` bytes, which lead to `next`. */
  lemma CommandsBehind(esc: byte, atStart: bool, next: bool, text: seq<byte>, k: nat)
    requires esc != 0 && 0 < k <= |text|
    requires forall i :: 0 <= i < k && i + 1 < |text| ==> !CommandAt(esc, atStart, text, i)
    requires forall j :: 0 <= j <= |text| - k ==>
               PlaceAfter(esc, atStart, text[..k + j]) == PlaceAfter(esc, next, text[k..][..j])
    ensures HasCommand(esc, atStart, text) <==> HasCommand(esc, next, text[k..])
  {
    if i :| 0 <= i && i + 1 < |text| && CommandAt(esc, atStart, text, i) {
      assert i >= k;
      assert PlaceAfter(esc, atStart, text[..k + (i - k)]) == PlaceAfter(esc, next, text[k..][..i - k]);
      assert CommandAt(esc, next, text[k..], i - k);
    }
    if i :| 0 <= i && i + 1 < |text[k..]| && CommandAt(esc, next, text[k..], i) {
      assert PlaceAfter(esc, atStart, text[..k + i]) == PlaceAfter(esc, next, text[k..][..i]);
      assert CommandAt(esc, atStart, text, k + i);
    }
  }

  lemma OneByteOn(esc: byte, atStart: bool, text: seq<byte>)
    requires esc != 0 && text != [] && (text[0] in {CR, LF} || !atStart || text[0] != esc)
    ensures forall j :: 0 <= j <= |text| - 1 ==>
              PlaceAfter(esc, atStart, text[..1 + j]) == PlaceAfter(esc, text[0] in {CR, LF}, text[1..][..j])
  {
    forall j | 0 <= j <= |text| - 1
      ensures PlaceAfter(esc, atStart, text[..1 + j]) == PlaceAfter(esc, text[0] in {CR, LF}, text[1..][..j])
    {
      assert text[..1 + j][0] == text[0] && text[..1 + j][1..] == text[1..][..j];
    }
  }

  lemma TwoBytesOn(esc: byte, text: seq<byte>)
    requires esc !in {0, CR, LF} && |text| >= 2 && text[0] == esc && text[1] != DOT
    ensures forall j :: 0 <= j <= |text| - 2 ==>
              PlaceAfter(esc, true, text[..2 + j]) == PlaceAfter(esc, false, text[2..][..j])
    ensures PlaceAfter(esc, true, text[..1]) == Escaped
  {
    assert text[..1][1..] == [];
    forall j | 0 <= j <= |text| - 2
      ensures PlaceAfter(esc, true, text[..2 + j]) == PlaceAfter(esc, false, text[2..][..j])
    {
      var t := text[..2 + j];
      assert t[0] == esc && t[1..][0] == text[1] && t[1..][1..] == text[2..][..j];
    }
  }

  /** A text comes through unchanged exactly when it holds no command; otherwise it gets shorter. */
  lemma {:induction false} UnchangedIff(esc: byte, atStart: bool, text: seq<byte>)
    requires esc !in {0, CR, LF}
    ensures |Forwarded(esc, atStart, text)| <= |text|
    ensures Forwarded(esc, atStart, text) == text <==> !HasCommand(esc, atStart, text)
    ensures |Forwarded(esc, atStart, text)| == |text| ==> Forwarded(esc, atStart, text) == text
    decreases |text|
  {
    if text == [] {
    } else if text[0] in {CR, LF} || !atStart || text[0] != esc {
      OneByteOn(esc, atStart, text);
      assert |text| > 1 ==> !CommandAt(esc, atStart, text, 0);
      CommandsBehind(esc, atStart, text[0] in {CR, LF}, text, 1);
      UnchangedIff(esc, text[0] in {CR, LF}, text[1..]);
      KeepsFront([text[0]], text, Forwarded(esc, text[0] in {CR, LF}, text[1..]));
    } else if |text| == 1 {
      assert text == [esc];
    } else if text[1] in {DOT, QUESTION, esc} {
      assert text[..0] == [] && CommandAt(esc, atStart, text, 0);
      UnchangedIff(esc, false, text[2..]);
      assert text[1..][1..] == text[2..];
    } else {
      TwoBytesOn(esc, text);
      assert !CommandAt(esc, atStart, text, 0);
      assert |text| > 2 ==> !CommandAt(esc, atStart, text, 1);
      CommandsBehind(esc, atStart, false, text, 2);
      UnchangedIff(esc, false, text[2..]);
      assert text[1..][1..] == text[2..];
      KeepsFront([esc, text[1]], text, Forwarded(esc, false, text[2..]));
    }
  }

  lemma KeepsFront(front: seq<byte>, text: seq<byte>, rest: seq<byte>)
    requires front <= text
    ensures front + rest == text <==> rest == text[|front|..]
    ensures |front + rest| == |front| + |rest|
  {
    assert text == front + text[|front|..];
    if front + rest == text { assert rest == (front + rest)[|front|..]; }
  }

  /** The settings of the escape byte: a tilde by default, none, a control byte from a caret and a letter of
      either case, and otherwise the first byte. */
  lemma SettingsMean(c: byte, k: byte, more: seq<byte>)
    requires 1 <= k <= 26
    ensures EscapeByte([]) == 126 && EscapeByte([110, 111, 110, 101]) == 0
    ensures EscapeByte([c]) == c && EscapeByte([94, 64 + k]) == k && EscapeByte([94, 96 + k]) == k
    ensures [c] + more != [110, 111, 110, 101] && (|more| != 1 || c != 94) ==> EscapeByte([c] + more) == c
  {
  }

  /** The user disconnects exactly when the input leads behind a disconnect. */
  lemma {:induction false} DisconnectsIff(esc: byte, atStart: bool, input: seq<byte>)
    requires esc != 0
    ensures Disconnects(esc, atStart, input) <==> PlaceAfter(esc, atStart, input) == Gone
    decreases |input|
  {
    if input != [] {
      var b, rest := input[0], input[1..];
      if b == CR || b == LF {
        DisconnectsIff(esc, true, rest);
      } else if atStart && b == esc {
        if rest != [] && rest[0] != DOT { DisconnectsIff(esc, false, rest[1..]); }
      } else {
        DisconnectsIff(esc, false, rest);
      }
    }
  }
}
