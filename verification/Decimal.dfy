/** Decimal text: the hand-written itoa, and time values. */
module Decimal {
  import opened Text

  predicate IsDigit(c: char) {
    '0' <= c <= '9'
  }

  predicate Digits(s: string) {
    forall i :: 0 <= i < |s| ==> IsDigit(s[i])
  }

  function DigitValue(c: char): nat
    requires IsDigit(c)
  {
    c as int - '0' as int
  }

  function DigitChar(d: nat): char
    requires d < 10
  {
    (d + '0' as int) as char
  }

  /** The number behind digits already read as `n`. */
  function Extend(n: nat, s: string): nat
    requires Digits(s)
    decreases |s|
  {
    if s == "" then n else Extend(n * 10 + DigitValue(s[0]), s[1..])
  }

  function Value(s: string): nat
    requires Digits(s)
  {
    Extend(0, s)
  }

  /** The digits of a number without leading zeros; none for 0. */
  function Tail(n: nat): (s: string)
    ensures Digits(s)
  {
    if n == 0 then "" else Tail(n / 10) + [DigitChar(n % 10)]
  }

  function Render(n: nat): (s: string)
    ensures Digits(s) && s != ""
  {
    if n == 0 then "0" else Tail(n)
  }

  lemma {:induction false} ExtendAppend(n: nat, s: string, t: string)
    requires Digits(s) && Digits(t)
    ensures Digits(s + t) && Extend(n, s + t) == Extend(Extend(n, s), t)
    decreases |s|
  {
    if s == "" {
      assert s + t == t;
    } else {
      assert (s + t)[1..] == s[1..] + t;
      ExtendAppend(n * 10 + DigitValue(s[0]), s[1..], t);
    }
  }

  lemma {:induction false} ValueOfTail(n: nat)
    ensures Value(Tail(n)) == n
  {
    if n > 0 {
      ValueOfTail(n / 10);
      var last := [DigitChar(n % 10)];
      ExtendAppend(0, Tail(n / 10), last);
      assert last[1..] == "";
      assert Extend(n / 10, last) == Extend(n / 10 * 10 + n % 10, last[1..]) == n;
    }
  }

  /** Reading a rendered number gives the number back. */
  lemma ValueOfRender(n: nat)
    ensures Value(Render(n)) == n
  {
    ValueOfTail(n);
    if n == 0 {
      assert "0"[1..] == "";
    }
  }

  const MIN64: int := -0x8000_0000_0000_0000
  const MAX64: int := 0x7fff_ffff_ffff_ffff

  /** Two's complement wrap-around of a 64-bit int. */
  function Wrap(n: int): int {
    (n - MIN64) % 0x1_0000_0000_0000_0000 + MIN64
  }

  function Signed(n: int): string {
    if n < 0 then "-" + Render(-n) else Render(n)
  }

  function Pow10(k: nat): nat {
    if k == 0 then 1 else 10 * Pow10(k - 1)
  }

  lemma Pow10Of19()
    ensures Pow10(19) == 10_000_000_000_000_000_000
  {
    assert Pow10(4) == 10_000;
    assert Pow10(8) == 10_000 * Pow10(4);
    assert Pow10(12) == 10_000 * Pow10(8);
    assert Pow10(16) == 10_000 * Pow10(12);
  }

  lemma TailStep(n: nat, behind: string)
    requires n > 0
    ensures Tail(n) + behind == Tail(n / 10) + ([DigitChar(n % 10)] + behind)
  {
  }

  /** The digit loop of itoa; the first place of the buffer stays free. */
  method FillDigits(buf: array<char>, number: nat) returns (pos: nat)
    requires buf.Length == 20 && number < Pow10(19)
    modifies buf
    ensures 1 <= pos <= 20 && buf[pos..] == Tail(number)
  {
    pos := buf.Length;
    var n := number;
    assert Tail(number) + buf[pos..] == Tail(number);
    while n > 0
      invariant 1 <= pos <= 20 && 0 <= n < Pow10(pos - 1)
      invariant Tail(number) == Tail(n) + buf[pos..]
    {
      TailStep(n, buf[pos..]);
      ghost var behind := buf[pos..];
      pos := pos - 1;
      buf[pos] := (n % 10 + '0' as int) as char;
      assert buf[pos..] == [DigitChar(n % 10)] + behind;
      n := n / 10;
    }
    assert Tail(0) + buf[pos..] == buf[pos..];
  }

  lemma NegationFits(i: int, n: int)
    requires MIN64 <= i <= MAX64 && i != 0 && n == if i < 0 then Wrap(-i) else i
    ensures i == MIN64 ==> n == MIN64
    ensures i != MIN64 ==> 0 < n < Pow10(19) && n == if i < 0 then -i else i
  {
    Pow10Of19();
  }

  /** itoa: fills a 20-byte buffer from the end. The one argument it cannot negate renders as "-". */
  method Itoa(i: int) returns (s: string)
    requires MIN64 <= i <= MAX64
    ensures s == if i == MIN64 then "-" else Signed(i)
  {
    if i == 0 { return "0"; }
    var buf := new char[20];
    var neg := i < 0;
    var n := if neg then Wrap(-i) else i;
    NegationFits(i, n);
    // a number still negative here is left alone by the loop
    var pos := buf.Length;
    if n > 0 {
      pos := FillDigits(buf, n);
    }
    if neg {
      ghost var behind := buf[pos..];
      pos := pos - 1;
      buf[pos] := '-';
      assert buf[pos..] == "-" + behind;
    }
    return buf[pos..];
  }

  /** strconv.Atoi: an optional sign and digits, within 64 bits. */
  function Atoi(s: string): Option<int> {
    var negative := "-" <= s;
    var digits := if negative || "+" <= s then s[1..] else s;
    if digits == "" || !Digits(digits) then None
    else
      var magnitude: int := Value(digits);
      var n := if negative then -magnitude else magnitude;
      if MIN64 <= n <= MAX64 then Some(n) else None
  }

  /** The text itoa gives is read back as its argument for every 64-bit int but the smallest. */
  lemma ItoaReadsBackIff(i: int)
    requires MIN64 <= i <= MAX64
    ensures Atoi(if i == MIN64 then "-" else Signed(i)) == Some(i) <==> i != MIN64
  {
    if i == MIN64 {
      assert "-"[1..] == "";
    } else {
      var magnitude := if i < 0 then -i else i;
      ValueOfRender(magnitude);
      if i < 0 {
        assert ("-" + Render(magnitude))[1..] == Render(magnitude);
      } else {
        assert IsDigit(Render(magnitude)[0]);
      }
    }
  }

  // ---- time values ----

  /** The seconds of a unit letter; 0 for a character that is none. */
  function Unit(c: char): nat {
    if c == 's' || c == 'S' then 1
    else if c == 'm' || c == 'M' then 60
    else if c == 'h' || c == 'H' then 3600
    else if c == 'd' || c == 'D' then 86400
    else if c == 'w' || c == 'W' then 604800
    else 0
  }

  /** The value of a time text, with seconds counted and digits read so far. */
  function Seconds(s: string, total: nat, current: nat): nat
    decreases |s|
  {
    if s == "" then total + current
    else if IsDigit(s[0]) then Seconds(s[1..], total, current * 10 + DigitValue(s[0]))
    else if Unit(s[0]) > 0 then Seconds(s[1..], total + current * Unit(s[0]), 0)
    else Seconds(s[1..], total, current)
  }

  function TimeSeconds(s: string): nat {
    Seconds(s, 0, 0)
  }

  /** The same on 64-bit integers, every operation wrapping. */
  function WrappedSeconds(s: string, total: int, current: int): int
    decreases |s|
  {
    if s == "" then Wrap(total + current)
    else if IsDigit(s[0]) then WrappedSeconds(s[1..], total, Wrap(Wrap(current * 10) + DigitValue(s[0])))
    else if Unit(s[0]) > 0 then WrappedSeconds(s[1..], Wrap(total + Wrap(current * Unit(s[0]))), 0)
    else WrappedSeconds(s[1..], total, current)
  }

  /** ParseTimeSeconds */
  method ParseTimeSeconds(s: string) returns (r: int)
    ensures r == WrappedSeconds(s, 0, 0)
  {
    if |s| == 0 { return 0; }
    var total, current := 0, 0;
    assert s[0..] == s;
    for i := 0 to |s|
      invariant WrappedSeconds(s, 0, 0) == WrappedSeconds(s[i..], total, current)
    {
      var c := s[i];
      assert s[i..][0] == c && s[i..][1..] == s[i + 1..];
      if IsDigit(c) {
        current := Wrap(Wrap(current * 10) + DigitValue(c));
      } else if Unit(c) > 0 {
        total, current := Wrap(total + Wrap(current * Unit(c))), 0;
      }
    }
    return Wrap(total + current);
  }

  // ---- 64 bits ----

  const MODULUS: int := 0x1_0000_0000_0000_0000

  /** Two integers have the same low 64 bits. */
  predicate Same64(x: int, y: int) {
    (x - y) % MODULUS == 0
  }

  lemma WrapIsSame(x: int)
    ensures Same64(Wrap(x), x) && MIN64 <= Wrap(x) <= MAX64
  {
  }

  lemma SameIffWrap(x: int, y: int)
    ensures Same64(x, y) <==> Wrap(x) == Wrap(y)
  {
    if Same64(x, y) {
      assert x - y == (x - y) / MODULUS * MODULUS;
      WrapShift(y, (x - y) / MODULUS);
    } else {
      WrapIsSame(x);
      WrapIsSame(y);
    }
  }

  lemma WrapShift(x: int, k: int)
    ensures Wrap(x + k * MODULUS) == Wrap(x)
  {
    var u, v := x - MIN64, x + k * MODULUS - MIN64;
    assert v - v % MODULUS == v / MODULUS * MODULUS && u - u % MODULUS == u / MODULUS * MODULUS;
    assert v % MODULUS - u % MODULUS == (k - v / MODULUS + u / MODULUS) * MODULUS;
  }

  lemma SameSum(x: int, y: int, u: int, v: int)
    requires Same64(x, y) && Same64(u, v)
    ensures Same64(x + u, y + v)
  {
    var j, k := (x - y) / MODULUS, (u - v) / MODULUS;
    assert x + u - (y + v) == (j + k) * MODULUS;
    Multiple(j + k);
  }

  lemma SameProduct(x: int, y: int, n: nat)
    requires Same64(x, y)
    ensures Same64(x * n, y * n)
  {
    var j := (x - y) / MODULUS;
    calc {
      x * n - y * n;
      (x - y) * n;
      j * MODULUS * n;
      j * n * MODULUS;
    }
    Multiple(j * n);
  }

  lemma Multiple(k: int)
    ensures k * MODULUS % MODULUS == 0
  {
  }

  lemma WrappedDigit(x: int, c: int, d: nat)
    requires Same64(x, c)
    ensures Same64(Wrap(Wrap(x * 10) + d), c * 10 + d)
  {
    SameProduct(x, c, 10);
    WrapIsSame(x * 10);
    SameSum(Wrap(x * 10) - x * 10, 0, x * 10, c * 10);
    SameSum(Wrap(x * 10), c * 10, d, d);
    WrapIsSame(Wrap(x * 10) + d);
    SameSum(Wrap(Wrap(x * 10) + d) - (Wrap(x * 10) + d), 0, Wrap(x * 10) + d, c * 10 + d);
  }

  lemma WrappedUnit(w: int, t: int, x: int, c: int, u: nat)
    requires Same64(w, t) && Same64(x, c)
    ensures Same64(Wrap(w + Wrap(x * u)), t + c * u)
  {
    SameProduct(x, c, u);
    WrapIsSame(x * u);
    SameSum(Wrap(x * u) - x * u, 0, x * u, c * u);
    SameSum(w, t, Wrap(x * u), c * u);
    WrapIsSame(w + Wrap(x * u));
    SameSum(Wrap(w + Wrap(x * u)) - (w + Wrap(x * u)), 0, w + Wrap(x * u), t + c * u);
  }

  lemma {:induction false} WrappedFrom(s: string, w: int, x: int, total: nat, current: nat)
    requires Same64(w, total) && Same64(x, current)
    ensures WrappedSeconds(s, w, x) == Wrap(Seconds(s, total, current))
    decreases |s|
  {
    if s == "" {
      SameSum(w, total, x, current);
      SameIffWrap(w + x, total + current);
    } else if IsDigit(s[0]) {
      WrappedDigit(x, current, DigitValue(s[0]));
      WrappedFrom(s[1..], w, Wrap(Wrap(x * 10) + DigitValue(s[0])), total, current * 10 + DigitValue(s[0]));
    } else if Unit(s[0]) > 0 {
      WrappedUnit(w, total, x, current, Unit(s[0]));
      WrappedFrom(s[1..], Wrap(w + Wrap(x * Unit(s[0]))), 0, total + current * Unit(s[0]), 0);
    } else {
      WrappedFrom(s[1..], w, x, total, current);
    }
  }

  /** However often the program's integers wrap, its result is the true value reduced to 64 bits. */
  lemma ResultIsWrapped(s: string)
    ensures WrappedSeconds(s, 0, 0) == Wrap(TimeSeconds(s))
  {
    WrappedFrom(s, 0, 0, 0, 0);
  }

  /** No operation on the way through `s` leaves the 64-bit range. */
  predicate NeverOverflows(s: string, total: nat, current: nat)
    decreases |s|
  {
    if s == "" then total + current <= MAX64
    else if IsDigit(s[0]) then
      current * 10 + DigitValue(s[0]) <= MAX64 && NeverOverflows(s[1..], total, current * 10 + DigitValue(s[0]))
    else if Unit(s[0]) > 0 then
      total + current * Unit(s[0]) <= MAX64 && NeverOverflows(s[1..], total + current * Unit(s[0]), 0)
    else NeverOverflows(s[1..], total, current)
  }

  lemma AtLeast(n: nat, u: nat)
    requires u > 0
    ensures n <= n * u
  {
  }

  lemma {:induction false} NeverOverflowsIff(s: string, total: nat, current: nat)
    ensures Seconds(s, total, current) >= total + current
    ensures NeverOverflows(s, total, current) <==> Seconds(s, total, current) <= MAX64
    decreases |s|
  {
    if s != "" {
      if IsDigit(s[0]) {
        NeverOverflowsIff(s[1..], total, current * 10 + DigitValue(s[0]));
      } else if Unit(s[0]) > 0 {
        AtLeast(current, Unit(s[0]));
        NeverOverflowsIff(s[1..], total + current * Unit(s[0]), 0);
      } else {
        NeverOverflowsIff(s[1..], total, current);
      }
    }
  }

  /** The program's result is the true value exactly when that fits into 64 bits, and exactly then no
      step overflows. */
  lemma ExactIff(s: string)
    ensures WrappedSeconds(s, 0, 0) == TimeSeconds(s) <==> TimeSeconds(s) <= MAX64
    ensures NeverOverflows(s, 0, 0) <==> TimeSeconds(s) <= MAX64
  {
    ResultIsWrapped(s);
    WrapIsSame(TimeSeconds(s));
    NeverOverflowsIff(s, 0, 0);
  }

  function DigitCount(s: string): nat {
    if s == "" then 0 else (if IsDigit(s[0]) then 1 else 0) + DigitCount(s[1..])
  }

  /** Whatever is counted after reading `read` digits is below a week's worth of a number with that
      many digits. */
  predicate Counted(total: nat, current: nat, read: nat) {
    total + current * 604800 <= (Pow10(read) - 1) * 604800
  }

  lemma CountedDigit(total: nat, current: nat, read: nat, d: nat)
    requires Counted(total, current, read) && d < 10
    ensures Counted(total, current * 10 + d, read + 1)
  {
    assert Pow10(read + 1) == 10 * Pow10(read);
  }

  lemma CountedUnit(total: nat, current: nat, read: nat, u: nat)
    requires Counted(total, current, read) && u <= 604800
    ensures Counted(total + current * u, 0, read)
  {
    Product(current, u, 604800);
  }

  lemma Product(n: nat, u: nat, bound: nat)
    requires u <= bound
    ensures n * u <= n * bound
  {
  }

  lemma UnitBound(c: char)
    ensures Unit(c) <= 604800
  {
  }

  lemma {:induction false} CountedToTheEnd(s: string, total: nat, current: nat, read: nat)
    requires Counted(total, current, read)
    ensures Seconds(s, total, current) <= (Pow10(read + DigitCount(s)) - 1) * 604800
    decreases |s|
  {
    if s != "" {
      if IsDigit(s[0]) {
        CountedDigit(total, current, read, DigitValue(s[0]));
        CountedToTheEnd(s[1..], total, current * 10 + DigitValue(s[0]), read + 1);
      } else if Unit(s[0]) > 0 {
        UnitBound(s[0]);
        CountedUnit(total, current, read, Unit(s[0]));
        CountedToTheEnd(s[1..], total + current * Unit(s[0]), 0, read);
      } else {
        CountedToTheEnd(s[1..], total, current, read);
      }
    }
  }

  lemma {:induction false} Pow10Monotone(j: nat, k: nat)
    requires j <= k
    ensures Pow10(j) <= Pow10(k)
    decreases k
  {
    if j < k { Pow10Monotone(j, k - 1); }
  }

  lemma Pow10Of13()
    ensures Pow10(13) == 10_000_000_000_000
  {
    assert Pow10(4) == 10_000;
    assert Pow10(8) == 10_000 * Pow10(4);
    assert Pow10(12) == 10_000 * Pow10(8);
  }

  /** So 13 digit characters are always safe. */
  lemma ThirteenDigitsNeverOverflow(s: string)
    requires DigitCount(s) <= 13
    ensures NeverOverflows(s, 0, 0) && WrappedSeconds(s, 0, 0) == TimeSeconds(s)
  {
    CountedToTheEnd(s, 0, 0, 0);
    Pow10Monotone(DigitCount(s), 13);
    Pow10Of13();
    ExactIff(s);
  }

  // ---- time values added and rendered ----

  /** The digits left over behind the last unit. */
  function Pending(s: string, current: nat): nat
    decreases |s|
  {
    if s == "" then current
    else if IsDigit(s[0]) then Pending(s[1..], current * 10 + DigitValue(s[0]))
    else if Unit(s[0]) > 0 then Pending(s[1..], 0)
    else Pending(s[1..], current)
  }

  /** What digits pending in front of `s` are multiplied by. */
  function Lead(s: string): nat {
    if s == "" then 1
    else if IsDigit(s[0]) then 10 * Lead(s[1..])
    else if Unit(s[0]) > 0 then Unit(s[0])
    else Lead(s[1..])
  }

  lemma Distribute(n: nat, d: nat, m: nat)
    ensures (n * 10 + d) * m == n * (10 * m) + d * m
  {
    assert (n * 10 + d) * m == n * 10 * m + d * m;
  }

  lemma {:induction false} SecondsLinear(s: string, total: nat, current: nat)
    ensures Seconds(s, total, current) == total + current * Lead(s) + TimeSeconds(s)
    decreases |s|
  {
    if s != "" {
      var rest := s[1..];
      if IsDigit(s[0]) {
        var d := DigitValue(s[0]);
        SecondsLinear(rest, total, current * 10 + d);
        SecondsLinear(rest, 0, d);
        Distribute(current, d, Lead(rest));
      } else if Unit(s[0]) > 0 {
        SecondsLinear(rest, total + current * Unit(s[0]), 0);
        SecondsLinear(rest, 0, 0);
      } else {
        SecondsLinear(rest, total, current);
        SecondsLinear(rest, 0, 0);
      }
    }
  }

  lemma {:induction false} SecondsOfConcat(a: string, b: string, total: nat, current: nat)
    ensures Seconds(a + b, total, current) + Pending(a, current) ==
            Seconds(a, total, current) + Pending(a, current) * Lead(b) + TimeSeconds(b)
    decreases |a|
  {
    if a == "" {
      assert a + b == b;
      SecondsLinear(b, total, current);
    } else {
      assert (a + b)[1..] == a[1..] + b;
      if IsDigit(a[0]) {
        SecondsOfConcat(a[1..], b, total, current * 10 + DigitValue(a[0]));
      } else if Unit(a[0]) > 0 {
        SecondsOfConcat(a[1..], b, total + current * Unit(a[0]), 0);
      } else {
        SecondsOfConcat(a[1..], b, total, current);
      }
    }
  }

  lemma {:induction false} LeadPositive(s: string)
    ensures Lead(s) >= 1
  {
    if s != "" { LeadPositive(s[1..]); }
  }

  lemma TrueSum(a: string, b: string)
    ensures TimeSeconds(a + b) == TimeSeconds(a) + TimeSeconds(b) + Pending(a, 0) * (Lead(b) - 1)
  {
    SecondsOfConcat(a, b, 0, 0);
    var p := Pending(a, 0);
    assert p * Lead(b) - p == p * (Lead(b) - 1);
  }

  /** In 64-bit arithmetic the value of a concatenation is the sum of the values exactly when what the
      right part adds to the weight of the digits pending in the left part vanishes modulo 2^64. */
  lemma TimeAddsUpIff(a: string, b: string)
    ensures WrappedSeconds(a + b, 0, 0) == Wrap(WrappedSeconds(a, 0, 0) + WrappedSeconds(b, 0, 0))
            <==> Pending(a, 0) * (Lead(b) - 1) % MODULUS == 0
  {
    ResultIsWrapped(a);
    ResultIsWrapped(b);
    ResultIsWrapped(a + b);
    TrueSum(a, b);
    WrappedSum(TimeSeconds(a), TimeSeconds(b), Pending(a, 0) * (Lead(b) - 1));
  }

  lemma WrappedSum(x: int, y: int, extra: int)
    ensures Wrap(x + y + extra) == Wrap(Wrap(x) + Wrap(y)) <==> extra % MODULUS == 0
  {
    WrapIsSame(x);
    WrapIsSame(y);
    SameSum(Wrap(x), x, Wrap(y), y);
    SameIffWrap(Wrap(x) + Wrap(y), x + y);
    SameIffWrap(x + y + extra, x + y);
  }

  /** When the whole fits into 64 bits, it is the sum exactly when nothing is pending in the left part,
      or the right part gives it the weight of seconds. */
  lemma FittingTimeAddsUpIff(a: string, b: string)
    requires TimeSeconds(a + b) <= MAX64
    ensures WrappedSeconds(a + b, 0, 0) == WrappedSeconds(a, 0, 0) + WrappedSeconds(b, 0, 0)
            <==> Pending(a, 0) == 0 || Lead(b) == 1
  {
    var p := Pending(a, 0);
    TrueSum(a, b);
    LeadPositive(b);
    NonNegative(p, Lead(b) - 1);
    ExactIff(a);
    ExactIff(b);
    ExactIff(a + b);
  }

  lemma NonNegative(n: nat, m: nat)
    ensures n * m >= 0 && (n * m == 0 <==> n == 0 || m == 0)
  {
  }

  /** One rendered component. */
  function Component(n: nat, unit: char): string {
    Render(n) + [unit]
  }

  lemma {:induction false} SecondsOfDigits(ds: string, rest: string, total: nat, current: nat)
    requires Digits(ds)
    ensures Seconds(ds + rest, total, current) == Seconds(rest, total, Extend(current, ds))
    decreases |ds|
  {
    if ds == "" {
      assert ds + rest == rest;
    } else {
      assert (ds + rest)[1..] == ds[1..] + rest;
      SecondsOfDigits(ds[1..], rest, total, current * 10 + DigitValue(ds[0]));
    }
  }

  lemma SecondsOfComponent(n: nat, unit: char, rest: string, total: nat)
    requires Unit(unit) > 0
    ensures Seconds(Component(n, unit) + rest, total, 0) == Seconds(rest, total + n * Unit(unit), 0)
  {
    assert Component(n, unit) + rest == Render(n) + ([unit] + rest);
    SecondsOfDigits(Render(n), [unit] + rest, total, 0);
    ValueOfRender(n);
    UnitIsNoDigit(unit);
    assert ([unit] + rest)[1..] == rest;
  }

  lemma UnitIsNoDigit(c: char)
    ensures Unit(c) > 0 ==> !IsDigit(c)
  {
  }

  function RenderTime(w: nat, d: nat, h: nat, m: nat, s: nat): string {
    Component(w, 'w') + (Component(d, 'd') + (Component(h, 'h') + (Component(m, 'm') + Component(s, 's'))))
  }

  lemma RenderedValue(w: nat, d: nat, h: nat, m: nat, s: nat)
    ensures TimeSeconds(RenderTime(w, d, h, m, s)) == w * 604800 + d * 86400 + h * 3600 + m * 60 + s
  {
    Units();
    var t4 := Component(s, 's');
    var t3 := Component(m, 'm') + t4;
    var t2 := Component(h, 'h') + t3;
    var t1 := Component(d, 'd') + t2;
    var n1 := w * 604800;
    var n2 := n1 + d * 86400;
    var n3 := n2 + h * 3600;
    var n4 := n3 + m * 60;
    SecondsOfComponent(w, 'w', t1, 0);
    SecondsOfComponent(d, 'd', t2, n1);
    SecondsOfComponent(h, 'h', t3, n2);
    SecondsOfComponent(m, 'm', t4, n3);
    assert t4 + "" == t4;
    SecondsOfComponent(s, 's', "", n4);
  }

  /** The program reads a rendered time back as its seconds exactly when they fit into 64 bits. */
  lemma TimeRoundTripIff(w: nat, d: nat, h: nat, m: nat, s: nat)
    ensures WrappedSeconds(RenderTime(w, d, h, m, s), 0, 0) == w * 604800 + d * 86400 + h * 3600 + m * 60 + s
            <==> w * 604800 + d * 86400 + h * 3600 + m * 60 + s <= MAX64
  {
    RenderedValue(w, d, h, m, s);
    ExactIff(RenderTime(w, d, h, m, s));
  }

  lemma Units()
    ensures Unit('w') == 604800 && Unit('d') == 86400 && Unit('h') == 3600 && Unit('m') == 60 && Unit('s') == 1
  {
  }

  // ---- what does not matter in a time value ----

  lemma SameWhenLower(c: char)
    ensures IsDigit(Lower(c)) == IsDigit(c) && (IsDigit(c) ==> Lower(c) == c) && Unit(Lower(c)) == Unit(c)
  {
  }

  lemma {:induction false} LowerSeconds(s: string, total: nat, current: nat)
    ensures Seconds(ToLower(s), total, current) == Seconds(s, total, current)
    decreases |s|
  {
    if s != "" {
      SameWhenLower(s[0]);
      assert ToLower(s)[0] == Lower(s[0]) && ToLower(s)[1..] == ToLower(s[1..]);
      if IsDigit(s[0]) {
        LowerSeconds(s[1..], total, current * 10 + DigitValue(s[0]));
      } else if Unit(s[0]) > 0 {
        LowerSeconds(s[1..], total + current * Unit(s[0]), 0);
      } else {
        LowerSeconds(s[1..], total, current);
      }
    }
  }

  /** The case of unit letters makes no difference. */
  lemma CaseOfUnits(s: string)
    ensures WrappedSeconds(ToLower(s), 0, 0) == WrappedSeconds(s, 0, 0)
  {
    LowerSeconds(s, 0, 0);
    ResultIsWrapped(s);
    ResultIsWrapped(ToLower(s));
  }

  /** Neither a digit nor a unit letter of either case. */
  predicate Stranger(c: char) {
    !('0' <= c <= '9') && Lower(c) !in {'s', 'm', 'h', 'd', 'w'}
  }

  lemma {:induction false} StrangerSkipped(a: string, c: char, b: string, total: nat, current: nat)
    requires Stranger(c)
    ensures Seconds(a + ([c] + b), total, current) == Seconds(a + b, total, current)
    decreases |a|
  {
    if a == "" {
      assert a + ([c] + b) == [c] + b && a + b == b && ([c] + b)[1..] == b;
    } else {
      assert (a + ([c] + b))[0] == a[0] && (a + ([c] + b))[1..] == a[1..] + ([c] + b);
      assert (a + b)[0] == a[0] && (a + b)[1..] == a[1..] + b;
      if IsDigit(a[0]) {
        StrangerSkipped(a[1..], c, b, total, current * 10 + DigitValue(a[0]));
      } else if Unit(a[0]) > 0 {
        StrangerSkipped(a[1..], c, b, total + current * Unit(a[0]), 0);
      } else {
        StrangerSkipped(a[1..], c, b, total, current);
      }
    }
  }

  /** Any other character can be left out, even between the digits of a number. */
  lemma StrangersIgnored(a: string, c: char, b: string)
    requires Stranger(c)
    ensures WrappedSeconds(a + ([c] + b), 0, 0) == WrappedSeconds(a + b, 0, 0)
  {
    StrangerSkipped(a, c, b, 0, 0);
    ResultIsWrapped(a + ([c] + b));
    ResultIsWrapped(a + b);
  }
}
