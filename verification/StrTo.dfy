/** strtol and strtoul, shared/strtol.c and shared/strtoul.c, on zero-terminated strings and 32-bit longs. */
module StrTo {
  import Arith
  import opened Numerals

  /** What the scanners read: a sign, and the digits of a base between two positions. */
  datatype Scan = Scan(neg: bool, base: int, start: nat, end: nat)

  /** A "0x" that is skipped. */
  predicate HexPrefix(s: string, i: nat, base: int)
    requires i <= |s|
  {
    (base == 16 || base == 0) && At(s, i) == '0' && (At(s, i + 1) == 'x' || At(s, i + 1) == 'X')
  }

  function Digited(s: string, neg: bool, i: nat, base: int): Scan
    requires i <= |s|
  {
    if HexPrefix(s, i, base) then Scan(neg, 16, i + 2, SpanEnd(s, i + 2, DigitOf(16)))
    else
      var b := if base != 0 then base else if At(s, i) == '0' then 8 else 10;
      Scan(neg, b, i, SpanEnd(s, i, DigitOf(b)))
  }

  /** What strtol reads: it skips a minus sign but not a plus sign. */
  function Signed(s: string, base: int): Scan {
    var i := SpanEnd(s, 0, Blank);
    if At(s, i) == '-' then Digited(s, true, i + 1, base) else Digited(s, false, i, base)
  }

  /** What strtoul reads: no sign. */
  function Unsigned(s: string, base: int): Scan {
    Digited(s, false, SpanEnd(s, 0, Blank), base)
  }

  function Magnitude(s: string, scan: Scan): int
    requires scan.start <= scan.end <= |s|
  {
    Value(s[scan.start..scan.end], scan.base)
  }

  lemma ToLongStep(v: int, base: int, d: int)
    ensures ToLong(ToLong(v) * base + d) == ToLong(v * base + d)
  {
    var k := (ToLong(v) - v) / W32;
    assert ToLong(v) == v + W32 * k;
    assert (v + W32 * k) * base + d == v * base + d + W32 * (k * base) by {
      Arith.MulDistributes(v, W32 * k, base);
      assert W32 * k * base == W32 * (k * base);
    }
    Arith.ModAddMultiple(v * base + d, W32, k * base);
  }

  lemma ModStep(v: int, base: int, d: int)
    ensures (v % W32 * base + d) % W32 == (v * base + d) % W32
  {
    var k := v / W32;
    assert (v % W32 + W32 * k) * base + d == v % W32 * base + d + W32 * (k * base) by {
      Arith.MulDistributes(v % W32, W32 * k, base);
      assert W32 * k * base == W32 * (k * base);
    }
    Arith.ModAddMultiple(v % W32 * base + d, W32, k * base);
  }

  /** One more digit: the value does not decrease. */
  lemma NextDigit(s: string, start: nat, p: nat, base: int)
    requires start <= p < |s| && IsDigitIn(s[p], base) && AllDigits(s[start..p], base)
    ensures Value(s[start..p + 1], base) == Value(s[start..p], base) * base + DigitValue(s[p])
    ensures AllDigits(s[start..p + 1], base) && 0 <= Value(s[start..p], base) <= Value(s[start..p + 1], base)
  {
    assert s[start..p + 1] == s[start..p] + [s[p]];
    ValueAppend(s[start..p], s[p], base);
    ValueNonNegative(s[start..p], base);
    hide Value;
    Grows(Value(s[start..p], base), base, DigitValue(s[p]));
  }

  lemma Grows(v: int, base: int, d: int)
    requires v >= 0 && base >= 1 && d >= 0
    ensures v <= v * base + d
  {
    Arith.MulDistributes(base, 1, v);
    assert (base - 1) * v >= 0;
  }

  lemma {:induction false} ValueNonNegative(s: string, base: int)
    requires AllDigits(s, base)
    ensures 0 <= Value(s, base)
  {
    if s != "" {
      ValueNonNegative(s[..|s| - 1], base);
      assert base >= 1 by { assert IsDigitIn(s[0], base); }
      hide DigitValue;
      Grows(Value(s[..|s| - 1], base), base, DigitValue(s[|s| - 1]));
    }
  }

  /** The branches that both loops use to take a digit: its value, or -1 to stop. */
  method TakeDigit(c: char, base: int) returns (d: int)
    ensures d == if IsDigitIn(c, base) then DigitValue(c) else -1
  {
    if '0' <= c <= '9' && c as int - '0' as int < base {
      d := c as int - '0' as int;
    } else if 'a' <= c <= 'z' && c as int - 'a' as int + 10 < base {
      d := c as int - 'a' as int + 10;
    } else if 'A' <= c <= 'Z' && c as int - 'A' as int + 10 < base {
      d := c as int - 'A' as int + 10;
    } else {
      d := -1;
    }
  }

  /** The digits from start on: the value modulo 2^32 as a long. exact says that no step left its range. */
  method SignedDigits(s: string, start: nat, base: int) returns (v: int, p: nat, ghost exact: bool)
    requires start <= |s|
    ensures p == SpanEnd(s, start, DigitOf(base)) && v == ToLong(Value(s[start..p], base))
    ensures exact <==> Value(s[start..p], base) <= LONG_MAX
  {
    hide Value, DigitValue, ToLong;
    EmptyValue(s, start, base);
    v, p, exact := 0, start, true;
    while true
      invariant start <= p <= |s| && AllDigits(s[start..p], base)
      invariant v == ToLong(Value(s[start..p], base)) && (exact <==> Value(s[start..p], base) <= LONG_MAX)
      decreases |s| - p
    {
      var d := TakeDigit(At(s, p), base);
      if d == -1 {
        EndOfDigits(s, start, base, p);
        return;
      }
      NoDigitAtEnd(s, p, base);
      NextDigit(s, start, p, base);
      ToLongStep(Value(s[start..p], base), base, d);
      exact := exact && ToLong(v * base + d) == v * base + d;
      StillExact(Value(s[start..p], base), base, d, v);
      v := ToLong(v * base + d);
      p := p + 1;
    }
  }

  lemma EmptyValue(s: string, start: nat, base: int)
    requires start <= |s|
    ensures s[start..start] == "" && Value("", base) == 0 && ToLong(0) == 0
  {
  }

  lemma EndOfDigits(s: string, start: nat, base: int, p: nat)
    requires start <= p <= |s| && AllDigits(s[start..p], base) && !IsDigitIn(At(s, p), base)
    ensures SpanEnd(s, start, DigitOf(base)) == p
  {
    forall k | start <= k < p ensures Is(s[k], DigitOf(base)) {
      assert s[k] == s[start..p][k - start];
    }
    SpanIs(s, start, DigitOf(base), p);
  }

  lemma NoDigitAtEnd(s: string, p: nat, base: int)
    requires p <= |s| && IsDigitIn(At(s, p), base)
    ensures p < |s|
  {
  }

  /** While the value fits a long nothing is lost, and once it does not it never fits again. */
  lemma StillExact(u: int, base: int, d: int, v: int)
    requires v == ToLong(u) && 0 <= u <= u * base + d
    ensures u <= LONG_MAX && ToLong(v * base + d) == v * base + d <==> u * base + d <= LONG_MAX
  {
  }

  lemma ToLongMinus(v: int)
    ensures ToLong(-ToLong(v)) == ToLong(-v)
  {
    ToLongStep(v, -1, 0);
    assert ToLong(v) * -1 + 0 == -ToLong(v) && v * -1 + 0 == -v;
  }

  /** strtol. */
  method Strtol(s: string, base0: int) returns (v: int, end: nat, ghost exact: bool)
    ensures end == Signed(s, base0).end
    ensures v ==
      ToLong(if Signed(s, base0).neg then -Magnitude(s, Signed(s, base0)) else Magnitude(s, Signed(s, base0)))
    ensures exact <==> Magnitude(s, Signed(s, base0)) <= LONG_MAX
  {
    hide Value, DigitValue, ToLong;
    var p, base, neg := 0, base0, false;
    p := SkipSpaces(s);
    if At(s, p) == '-' {
      neg, p := true, p + 1;
    } else if At(s, p) == '+' {
      neg := false;
    }
    base, p := ChooseBase(s, p, base);
    var start := p;
    v, end, exact := SignedDigits(s, start, base);
    if neg {
      ToLongMinus(Value(s[start..end], base));
      v := ToLong(-v);
    }
  }

  method SkipSpaces(s: string) returns (p: nat)
    ensures p == SpanEnd(s, 0, Blank)
  {
    p := 0;
    while IsSpace(At(s, p))
      invariant p <= |s| && forall k :: 0 <= k < p ==> Is(s[k], Blank)
      decreases |s| - p
    {
      p := p + 1;
    }
    SpanIs(s, 0, Blank, p);
  }

  /** The tests for "0x" and for base zero. */
  method ChooseBase(s: string, p0: nat, base0: int) returns (base: int, p: nat)
    requires p0 <= |s|
    ensures p <= |s| && forall neg :: Digited(s, neg, p0, base0) == Scan(neg, base, p, SpanEnd(s, p, DigitOf(base)))
  {
    p, base := p0, base0;
    if (base == 16 || base == 0) && At(s, p) == '0' && (At(s, p + 1) == 'x' || At(s, p + 1) == 'X') {
      p := p + 2;
      base := 16;
    }
    if base == 0 {
      base := if At(s, p) == '0' then 8 else 10;
    }
  }

  /** strtoul. */
  method Strtoul(s: string, base0: int) returns (v: nat, end: nat)
    ensures end == Unsigned(s, base0).end && v == Magnitude(s, Unsigned(s, base0)) % W32
  {
    hide Value, DigitValue;
    var p := SkipSpaces(s);
    var base;
    base, p := ChooseBase(s, p, base0);
    var start := p;
    EmptyValue(s, start, base);
    v := 0;
    while true
      invariant start <= p <= |s| && AllDigits(s[start..p], base) && v == Value(s[start..p], base) % W32
      decreases |s| - p
    {
      var d := TakeDigit(At(s, p), base);
      if d == -1 {
        EndOfDigits(s, start, base, p);
        assert Digited(s, false, SpanEnd(s, 0, Blank), base0) == Scan(false, base, start, p);
        return v, p;
      }
      NoDigitAtEnd(s, p, base);
      NextDigit(s, start, p, base);
      ModStep(Value(s[start..p], base), base, d);
      v := (v * base + d) % W32;
      p := p + 1;
    }
  }
}
