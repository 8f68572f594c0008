/** Numerals in a base from 2 to 36: the digits of a number, the value of digits, and stretches of characters
    of one kind in a zero-terminated string. */
module Numerals {

  const W32: int := 0x1_0000_0000
  const LONG_MAX: int := 0x7fff_ffff

  /** Two's complement: the long that is congruent to v. */
  function ToLong(v: int): (n: int)
    ensures -0x8000_0000 <= n <= LONG_MAX
    ensures -0x8000_0000 <= v <= LONG_MAX ==> n == v
  {
    if v % W32 <= LONG_MAX then v % W32 else v % W32 - W32
  }

  /** A character of a string, its terminator included. */
  function At(s: string, i: nat): char
    requires i <= |s|
  {
    if i < |s| then s[i] else '\0'
  }

  /** "0123456789abcdef"[d]. */
  function DigitChar(d: nat): (c: char)
    requires d < 16
    ensures DigitValue(c) == d
    ensures '0' <= c <= '9' || 'a' <= c <= 'f'
  {
    if d < 10 then '0' + d as char else 'a' + (d - 10) as char
  }

  /** The value of a digit in any base up to 36, or -1. */
  function DigitValue(c: char): (d: int)
    ensures -1 <= d < 36
  {
    if '0' <= c <= '9' then c as int - '0' as int
    else if 'a' <= c <= 'z' then c as int - 'a' as int + 10
    else if 'A' <= c <= 'Z' then c as int - 'A' as int + 10
    else -1
  }

  predicate IsDigitIn(c: char, base: int) {
    0 <= DigitValue(c) < base
  }

  predicate AllDigits(s: string, base: int) {
    forall k :: 0 <= k < |s| ==> IsDigitIn(s[k], base)
  }

  /** The number that digits, the most significant first, stand for. */
  function Value(s: string, base: int): int {
    if s == "" then 0 else Value(s[..|s| - 1], base) * base + DigitValue(s[|s| - 1])
  }

  lemma DivIsSmaller(u: nat, base: nat)
    requires 2 <= base <= u
    ensures 1 <= u / base < u && u % base < base
  {
    var q := u / base;
    assert u == q * base + u % base;
    assert q * base == 2 * q + q * (base - 2);
  }

  /** A number in digits, at least one. */
  function Digits(u: nat, base: nat): (s: string)
    requires 2 <= base <= 16
    ensures |s| >= 1 && AllDigits(s, base)
  {
    if u < base then [DigitChar(u)]
    else
      DivIsSmaller(u, base);
      Digits(u / base, base) + [DigitChar(u % base)]
  }

  lemma ValueAppend(s: string, c: char, base: int)
    ensures Value(s + [c], base) == Value(s, base) * base + DigitValue(c)
  {
    assert (s + [c])[..|s + [c]| - 1] == s;
  }

  lemma {:induction false} ValueOfDigits(u: nat, base: nat)
    requires 2 <= base <= 16
    ensures Value(Digits(u, base), base) == u
  {
    if u < base {
      ValueAppend("", DigitChar(u), base);
      assert "" + [DigitChar(u)] == [DigitChar(u)];
    } else {
      var q, r := u / base, u % base;
      Euclid(u, base);
      DigitsUnfold(u, base);
      hide Value, Digits, DigitValue, DigitChar;
      ValueOfDigits(q, base);
      ValueAppend(Digits(q, base), DigitChar(r), base);
    }
  }

  lemma Euclid(u: nat, base: nat)
    requires 2 <= base
    ensures u == u / base * base + u % base && u % base < base
    ensures u >= base ==> 1 <= u / base < u
  {
  }

  lemma DigitsUnfold(u: nat, base: nat)
    requires 2 <= base <= 16 && u >= base
    ensures Digits(u, base) == Digits(u / base, base) + [DigitChar(u % base)]
  {
  }

  /** The first digit of a number is not zero, unless it is the number. */
  lemma {:induction false} LeadingDigit(u: nat, base: nat)
    requires 2 <= base <= 16
    ensures Digits(u, base)[0] == '0' <==> u == 0
    ensures |Digits(u, base)| == 1 <==> u < base
  {
    if u >= base {
      Euclid(u, base);
      DigitsUnfold(u, base);
      hide Digits, DigitChar;
      LeadingDigit(u / base, base);
    }
  }

  function Fill(c: char, n: nat): (s: string)
    ensures |s| == n && forall k :: 0 <= k < n ==> s[k] == c
  {
    seq(n, _ => c)
  }

  /** Zeros in front do not change a value. */
  lemma {:induction false} ValueOfPadded(n: nat, s: string, base: int)
    ensures Value(Fill('0', n) + s, base) == Value(s, base)
  {
    var t := Fill('0', n) + s;
    if s != "" {
      assert t[..|t| - 1] == Fill('0', n) + s[..|s| - 1];
      ValueOfPadded(n, s[..|s| - 1], base);
    } else if n > 0 {
      assert t[..|t| - 1] == Fill('0', n - 1) + "";
      ValueOfPadded(n - 1, s, base);
    } else {
      assert t == s;
    }
  }

  /** Two kinds of stretch that the scanners skip. */
  datatype Kind = Blank | Flag | DigitOf(base: int)

  /** isspace. */
  predicate IsSpace(c: char) {
    c == ' ' || c == '\U{c}' || c == '\n' || c == '\r' || c == '\t' || c == '\U{b}'
  }

  predicate IsFlag(c: char) {
    c == '#' || c == '-' || c == '+' || c == ' '
  }

  predicate Is(c: char, kind: Kind) {
    match kind
    case Blank => IsSpace(c)
    case Flag => IsFlag(c)
    case DigitOf(base) => IsDigitIn(c, base)
  }

  /** Where the longest stretch of one kind that starts at i ends. */
  function SpanEnd(s: string, i: nat, kind: Kind): (e: nat)
    requires i <= |s|
    ensures i <= e <= |s| && (forall k :: i <= k < e ==> Is(s[k], kind)) && !Is(At(s, e), kind)
    decreases |s| - i
  {
    if Is(At(s, i), kind) then
      assert i < |s|;
      SpanEnd(s, i + 1, kind)
    else i
  }

  lemma {:induction false} SpanIs(s: string, i: nat, kind: Kind, e: nat)
    requires i <= e <= |s| && (forall k :: i <= k < e ==> Is(s[k], kind)) && !Is(At(s, e), kind)
    ensures SpanEnd(s, i, kind) == e
    decreases e - i
  {
    if i < e {
      SpanIs(s, i + 1, kind, e);
    }
  }
}
