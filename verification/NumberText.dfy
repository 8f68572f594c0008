/** Numbers printed by _doprnt and read back by strtol and strtoul, and directives read back by _doprnt. */
module NumberText {
  import opened Numerals
  import opened Doprnt
  import opened StrTo

  /** The digits that a scanner takes where body starts. */
  lemma TakesBody(t: string, i: nat, base: int, body: string, tail: string)
    requires i <= |t| && t[i..] == body + tail && AllDigits(body, base) && (tail == "" || tail[0] == ' ')
    ensures SpanEnd(t, i, DigitOf(base)) == i + |body| && t[i..i + |body|] == body
  {
    assert forall k :: 0 <= k < |body| ==> t[i + k] == t[i..][k] == body[k];
    assert forall k :: i <= k < i + |body| ==> t[k] == body[k - i];
    assert tail != "" ==> t[i + |body|] == t[i..][|body|] == tail[0];
    SpanIs(t, i, DigitOf(base), i + |body|);
  }

  lemma SkipsBlanks(t: string, a: nat, rest: string)
    requires t == Fill(' ', a) + rest && rest != "" && !IsSpace(rest[0])
    ensures SpanEnd(t, 0, Blank) == a && t[a..] == rest
  {
    SpanIs(t, 0, Blank, a);
  }

  /** Zeros and digits. */
  function Number(z: nat, digits: string): (s: string)
    ensures |s| == z + |digits|
  {
    Fill('0', z) + digits
  }

  lemma NumberIs(z: nat, u: nat, base: nat)
    requires 2 <= base <= 16
    ensures AllDigits(Number(z, Digits(u, base)), base) && Value(Number(z, Digits(u, base)), base) == u
    ensures |Number(z, Digits(u, base))| >= 1
  {
    ValueOfPadded(z, Digits(u, base), base);
    ValueOfDigits(u, base);
  }

  function ZerosIn(digits: string, front: nat, s: Spec): nat {
    Zeros(|digits|, s) + ZeroPad(Padding(|digits|, front, s), s)
  }

  function BlanksBefore(digits: string, front: nat, s: Spec): nat {
    LeftPad(Padding(|digits|, front, s), s)
  }

  /** The parts of a printed number. */
  lemma LayoutParts(digits: string, sign: string, prefix: string, s: Spec) returns (tail: string)
    ensures tail == "" || tail[0] == ' '
    ensures Layout(digits, sign, prefix, s) == Fill(' ', BlanksBefore(digits, |sign| + |prefix|, s)) +
      (sign + (prefix + (Number(ZerosIn(digits, |sign| + |prefix|, s), digits) + tail)))
  {
    tail := Fill(' ', RightPad(Padding(|digits|, |sign| + |prefix|, s), s));
  }

  // ---- every base: strtol and strtoul

  function ReadLong(t: string, base: int): int {
    var scan := StrTo.Signed(t, base);
    ToLong(if scan.neg then -StrTo.Magnitude(t, scan) else StrTo.Magnitude(t, scan))
  }

  /** What strtoul makes of a text. */
  function ReadUnsignedIn(t: string, base: int): int {
    StrTo.Magnitude(t, StrTo.Unsigned(t, base)) % W32
  }

  /** A prefix and a number are read as that number, in its base. */
  lemma DigitedReads(t: string, neg: bool, i: nat, u: nat, base: nat, alt: bool, z: nat, tail: string)
    requires 2 <= base <= 16 && i <= |t| && (tail == "" || tail[0] == ' ')
    requires t[i..] == Prefix(u, base, alt) + (Number(z, Digits(u, base)) + tail)
    ensures StrTo.Magnitude(t, StrTo.Digited(t, neg, i, base)) == u && StrTo.Digited(t, neg, i, base).neg == neg
  {
    hide Digits, Number, Value, AllDigits, SpanEnd, StrTo.Digited;
    var prefix, body := Prefix(u, base, alt), Number(z, Digits(u, base));
    NumberIs(z, u, base);
    if prefix == "0x" {
      BehindHexPrefix(t, neg, i, body, tail);
    } else if prefix == "0" {
      OctalBody(z, u, tail);
      PlainDigits(t, neg, i, base, Number(z + 1, Digits(u, 8)), tail);
    } else {
      assert "" + (body + tail) == body + tail;
      PlainDigits(t, neg, i, base, body, tail);
    }
  }

  lemma PlainDigits(t: string, neg: bool, i: nat, base: nat, body: string, tail: string)
    requires 2 <= base <= 16 && i <= |t| && t[i..] == body + tail && (tail == "" || tail[0] == ' ')
    requires body != "" && AllDigits(body, base)
    ensures StrTo.Digited(t, neg, i, base).neg == neg
    ensures StrTo.Magnitude(t, StrTo.Digited(t, neg, i, base)) == Value(body, base)
  {
    MoreDigits(body, base, 16);
    hide Value, SpanEnd, AllDigits;
    FollowedByX(t, i, body, tail);
    TakesBody(t, i, base, body, tail);
  }

  lemma BehindHexPrefix(t: string, neg: bool, i: nat, body: string, tail: string)
    requires i <= |t| && t[i..] == "0x" + (body + tail) && (tail == "" || tail[0] == ' ')
    requires body != "" && AllDigits(body, 16)
    ensures StrTo.Digited(t, neg, i, 16).neg == neg
    ensures StrTo.Magnitude(t, StrTo.Digited(t, neg, i, 16)) == Value(body, 16)
  {
    hide Value, SpanEnd, AllDigits;
    assert t[i] == t[i..][0] == '0' && t[i + 1] == t[i..][1] == 'x';
    assert t[i + 2..] == t[i..][2..] == body + tail;
    TakesBody(t, i + 2, 16, body, tail);
  }

  /** The first character behind the blanks and the sign. */
  lemma FrontChar(u: nat, base: nat, alt: bool, z: nat, tail: string)
    requires 2 <= base <= 16
    ensures var rest := Prefix(u, base, alt) + (Number(z, Digits(u, base)) + tail);
      rest != "" && !IsSpace(rest[0]) && rest[0] != '-'
  {
    NumberIs(z, u, base);
    var body := Number(z, Digits(u, base));
    assert IsDigitIn(body[0], base);
    assert Prefix(u, base, alt) == "" ==> (Prefix(u, base, alt) + (body + tail))[0] == body[0];
  }

  /** strtoul in the base of the text reads it back, for every width, precision and flag. */
  lemma UnsignedReadsBack(u: nat, base: nat, s: Spec)
    requires u < W32 && 2 <= base <= 16
    ensures ReadUnsignedIn(UnsignedText(u, base, s), base) == u
  {
    hide UnsignedText, StrTo.Unsigned, StrTo.Magnitude;
    UnsignedTextScan(u, base, s);
  }

  lemma UnsignedTextScan(u: nat, base: nat, s: Spec)
    requires 2 <= base <= 16
    ensures StrTo.Magnitude(UnsignedText(u, base, s), StrTo.Unsigned(UnsignedText(u, base, s), base)) == u
  {
    var digits, prefix := Digits(u, base), Prefix(u, base, s.alt);
    var tail := LayoutParts(digits, "", prefix, s);
    var front := |""| + |prefix|;
    var a, z, t := BlanksBefore(digits, front, s), ZerosIn(digits, front, s), UnsignedText(u, base, s);
    assert t == Layout(digits, "", prefix, s);
    hide Layout, Digits, Number, ZerosIn, BlanksBefore, UnsignedText, Prefix;
    UnsignedScan(t, a, u, base, s.alt, z, tail);
  }

  lemma UnsignedScan(t: string, a: nat, u: nat, base: nat, alt: bool, z: nat, tail: string)
    requires 2 <= base <= 16 && (tail == "" || tail[0] == ' ')
    requires t == Fill(' ', a) + ("" + (Prefix(u, base, alt) + (Number(z, Digits(u, base)) + tail)))
    ensures StrTo.Magnitude(t, StrTo.Unsigned(t, base)) == u
  {
    var rest := Prefix(u, base, alt) + (Number(z, Digits(u, base)) + tail);
    FrontChar(u, base, alt, z, tail);
    hide Prefix, Number, Digits, Fill, SpanEnd, StrTo.Digited;
    assert "" + rest == rest;
    SkipsBlanks(t, a, rest);
    DigitedReads(t, false, a, u, base, alt, z, tail);
  }

  /** strtol reads a printed long back, for every base, width, precision and flag, exactly when no '+' is in the way;
      with one it reads zero. */
  lemma SignedReadsBackIff(n: int, base: nat, s: Spec)
    requires -0x8000_0000 <= n <= LONG_MAX && 2 <= base <= 16 && (s.plus == "" || s.plus == " " || s.plus == "+")
    ensures ReadLong(SignedText(n, base, s), base) == n <==> s.plus != "+" || n <= 0
  {
    if n < 0 || s.plus != "+" {
      PlainSignScan(n, base, s);
    } else {
      PlusScan(n, base, s);
    }
  }

  lemma PlainSignScan(n: int, base: nat, s: Spec)
    requires 2 <= base <= 16 && (n < 0 || s.plus == "" || s.plus == " ")
    ensures StrTo.Signed(SignedText(n, base, s), base).neg == (n < 0)
    ensures StrTo.Magnitude(SignedText(n, base, s), StrTo.Signed(SignedText(n, base, s), base)) == Doprnt.Magnitude(n)
  {
    var u, sign := Doprnt.Magnitude(n), if n < 0 then "-" else s.plus;
    var digits, prefix := Digits(u, base), Prefix(u, base, s.alt);
    var tail := LayoutParts(digits, sign, prefix, s);
    var front := |sign| + |prefix|;
    var a, z, t := BlanksBefore(digits, front, s), ZerosIn(digits, front, s), SignedText(n, base, s);
    assert t == Layout(digits, sign, prefix, s);
    hide Layout, Digits, Number, ZerosIn, BlanksBefore, SignedText, Prefix;
    SignedParts(t, a, sign, n < 0, u, base, s.alt, z, tail);
  }

  lemma SignedParts(t: string, a: nat, sign: string, neg: bool, u: nat, base: nat, alt: bool, z: nat, tail: string)
    requires 2 <= base <= 16 && (tail == "" || tail[0] == ' ')
    requires t == Fill(' ', a) + (sign + (Prefix(u, base, alt) + (Number(z, Digits(u, base)) + tail)))
    requires if neg then sign == "-" else sign == "" || sign == " "
    ensures StrTo.Signed(t, base).neg == neg && StrTo.Magnitude(t, StrTo.Signed(t, base)) == u
  {
    var rest := Prefix(u, base, alt) + (Number(z, Digits(u, base)) + tail);
    FrontChar(u, base, alt, z, tail);
    hide Prefix, Number, Digits, Fill, SpanEnd, StrTo.Digited;
    var i := SignSkipped(t, a, sign, rest);
    DigitedReads(t, neg, i, u, base, alt, z, tail);
  }

  /** Where the number starts, behind the blanks and a minus sign. */
  lemma SignSkipped(t: string, a: nat, sign: string, rest: string) returns (i: nat)
    requires t == Fill(' ', a) + (sign + rest) && (sign == "" || sign == "-" || sign == " ")
    requires rest != "" && !IsSpace(rest[0]) && rest[0] != '-'
    ensures i <= |t| && t[i..] == rest
    ensures forall base :: StrTo.Signed(t, base) == StrTo.Digited(t, sign == "-", i, base)
  {
    hide SpanEnd, StrTo.Digited;
    if sign == "-" {
      SkipsBlanks(t, a, sign + rest);
      assert t[a] == t[a..][0] == '-';
      i := a + 1;
      assert t[i..] == t[a..][1..] == rest;
    } else {
      i := a + |sign|;
      if sign == " " {
        OneMoreBlank(a, rest);
      } else {
        assert sign + rest == rest;
      }
      SkipsBlanks(t, i, rest);
      assert t[i] == t[i..][0] == rest[0];
    }
  }

  lemma OneMoreBlank(a: nat, rest: string)
    ensures Fill(' ', a) + (" " + rest) == Fill(' ', a + 1) + rest && "" + rest == rest
  {
  }

  lemma PlusScan(n: int, base: nat, s: Spec)
    requires n >= 0 && 2 <= base <= 16 && s.plus == "+"
    ensures ReadLong(SignedText(n, base, s), base) == 0
  {
    var t, digits, prefix := SignedText(n, base, s), Digits(n, base), Prefix(n, base, s.alt);
    assert t == Layout(digits, "+", prefix, s);
    var front := |"+"| + |prefix|;
    var tail := LayoutParts(digits, "+", prefix, s);
    hide Layout, Digits, Number, ZerosIn, BlanksBefore, SignedText, ReadLong, Prefix;
    PlusStops(t, BlanksBefore(digits, front, s), prefix + (Number(ZerosIn(digits, front, s), digits) + tail), base);
  }

  /** What strtol makes of 5 printed with %+d. */
  lemma PlusFive()
    ensures var s := Spec(false, false, "+", false, 0, -1);
      SignedText(5, 10, s) == "+5" && ReadLong(SignedText(5, 10, s), 10) == 0
  {
    var s := Spec(false, false, "+", false, 0, -1);
    assert Digits(5, 10) == "5" && Fill(' ', 0) == Fill('0', 0) == "";
    assert SignedText(5, 10, s) == "" + "+" + "" + "" + "5" + "" == "+5";
    hide SignedText, ReadLong;
    PlusStops("+5", 0, "5", 10);
  }

  /** strtol takes no digit when it comes to a plus sign. */
  lemma PlusStops(t: string, a: nat, rest: string, base: nat)
    requires t == Fill(' ', a) + ("+" + rest) && 2 <= base <= 16
    ensures ReadLong(t, base) == 0
  {
    SkipsBlanks(t, a, "+" + rest);
    assert t[a] == t[a..][0] == '+';
    assert SpanEnd(t, a, DigitOf(base)) == a;
    assert t[a..a] == "" && Value("", base) == 0;
    hide SpanEnd, Value;
  }

  /** While it reads back a printed long, strtol stays inside the range of long except for LONG_MIN. */
  lemma SignedReadExactIff(n: int, s: Spec)
    requires -0x8000_0000 <= n <= LONG_MAX && (s.plus == "" || s.plus == " ")
    ensures StrTo.Magnitude(SignedText(n, 10, s), StrTo.Signed(SignedText(n, 10, s), 10)) <= LONG_MAX <==>
      n != -0x8000_0000
  {
    PlainSignScan(n, 10, s);
  }

  // ---- any numeral, not only a printed one

  /** Letters of either case count from ten on. */
  lemma DigitsOfAlphabet(d: nat)
    ensures d < 10 ==> DigitValue('0' + d as char) == d
    ensures d < 26 ==> DigitValue('a' + d as char) == DigitValue('A' + d as char) == 10 + d
  {
  }

  predicate White(s: string) {
    forall k :: 0 <= k < |s| ==>
      s[k] == ' ' || s[k] == '\t' || s[k] == '\n' || s[k] == '\U{b}' || s[k] == '\U{c}' || s[k] == '\r'
  }

  /** The digits of a base, with nothing behind them that could belong to them. */
  predicate Numeral(body: string, rest: string, base: nat) {
    && body != "" && AllDigits(body, base) && (rest == "" || !IsDigitIn(rest[0], base))
    && !(base == 16 && body == "0" && rest != "" && (rest[0] == 'x' || rest[0] == 'X'))
  }

  /** White space in front of a numeral is skipped, and so is a minus sign by strtol: both take all the digits of the
      base, in letters of either case, and stop behind them. */
  lemma NumeralIsRead(white: string, neg: bool, body: string, rest: string, base: nat)
    requires 2 <= base <= 36 && White(white) && Numeral(body, rest, base)
    ensures var t := white + ((if neg then "-" else "") + (body + rest));
      && StrTo.Signed(t, base).neg == neg && StrTo.Signed(t, base).end == |t| - |rest|
      && StrTo.Magnitude(t, StrTo.Signed(t, base)) == Value(body, base)
    ensures var t := white + (body + rest);
      StrTo.Unsigned(t, base).end == |t| - |rest| && StrTo.Magnitude(t, StrTo.Unsigned(t, base)) == Value(body, base)
  {
    hide SpanEnd, Value, AllDigits, White, Numeral, StrTo.Signed, StrTo.Unsigned, StrTo.Digited;
    var t, u := white + ((if neg then "-" else "") + (body + rest)), white + (body + rest);
    NumeralSigned(white, neg, body, rest, base);
    NumeralUnsigned(white, body, rest, base);
  }

  lemma NumeralSigned(white: string, neg: bool, body: string, rest: string, base: nat)
    requires 2 <= base <= 36 && White(white) && Numeral(body, rest, base)
    ensures var t, i := white + ((if neg then "-" else "") + (body + rest)), |white| + if neg then 1 else 0;
      StrTo.Signed(t, base) == StrTo.Scan(neg, base, i, i + |body|) && i + |body| <= |t| && t[i..i + |body|] == body
  {
    var sign := if neg then "-" else "";
    var t, i := white + (sign + (body + rest)), |white| + |sign|;
    FirstOf(body, rest, base);
    WhiteSkipped(white, sign + (body + rest));
    hide SpanEnd, AllDigits, White, Numeral, StrTo.Digited;
    assert t[|white|..] == sign + (body + rest);
    assert t[i..] == t[|white|..][|sign|..] == body + rest;
    assert t[|white|] == t[|white|..][0];
    DigitedNumeral(t, neg, i, body, rest, base);
  }

  lemma NumeralUnsigned(white: string, body: string, rest: string, base: nat)
    requires 2 <= base <= 36 && White(white) && Numeral(body, rest, base)
    ensures var t, i := white + (body + rest), |white|;
      StrTo.Unsigned(t, base) == StrTo.Scan(false, base, i, i + |body|) && i + |body| <= |t| && t[i..i + |body|] == body
  {
    var t := white + (body + rest);
    FirstOf(body, rest, base);
    WhiteSkipped(white, body + rest);
    hide SpanEnd, AllDigits, White, Numeral, StrTo.Digited;
    assert t[|white|..] == body + rest;
    DigitedNumeral(t, false, |white|, body, rest, base);
  }

  lemma FirstOf(body: string, rest: string, base: nat)
    requires 2 <= base <= 36 && Numeral(body, rest, base)
    ensures body + rest != "" && !IsSpace((body + rest)[0]) && (body + rest)[0] != '-'
  {
    NotWhite(body[0], base);
    assert (body + rest)[0] == body[0];
  }

  lemma NotWhite(c: char, base: nat)
    requires base <= 36 && IsDigitIn(c, base)
    ensures !IsSpace(c) && c != '-'
  {
  }

  lemma WhiteSkipped(white: string, rest: string)
    requires White(white) && rest != "" && !IsSpace(rest[0])
    ensures SpanEnd(white + rest, 0, Blank) == |white|
  {
    SpanIs(white + rest, 0, Blank, |white|);
  }

  lemma DigitedNumeral(t: string, neg: bool, i: nat, body: string, rest: string, base: nat)
    requires 2 <= base <= 36 && i <= |t| && t[i..] == body + rest && Numeral(body, rest, base)
    ensures StrTo.Digited(t, neg, i, base) == StrTo.Scan(neg, base, i, i + |body|) && t[i..i + |body|] == body
  {
    assert forall k :: 0 <= k < |body| ==> t[i + k] == t[i..][k] == body[k];
    assert rest != "" ==> t[i + |body|] == t[i..][|body|] == rest[0];
    assert forall k :: i <= k < i + |body| ==> t[k] == body[k - i];
    forall k | i <= k < i + |body| ensures Is(t[k], DigitOf(base)) {
      assert IsDigitIn(body[k - i], base);
    }
    SpanIs(t, i, DigitOf(base), i + |body|);
    assert |body| > 1 ==> t[i + 1] == body[1] && IsDigitIn(body[1], base);
  }

  // ---- the letters

  /** How long a printed number is: the width, or its sign, its prefix and its digits or the precision if longer. */
  lemma TextLength(n: int, u: nat, base: nat, s: Spec)
    requires 2 <= base <= 16
    ensures |SignedText(n, base, s)| == Max(s.width, (if n < 0 then 1 else |s.plus|) +
      |Prefix(Doprnt.Magnitude(n), base, s.alt)| + Max(|Digits(Doprnt.Magnitude(n), base)|, s.prec))
    ensures |UnsignedText(u, base, s)| == Max(s.width, |Prefix(u, base, s.alt)| + Max(|Digits(u, base)|, s.prec))
  {
    hide Layout, Digits, Prefix;
    LayoutLength(Digits(Doprnt.Magnitude(n), base), if n < 0 then "-" else s.plus,
                 Prefix(Doprnt.Magnitude(n), base, s.alt), s);
    LayoutLength(Digits(u, base), "", Prefix(u, base, s.alt), s);
  }

  /** Blanks, signs, digits, the letters of the digits from ten on and of the prefix, all of them lower case. */
  predicate LowerCase(t: string) {
    forall c :: c in t ==> c in {' ', '-', '+', 'x'} || '0' <= c <= '9' || 'a' <= c <= 'f'
  }

  lemma LowerBoth(t: string, u: string)
    ensures LowerCase(t) && LowerCase(u) ==> LowerCase(t + u)
  {
  }

  lemma {:induction false} LowerDigits(u: nat, base: nat)
    requires 2 <= base <= 16
    ensures LowerCase(Digits(u, base))
  {
    if u >= base {
      DivIsSmaller(u, base);
      LowerDigits(u / base, base);
      LowerBoth(Digits(u / base, base), [DigitChar(u % base)]);
    }
  }

  lemma LowerLayout(digits: string, sign: string, prefix: string, s: Spec)
    requires LowerCase(digits) && LowerCase(sign) && LowerCase(prefix)
    ensures LowerCase(Layout(digits, sign, prefix, s))
  {
    var pad := Padding(|digits|, |sign| + |prefix|, s);
    var left, zeros, right := Fill(' ', LeftPad(pad, s)), Fill('0', Zeros(|digits|, s) + ZeroPad(pad, s)),
                              Fill(' ', RightPad(pad, s));
    hide Fill, Padding, LeftPad, RightPad, Zeros, ZeroPad;
    assert LowerCase(left) && LowerCase(zeros) && LowerCase(right);
    hide LowerCase;
    LowerBoth(left, sign);
    LowerBoth(left + sign, prefix);
    LowerBoth(left + sign + prefix, zeros);
    LowerBoth(left + sign + prefix + zeros, digits);
    LowerBoth(left + sign + prefix + zeros + digits, right);
  }

  /** No conversion prints a capital letter, %X included. */
  lemma LowerText(n: int, u: nat, base: nat, s: Spec)
    requires 2 <= base <= 16 && s.plus in {"", " ", "+"}
    ensures LowerCase(SignedText(n, base, s)) && LowerCase(UnsignedText(u, base, s))
  {
    hide Layout, Digits;
    LowerDigits(Doprnt.Magnitude(n), base);
    LowerDigits(u, base);
    var p, q := Prefix(Doprnt.Magnitude(n), base, s.alt), Prefix(u, base, s.alt);
    assert LowerCase(p) && LowerCase(q);
    LowerLayout(Digits(Doprnt.Magnitude(n), base), if n < 0 then "-" else s.plus, p, s);
    LowerLayout(Digits(u, base), "", q, s);
  }

  /** What is printed for each letter is read back in the base that the letter stands for: a long by strtol, unless
      '+' was put before it, and an unsigned long by strtoul. */
  lemma LettersReadBack(fmt: string, i: nat, args: seq<int>, radix: nat)
    requires i <= |fmt| && Stars(fmt, i) < |args| && IsInteger(ConversionOf(At(fmt, LetterAt(fmt, i)), radix))
    ensures var c, arg := At(fmt, LetterAt(fmt, i)), args[Stars(fmt, i)];
      var t, plain := Printed(fmt, i, args, radix), SpecAt(fmt, i, args).plus != "+" || ToLong(arg) <= 0;
      && (c == 'd' || c == 'i' || c == 'D' ==> (ReadLong(t, 10) == ToLong(arg) <==> plain))
      && (c == 'z' || c == 'Z' ==> (ReadLong(t, 16) == ToLong(arg) <==> plain))
      && (c == 'r' || c == 'R' ==> (ReadLong(t, radix) == ToLong(arg) <==> plain))
      && (c == 'u' || c == 'U' ==> ReadUnsignedIn(t, 10) == arg % W32)
      && (c == 'o' || c == 'O' ==> ReadUnsignedIn(t, 8) == arg % W32)
      && (c == 'x' || c == 'X' ==> ReadUnsignedIn(t, 16) == arg % W32)
      && (c == 'n' || c == 'N' ==> ReadUnsignedIn(t, radix) == arg % W32)
  {
    var conv, arg, s := ConversionOf(At(fmt, LetterAt(fmt, i)), radix), args[Stars(fmt, i)], SpecAt(fmt, i, args);
    PlusIsShort(fmt, i, args);
    hide SpecAt, SignedText, UnsignedText, ReadLong, ReadUnsignedIn, LetterAt, Stars;
    match conv {
      case SignedIn(base) => SignedReadsBackIff(ToLong(arg), base, s);
      case UnsignedIn(base) => UnsignedReadsBack(arg % W32, base, s);
      case Other =>
    }
  }

  // ---- %#x, %#o, %u and strtoul

  function ReadUnsigned(t: string): int {
    StrTo.Magnitude(t, StrTo.Unsigned(t, 0)) % W32
  }

  lemma ReadUnsignedIs(t: string, u: int)
    requires StrTo.Magnitude(t, Unsigned(t, 0)) == u && 0 <= u < W32
    ensures ReadUnsigned(t) == u
  {
  }

  /** A number that strtoul takes for octal: it starts with zero. */
  lemma OctalScan(t: string, a: nat, body: string, tail: string)
    requires t == Fill(' ', a) + (body + tail) && body != "" && body[0] == '0' && AllDigits(body, 16)
    requires AllDigits(body, 8) && (tail == "" || tail[0] == ' ')
    ensures StrTo.Magnitude(t, StrTo.Unsigned(t, 0)) == Value(body, 8)
  {
    SkipsBlanks(t, a, body + tail);
    FollowedByX(t, a, body, tail);
    TakesBody(t, a, 8, body, tail);
  }

  /** No 'x' follows the first zero. */
  lemma FollowedByX(t: string, a: nat, body: string, tail: string)
    requires a <= |t| && t[a..] == body + tail && body != "" && AllDigits(body, 16) && (tail == "" || tail[0] == ' ')
    ensures At(t, a) == body[0] && (body[0] == '0' ==> At(t, a + 1) != 'x' && At(t, a + 1) != 'X')
  {
    assert t[a] == t[a..][0];
    if |body| > 1 {
      assert t[a + 1] == t[a..][1] == body[1];
      assert IsDigitIn(body[1], 16);
    } else if tail != "" {
      assert t[a + 1] == t[a..][1] == tail[0];
    }
  }

  lemma HexScan(t: string, a: nat, body: string, tail: string)
    requires t == Fill(' ', a) + ("0x" + (body + tail)) && AllDigits(body, 16) && (tail == "" || tail[0] == ' ')
    ensures StrTo.Magnitude(t, StrTo.Unsigned(t, 0)) == Value(body, 16)
  {
    hide Value, DigitValue;
    SkipsBlanks(t, a, "0x" + (body + tail));
    assert t[a] == t[a..][0] == '0' && t[a + 1] == t[a..][1] == 'x';
    assert t[a + 2..] == t[a..][2..];
    TakesBody(t, a + 2, 16, body, tail);
  }

  lemma DecimalScan(t: string, a: nat, body: string, tail: string)
    requires t == Fill(' ', a) + (body + tail) && body != "" && body[0] != '0' && AllDigits(body, 10)
    requires tail == "" || tail[0] == ' '
    ensures StrTo.Magnitude(t, StrTo.Unsigned(t, 0)) == Value(body, 10)
  {
    assert IsDigitIn(body[0], 10);
    SkipsBlanks(t, a, body + tail);
    assert t[a] == t[a..][0];
    TakesBody(t, a, 10, body, tail);
  }

  lemma MoreDigits(s: string, small: int, big: int)
    requires AllDigits(s, small) && small <= big
    ensures AllDigits(s, big)
  {
    assert forall k :: 0 <= k < |s| ==> IsDigitIn(s[k], small);
  }

  /** strtoul in base zero reads back %#x and %#o, for every width, precision and alignment. */
  lemma AltReadsBack(u: nat, base: nat, s: Spec)
    requires u < W32 && (base == 8 || base == 16) && s.alt
    ensures ReadUnsigned(UnsignedText(u, base, s)) == u
  {
    var digits, prefix := Digits(u, base), Prefix(u, base, true);
    var tail := LayoutParts(digits, "", prefix, s);
    var a, z := BlanksBefore(digits, |prefix|, s), ZerosIn(digits, |prefix|, s);
    LeadingDigit(u, base);
    var t := UnsignedText(u, base, s);
    assert t == Layout(digits, "", prefix, s);
    hide Layout, Digits, ZerosIn, BlanksBefore, Number, UnsignedText, ReadUnsigned;
    AltScan(t, a, z, u, base, tail);
    ReadUnsignedIs(t, u);
  }

  lemma AltScan(t: string, a: nat, z: nat, u: nat, base: nat, tail: string)
    requires (base == 8 || base == 16) && (tail == "" || tail[0] == ' ')
    requires t == Fill(' ', a) + ("" + (Prefix(u, base, true) + (Number(z, Digits(u, base)) + tail)))
    ensures StrTo.Magnitude(t, StrTo.Unsigned(t, 0)) == u
  {
    var body := Number(z, Digits(u, base));
    assert "" + (Prefix(u, base, true) + (body + tail)) == Prefix(u, base, true) + (body + tail);
    NumberIs(z, u, base);
    if u == 0 {
      ZeroNumber(z, base);
      assert "" + (body + tail) == body + tail;
      hide Value, Digits, Number, AllDigits;
      OctalScan(t, a, body, tail);
    } else if base == 16 {
      hide Value, Digits, Number, AllDigits;
      HexScan(t, a, body, tail);
    } else {
      OctalBody(z, u, tail);
      hide Value, Digits, Number, AllDigits;
      OctalScan(t, a, Number(z + 1, Digits(u, 8)), tail);
    }
  }

  /** The prefix of octal numbers is one more zero. */
  lemma OctalBody(z: nat, u: nat, tail: string)
    ensures "0" + (Number(z, Digits(u, 8)) + tail) == Number(z + 1, Digits(u, 8)) + tail
    ensures Number(z + 1, Digits(u, 8))[0] == '0' && Value(Number(z + 1, Digits(u, 8)), 8) == u
    ensures AllDigits(Number(z + 1, Digits(u, 8)), 8) && AllDigits(Number(z + 1, Digits(u, 8)), 16)
  {
    NumberIs(z + 1, u, 8);
    MoreDigits(Number(z + 1, Digits(u, 8)), 8, 16);
  }

  lemma ZeroNumber(z: nat, base: nat)
    requires 2 <= base <= 16
    ensures Number(z, Digits(0, base))[0] == '0'
    ensures AllDigits(Number(z, Digits(0, base)), 8) && AllDigits(Number(z, Digits(0, base)), 16)
    ensures Value(Number(z, Digits(0, base)), 8) == 0
  {
    assert Digits(0, base) == Digits(0, 8);
    NumberIs(z, 0, 8);
    MoreDigits(Number(z, Digits(0, 8)), 8, 16);
  }

  // ---- leading zeros make a decimal number octal

  lemma {:induction false} OctalSmaller(p: string)
    requires AllDigits(p, 8)
    ensures 0 <= Value(p, 8) <= Value(p, 10)
    ensures p != "" && p[0] != '0' ==> 1 <= Value(p, 8)
    ensures |p| >= 2 && p[0] != '0' ==> Value(p, 8) < Value(p, 10)
  {
    if p != "" {
      var q := p[..|p| - 1];
      assert IsDigitIn(p[0], 8) && IsDigitIn(p[|p| - 1], 8);
      OctalSmaller(q);
    }
  }

  lemma {:induction false} PrefixSmaller(s: string, k: nat)
    requires AllDigits(s, 10) && k < |s| && s[0] != '0'
    ensures 0 <= Value(s[..k], 10) < Value(s, 10)
    decreases |s|
  {
    var q := s[..|s| - 1];
    assert IsDigitIn(s[0], 10) && IsDigitIn(s[|s| - 1], 10);
    if k == |s| - 1 {
      if k > 0 {
        PrefixSmaller(s[..k], 0);
        assert Value(s[..k][..0], 10) == 0;
      }
    } else {
      assert q[..k] == s[..k];
      PrefixSmaller(q, k);
    }
  }

  lemma UnsignedParts(u: nat, s: Spec) returns (tail: string)
    ensures tail == "" || tail[0] == ' '
    ensures var digits := Digits(u, 10);
      UnsignedText(u, 10, s) == Fill(' ', BlanksBefore(digits, 0, s)) + (Number(ZerosIn(digits, 0, s), digits) + tail)
  {
    var digits := Digits(u, 10);
    tail := LayoutParts(digits, "", "", s);
    hide Layout, Digits, ZerosIn, BlanksBefore, Number;
    assert "" + ("" + (Number(ZerosIn(digits, 0, s), digits) + tail)) == Number(ZerosIn(digits, 0, s), digits) + tail;
  }

  /** What strtoul makes of 10 printed with %03u. */
  lemma PaddedTen()
    ensures var s := Spec(false, false, "", true, 3, -1);
      UnsignedText(10, 10, s) == "010" && ReadUnsigned(UnsignedText(10, 10, s)) == 8
  {
    var s := Spec(false, false, "", true, 3, -1);
    assert Digits(1, 10) == "1";
    assert Digits(10, 10) == "10" && Fill(' ', 0) == "";
    assert Fill('0', 1) == "0";
    assert UnsignedText(10, 10, s) == "" + "" + "" + "0" + "10" + "" == "010";
    assert Digits(1, 8) == "1";
    assert Digits(8, 8) == "10" && Number(1, "10") == "010";
    NumberIs(1, 8, 8);
    NumberIs(1, 10, 10);
    MoreDigits("010", 10, 16);
    hide Value, Digits, Number, AllDigits, UnsignedText;
    assert "010" == Fill(' ', 0) + ("010" + "");
    OctalScan("010", 0, "010", "");
    ReadUnsignedIs("010", 8);
  }

  /** strtoul in base zero reads %u back exactly when no zero was put before the digits, or the number has one
      octal digit. */
  lemma DecimalReadsBackIff(u: nat, s: Spec)
    requires u < W32
    ensures ReadUnsigned(UnsignedText(u, 10, s)) == u <==> ZerosIn(Digits(u, 10), 0, s) == 0 || u < 8
  {
    var t, digits := UnsignedText(u, 10, s), Digits(u, 10);
    var a, z := BlanksBefore(digits, 0, s), ZerosIn(digits, 0, s);
    var tail := UnsignedParts(u, s);
    hide Digits, ZerosIn, BlanksBefore, Number, UnsignedText, ReadUnsigned;
    if u < 8 {
      SmallScan(t, a, z, u, tail);
    } else if z == 0 {
      NoZeroScan(t, a, u, tail);
    } else {
      LosesValue(t, a, z, u, tail);
    }
    ReadUnsignedIs(t, StrTo.Magnitude(t, Unsigned(t, 0)));
  }

  lemma SmallScan(t: string, a: nat, z: nat, u: nat, tail: string)
    requires u < 8 && t == Fill(' ', a) + (Number(z, Digits(u, 10)) + tail) && (tail == "" || tail[0] == ' ')
    ensures StrTo.Magnitude(t, StrTo.Unsigned(t, 0)) == u
  {
    var body := Number(z, Digits(u, 10));
    assert Digits(u, 8) == Digits(u, 10);
    NumberIs(z, u, 8);
    NumberIs(z, u, 10);
    MoreDigits(body, 8, 16);
    hide Value, Digits, Number, AllDigits;
    if body[0] == '0' {
      OctalScan(t, a, body, tail);
    } else {
      DecimalScan(t, a, body, tail);
    }
  }

  lemma NoZeroScan(t: string, a: nat, u: nat, tail: string)
    requires u >= 8 && t == Fill(' ', a) + (Number(0, Digits(u, 10)) + tail) && (tail == "" || tail[0] == ' ')
    ensures StrTo.Magnitude(t, StrTo.Unsigned(t, 0)) == u
  {
    NumberIs(0, u, 10);
    LeadingDigit(u, 10);
    assert Number(0, Digits(u, 10)) == Digits(u, 10);
    hide Value, Digits, Number, AllDigits;
    DecimalScan(t, a, Digits(u, 10), tail);
  }

  /** 8 and 9 are not octal digits. */
  lemma OneDigit(u: nat)
    requires 8 <= u && AllDigits(Digits(u, 10), 8)
    ensures u >= 10
  {
    var d := Digits(u, 10)[0];
    assert IsDigitIn(d, 8);
    assert u < 10 ==> DigitValue(d) == u;
  }

  lemma LosesValue(t: string, a: nat, z: nat, u: nat, tail: string)
    requires z >= 1 && u >= 8 && t == Fill(' ', a) + (Number(z, Digits(u, 10)) + tail) && (tail == "" || tail[0] == ' ')
    ensures 0 <= StrTo.Magnitude(t, StrTo.Unsigned(t, 0)) < u
  {
    var digits, body := Digits(u, 10), Number(z, Digits(u, 10));
    NumberIs(z, u, 10);
    assert body[0] == '0';
    hide Value, Fill, Digits, Number, SpanEnd, AllDigits, StrTo.Unsigned;
    MoreDigits(body, 10, 16);
    SkipsBlanks(t, a, body + tail);
    FollowedByX(t, a, body, tail);
    OctalFrom(t, a);
    OctalPart(t, a, z, digits, tail);
    OctalIsLess(u, z, SpanEnd(t, a, DigitOf(8)) - a - z);
  }

  lemma OctalFrom(t: string, a: nat)
    requires SpanEnd(t, 0, Blank) == a <= |t| && At(t, a) == '0' && At(t, a + 1) != 'x' && At(t, a + 1) != 'X'
    ensures StrTo.Unsigned(t, 0) == StrTo.Scan(false, 8, a, SpanEnd(t, a, DigitOf(8)))
  {
    hide SpanEnd;
  }

  /** The decimal digits of a number of two digits or more, or a part of them, stand for less in octal. */
  lemma OctalIsLess(u: nat, z: nat, k: nat)
    requires u >= 8 && k <= |Digits(u, 10)| && AllDigits(Digits(u, 10)[..k], 8)
    ensures 0 <= Value(Number(z, Digits(u, 10)[..k]), 8) < u
  {
    var digits := Digits(u, 10);
    ValueOfPadded(z, digits[..k], 8);
    LeadingDigit(u, 10);
    ValueOfDigits(u, 10);
    OctalSmaller(digits[..k]);
    if k < |digits| {
      PrefixSmaller(digits, k);
    } else {
      assert digits[..k] == digits;
      OneDigit(u);
    }
  }

  lemma AtInText(t: string, a: nat, z: nat, digits: string, tail: string, k: nat)
    requires a <= k <= |t| && t[a..] == Number(z, digits) + tail && (tail == "" || tail[0] == ' ')
    ensures k < a + z ==> At(t, k) == '0'
    ensures k == a + z + |digits| ==> At(t, k) == ' ' || At(t, k) == '\0'
  {
    assert k < |t| ==> t[k] == t[a..][k - a];
  }

  /** In octal the scanner takes the zeros and the octal digits behind them. */
  lemma OctalPart(t: string, a: nat, z: nat, digits: string, tail: string)
    requires a <= |t| && t[a..] == Number(z, digits) + tail && (tail == "" || tail[0] == ' ')
    ensures a + z <= SpanEnd(t, a, DigitOf(8)) <= a + z + |digits|
    ensures t[a..SpanEnd(t, a, DigitOf(8))] == Number(z, digits[..SpanEnd(t, a, DigitOf(8)) - a - z])
    ensures AllDigits(digits[..SpanEnd(t, a, DigitOf(8)) - a - z], 8)
  {
    var e := SpanEnd(t, a, DigitOf(8));
    AtInText(t, a, z, digits, tail, e);
    AtInText(t, a, z, digits, tail, a + z + |digits|);
    assert t[a..e] == t[a..][..e - a] == Number(z, digits[..e - a - z]);
    forall k | 0 <= k < e - a - z ensures IsDigitIn(digits[k], 8) {
      assert digits[k] == t[a..][z + k] == t[a + z + k];
      assert Is(t[a + z + k], DigitOf(8));
    }
  }

  // ---- directives

  function WidthText(width: nat): string {
    if width > 0 then Digits(width, 10) else ""
  }

  function PrecText(prec: int): string {
    if prec >= 0 then "." + Digits(prec, 10) else ""
  }

  /** A directive written out, behind its '%'. */
  function Directive(flags: string, zero: bool, width: nat, prec: int, letter: char): string {
    flags + (if zero then "0" else "") + WidthText(width) + PrecText(prec) + [letter]
  }

  predicate AllFlags(flags: string) {
    forall k :: 0 <= k < |flags| ==> flags[k] == '#' || flags[k] == '-' || flags[k] == '+' || flags[k] == ' '
  }

  /** A letter that no part of a directive can hold. */
  predicate IsLetter(c: char) {
    !IsFlag(c) && !IsDecimal(c) && c != '*' && c != '.' && c != 'l' && c != '\0'
  }

  /** One part of a directive: where its characters of a kind end. */
  lemma PartEnds(before: string, part: string, after: string, kind: Kind)
    requires (forall k :: 0 <= k < |part| ==> Is(part[k], kind)) && after != "" && !Is(after[0], kind)
    ensures SpanEnd(before + part + after, |before|, kind) == |before| + |part|
    ensures (before + part + after)[|before|..|before| + |part|] == part
  {
    hide Is;
    PartAt(before, part, after);
    var t := before + part + after;
    forall k | |before| <= k < |before| + |part| ensures Is(t[k], kind) {
      assert Is(part[k - |before|], kind);
    }
    SpanIs(t, |before|, kind, |before| + |part|);
  }

  lemma PartAt(before: string, part: string, after: string)
    requires after != ""
    ensures forall k :: |before| <= k < |before| + |part| ==> (before + part + after)[k] == part[k - |before|]
    ensures (before + part + after)[|before| + |part|] == after[0]
    ensures (before + part + after)[|before|..|before| + |part|] == part
  {
  }

  lemma DigitsAreDecimal(n: nat)
    ensures Digits(n, 10) != "" && forall k :: 0 <= k < |Digits(n, 10)| ==> Is(Digits(n, 10)[k], DigitOf(10))
    ensures '0' <= Digits(n, 10)[0] <= '9' && (n > 0 ==> Digits(n, 10)[0] != '0')
  {
    assert IsDigitIn(Digits(n, 10)[0], 10);
    LeadingDigit(n, 10);
  }

  /** The flags end where the directive goes on. */
  lemma FlagsAreRead(flags: string, zero: bool, rest: string)
    requires AllFlags(flags) && rest != "" && rest[0] != '0' && !IsFlag(rest[0])
    ensures FlagsEnd(flags + (if zero then "0" else "") + rest, 0) == |flags|
    ensures At(flags + (if zero then "0" else "") + rest, |flags|) == (if zero then '0' else rest[0])
    ensures WidthAt(flags + (if zero then "0" else "") + rest, 0) == |flags| + if zero then 1 else 0
    ensures (flags + (if zero then "0" else "") + rest)[..|flags|] == flags
  {
    var z := if zero then "0" else "";
    var fmt := flags + z + rest;
    assert fmt == "" + flags + (z + rest);
    PartEnds("", flags, z + rest, Flag);
  }

  /** A number ends where the directive goes on. */
  lemma NumberIsRead(before: string, n: nat, after: string)
    requires after != "" && !IsDecimal(after[0])
    ensures NumberEnd(before + Digits(n, 10) + after, |before|) == |before| + |Digits(n, 10)|
    ensures IsDecimal(At(before + Digits(n, 10) + after, |before|))
    ensures Value((before + Digits(n, 10) + after)[|before|..|before| + |Digits(n, 10)|], 10) == n
  {
    DigitsAreDecimal(n);
    PartEnds(before, Digits(n, 10), after, DigitOf(10));
    ValueOfDigits(n, 10);
    var t := before + Digits(n, 10) + after;
    assert t[|before|] == Digits(n, 10)[0];
    assert Is(Digits(n, 10)[0], DigitOf(10));
  }

  /** _doprnt reads a directive as it was written: the flags in any order, a zero, a width, a precision. */
  lemma DirectiveIsRead(flags: string, zero: bool, width: nat, prec: int, letter: char)
    requires AllFlags(flags) && prec >= -1 && IsLetter(letter)
    ensures Stars(Directive(flags, zero, width, prec, letter), 0) == 0
    ensures SpecAt(Directive(flags, zero, width, prec, letter), 0, []) ==
            Spec('#' in flags, '-' in flags, PlusOf(flags), zero, width, prec)
    ensures At(Directive(flags, zero, width, prec, letter),
      LetterAt(Directive(flags, zero, width, prec, letter), 0)) == letter
  {
    var fmt := Directive(flags, zero, width, prec, letter);
    var z, wt, tail := if zero then "0" else "", WidthText(width), PrecText(prec) + [letter];
    Regroup(flags, z, wt, PrecText(prec), [letter]);
    AfterFlags(width, prec, letter);
    hide SpecAt, FlagsEnd, WidthAt, NumberEnd, Value, PrecRead, LetterAt, Stars, PrecText, WidthText, Directive;
    FlagsAreRead(flags, zero, wt + tail);
    WidthIsRead(fmt, flags + z, width, tail);
    PrecIsRead(fmt, flags + z + wt, prec, letter);
    assert |flags + z| == |flags| + (if zero then 1 else 0) && |flags + z + wt| == |flags + z| + |wt|;
    PartsMakeSpec(fmt, flags, zero, width, prec, letter, |flags + z|, |flags + z + wt|);
  }

  lemma Regroup(f: string, z: string, w: string, p: string, l: string)
    ensures f + z + w + p + l == f + z + (w + (p + l)) == f + z + w + (p + l)
  {
  }

  /** A directive whose parts end as they should. */
  lemma PartsMakeSpec(fmt: string, flags: string, zero: bool, width: nat, prec: int, letter: char, w: nat, p: nat)
    requires w <= p <= |fmt| && |flags| <= |fmt| && prec >= -1 && IsLetter(letter)
    requires FlagsEnd(fmt, 0) == |flags| && fmt[..|flags|] == flags && (At(fmt, |flags|) == '0' <==> zero)
    requires WidthAt(fmt, 0) == w && NumberEnd(fmt, w) == p && At(fmt, w) != '*' && Value(fmt[w..p], 10) == width
    requires PrecRead(fmt, p, prec, letter)
    ensures Stars(fmt, 0) == 0 && At(fmt, LetterAt(fmt, 0)) == letter
    ensures SpecAt(fmt, 0, []) == Spec('#' in flags, '-' in flags, PlusOf(flags), zero, width, prec)
  {
    assert At(fmt, p + if prec >= 0 then 1 else 0) != '*';
    hide Value, NumberEnd, FlagsEnd, WidthAt, PlusOf;
  }

  /** A precision, or none, and the letter from position p on. */
  predicate PrecRead(fmt: string, p: nat, prec: int, letter: char)
    requires p <= |fmt|
  {
    if prec < 0 then At(fmt, p) == letter
    else
      At(fmt, p) == '.' && IsDecimal(At(fmt, p + 1)) && NumberEnd(fmt, p + 1) == |fmt| - 1 &&
      At(fmt, |fmt| - 1) == letter && Value(fmt[p + 1..|fmt| - 1], 10) == prec
  }

  /** A directive with asterisks for its width and its precision: a negative width turns the alignment over. */
  lemma StarsAreRead(flags: string, zero: bool, letter: char, width: int, prec: int)
    requires AllFlags(flags) && IsLetter(letter)
    ensures var fmt := flags + (if zero then "0" else "") + ("*.*" + [letter]);
      Stars(fmt, 0) == 2 && At(fmt, LetterAt(fmt, 0)) == letter &&
      SpecAt(fmt, 0, [width, prec]) == Spec('#' in flags, ('-' in flags) != (width < 0), PlusOf(flags), zero,
                                            if width < 0 then -width else width, prec)
  {
    var rest := "*.*" + [letter];
    var fmt, w := flags + (if zero then "0" else "") + rest, |flags| + if zero then 1 else 0;
    FlagsAreRead(flags, zero, rest);
    assert fmt[w..] == rest;
    assert fmt[w] == fmt[w..][0] && fmt[w + 1] == fmt[w..][1] && fmt[w + 2] == fmt[w..][2] && fmt[w + 3] == fmt[w..][3];
    hide FlagsEnd, PlusOf;
  }

  lemma AfterFlags(width: nat, prec: int, letter: char)
    requires IsLetter(letter)
    ensures WidthText(width) + (PrecText(prec) + [letter]) != ""
    ensures (WidthText(width) + (PrecText(prec) + [letter]))[0] != '0' &&
      !IsFlag((WidthText(width) + (PrecText(prec) + [letter]))[0])
    ensures !IsDecimal((PrecText(prec) + [letter])[0]) && (PrecText(prec) + [letter])[0] != '*'
  {
    if width > 0 {
      DigitsAreDecimal(width);
    }
  }

  lemma WidthIsRead(fmt: string, front: string, width: nat, tail: string)
    requires fmt == front + WidthText(width) + tail && tail != "" && !IsDecimal(tail[0]) && tail[0] != '*'
    ensures NumberEnd(fmt, |front|) == |front| + |WidthText(width)| && At(fmt, |front|) != '*'
    ensures Value(fmt[|front|..|front| + |WidthText(width)|], 10) == width
  {
    if width > 0 {
      NumberIsRead(front, width, tail);
    } else {
      assert fmt[|front|] == tail[0] && fmt[|front|..|front|] == "";
    }
  }

  lemma PrecIsRead(fmt: string, before: string, prec: int, letter: char)
    requires fmt == before + (PrecText(prec) + [letter]) && prec >= -1 && IsLetter(letter)
    ensures PrecRead(fmt, |before|, prec, letter)
  {
    if prec >= 0 {
      var longer := before + ".";
      assert fmt == longer + Digits(prec, 10) + [letter];
      NumberIsRead(longer, prec, [letter]);
    }
  }
}
