/** The integer conversions of _doprnt, shared/doprnt.c: flags, width and precision, and the digits with their
    padding, each character in the order it is put. */
module Doprnt {
  import opened Arith
  import opened Numerals

  const MAXBUF := 32

  /** alt '#', left '-', zero '0'; plus is the character that '+' or ' ' puts before a number that is not
      negative; prec is -1 when there is none. */
  datatype Spec = Spec(alt: bool, left: bool, plus: string, zero: bool, width: int, prec: int)

  function Max(a: int, b: int): int {
    if a >= b then a else b
  }

  /** Zeros that the precision asks for, and characters that the width asks for. */
  function Zeros(digits: nat, s: Spec): nat {
    Max(0, s.prec - digits)
  }

  function Padding(digits: nat, front: nat, s: Spec): nat {
    Max(0, s.width - front - digits - Zeros(digits, s))
  }

  /** Where the padding goes: to the left of the sign, behind it as zeros, or to the right. */
  function LeftPad(pad: nat, s: Spec): nat {
    if !s.zero && !s.left then pad else 0
  }

  function ZeroPad(pad: nat, s: Spec): nat {
    if s.zero then pad else 0
  }

  function RightPad(pad: nat, s: Spec): nat {
    if !s.zero && s.left then pad else 0
  }

  /** A number as it is put: blanks, sign, prefix, zeros, digits, blanks. */
  function Layout(digits: string, sign: string, prefix: string, s: Spec): string {
    var pad := Padding(|digits|, |sign| + |prefix|, s);
    Fill(' ', LeftPad(pad, s)) + sign + prefix + Fill('0', Zeros(|digits|, s) + ZeroPad(pad, s)) + digits +
    Fill(' ', RightPad(pad, s))
  }

  /** The length of what is put: the width, or the sign, the prefix and the digits or the precision if longer. */
  lemma LayoutLength(digits: string, sign: string, prefix: string, s: Spec)
    ensures |Layout(digits, sign, prefix, s)| == Max(s.width, |sign| + |prefix| + Max(|digits|, s.prec))
  {
  }

  /** Where the padding is: none is blank with the zero flag; otherwise blanks fill up the left or the right. */
  lemma LayoutAligned(digits: string, sign: string, prefix: string, s: Spec)
    ensures var t, n := Layout(digits, sign, prefix, s), |sign| + |prefix| + |digits|;
      var bare := sign + prefix + Fill('0', Zeros(|digits|, s)) + digits;
      && |bare| <= |t| && n <= |t|
      && (s.zero ==> t == sign + prefix + Fill('0', |t| - n) + digits)
      && (!s.zero && s.left ==> t == bare + Fill(' ', |t| - |bare|))
      && (!s.zero && !s.left ==> t == Fill(' ', |t| - |bare|) + bare)
  {
    var bare := sign + prefix + Fill('0', Zeros(|digits|, s)) + digits;
    assert bare + "" == bare == "" + bare;
    assert Fill(' ', 0) == "";
  }

  /** The prefix of the alternative form; none for zero. */
  function Prefix(u: nat, base: nat, alt: bool): string {
    if u != 0 && alt then (if base == 8 then "0" else if base == 16 then "0x" else "") else ""
  }

  /** Numbers below 2^32 have at most 32 digits. */
  lemma {:induction false} DigitsFit(u: nat, base: nat, k: nat, bound: nat)
    requires 2 <= base <= 16 && k >= 1 && u < bound && bound == Pow2(k)
    ensures |Digits(u, base)| <= k
    decreases k
  {
    if u >= base {
      Euclid(u, base);
      DigitsUnfold(u, base);
      hide Digits, DigitChar;
      Halved(u, base, u / base, u % base);
      DigitsFit(u / base, base, k - 1, Pow2(k - 1));
    }
  }

  lemma Halved(u: nat, base: nat, q: nat, r: nat)
    requires base >= 2 && u == q * base + r
    ensures 2 * q <= u
  {
    assert q * base == 2 * q + q * (base - 2);
  }

  /** The loop that fills the buffer from its end; p is the position before the first digit. */
  method PutDigits(u0: nat, base: nat, buf: array<char>, prec0: int) returns (p: int, prec: int)
    requires u0 < W32 && 2 <= base <= 16 && buf.Length == MAXBUF
    modifies buf
    ensures -1 <= p < MAXBUF - 1 && buf[p + 1..] == Digits(u0, base) && prec == prec0 - (MAXBUF - 1 - p)
  {
    Pow32();
    DigitsFit(u0, base, MAXBUF, W32);
    hide Digits, DigitChar;
    var u := u0;
    p, prec := MAXBUF - 1, prec0;
    ghost var all := Digits(u0, base);
    while true
      invariant 0 <= p < MAXBUF && prec == prec0 - (MAXBUF - 1 - p)
      invariant u >= 0 && all == Digits(u, base) + buf[p + 1..]
      decreases u
    {
      FirstStep(u, base);
      Euclid(u, base);
      var done := buf[p + 1..];
      buf[p] := DigitChar(u % base);
      assert buf[p..] == [DigitChar(u % base)] + done;
      if u >= base {
        PrependDigit(Digits(u / base, base), DigitChar(u % base), done);
      }
      var rest := u;
      u := u / base;
      prec := prec - 1;
      p := p - 1;
      if u == 0 {
        return;
      }
    }
  }

  lemma FirstStep(u: nat, base: nat)
    requires 2 <= base <= 16
    ensures u / base == 0 <==> u < base
    ensures u < base ==> Digits(u, base) == [DigitChar(u)] && u % base == u
    ensures u >= base ==> Digits(u, base) == Digits(u / base, base) + [DigitChar(u % base)]
  {
  }

  lemma PrependDigit(a: string, c: char, b: string)
    ensures (a + [c]) + b == a + ([c] + b)
  {
  }

  /** A loop that counts down and puts one character each time. */
  method Put(out0: string, c: char, n: int) returns (out: string, left: int)
    ensures out == out0 + Fill(c, Max(0, n)) && left == if n > 0 then -1 else n - 1
  {
    out, left := out0, n - 1;
    while left >= 0
      invariant left >= -1 || left == n - 1
      invariant left <= n - 1
      invariant out == out0 + Fill(c, Max(0, n - 1 - left))
      decreases left
    {
      out := out + [c];
      left := left - 1;
    }
  }

  /** print_num: the number u in a base, after its sign. */
  method PrintNum(u: nat, base: nat, sign: string, s: Spec) returns (out: string)
    requires u < W32 && 2 <= base <= 16 && |sign| <= 1
    ensures out == Layout(Digits(u, base), sign, Prefix(u, base, s.alt), s)
  {
    hide Digits;
    var buf := new char[MAXBUF];
    var prefix := "";
    if u != 0 && s.alt {
      if base == 8 {
        prefix := "0";
      } else if base == 16 {
        prefix := "0x";
      }
    }
    var p, prec := PutDigits(u, base, buf, s.prec);
    var length := s.width - (MAXBUF - 1 - p);
    if |sign| > 0 {
      length := length - 1;
    }
    length := length - |prefix|;
    if prec > 0 {
      length := length - prec;
    }
    out := Arrange(buf[p + 1..], sign, prefix, s, length, prec);
  }

  /** The order of the parts; length and prec are what is left of the width and the precision. */
  method Arrange(digits: string, sign: string, prefix: string, s: Spec, length0: int, prec0: int) returns (out: string)
    requires prec0 == s.prec - |digits| && length0 == s.width - |digits| - |sign| - |prefix| - Max(0, prec0)
    ensures out == Layout(digits, sign, prefix, s)
  {
    var length, prec := length0, prec0;
    ghost var pad := Padding(|digits|, |sign| + |prefix|, s);
    assert pad == Max(0, length) && Zeros(|digits|, s) == Max(0, prec);
    hide Padding, Zeros;
    out := "";
    if !s.zero && !s.left {
      out, length := Put(out, ' ', length);
    }
    assert out == Fill(' ', LeftPad(pad, s));
    out := out + sign + prefix;
    ghost var front := out;
    out, prec := Put(out, '0', prec);
    if s.zero {
      out, length := Put(out, '0', length);
    }
    FillTwice(front, '0', Zeros(|digits|, s), ZeroPad(pad, s));
    assert out == front + Fill('0', Zeros(|digits|, s) + ZeroPad(pad, s));
    out := out + digits;
    if s.left {
      out, length := Put(out, ' ', length);
    }
  }

  lemma FillTwice(s: string, c: char, m: nat, n: nat)
    ensures s + Fill(c, m) + Fill(c, n) == s + Fill(c, m + n) && s + Fill(c, 0) == s
  {
  }

  // ---- the format

  predicate IsDecimal(c: char) {
    IsDigitIn(c, 10)
  }

  function FlagsEnd(fmt: string, i: nat): (e: nat)
    requires i <= |fmt|
    ensures i <= e <= |fmt|
  {
    SpanEnd(fmt, i, Flag)
  }

  /** Behind a '0' after the flags. */
  function WidthAt(fmt: string, i: nat): (e: nat)
    requires i <= |fmt|
    ensures i <= e <= |fmt|
  {
    FlagsEnd(fmt, i) + if At(fmt, FlagsEnd(fmt, i)) == '0' then 1 else 0
  }

  /** Behind a number or an asterisk. */
  function NumberEnd(fmt: string, i: nat): (e: nat)
    requires i <= |fmt|
    ensures i <= e <= |fmt|
  {
    if IsDecimal(At(fmt, i)) then SpanEnd(fmt, i, DigitOf(10)) else if At(fmt, i) == '*' then i + 1 else i
  }

  function PrecAt(fmt: string, i: nat): (e: nat)
    requires i <= |fmt|
    ensures i <= e <= |fmt|
  {
    NumberEnd(fmt, WidthAt(fmt, i))
  }

  function PrecEnd(fmt: string, i: nat): (e: nat)
    requires i <= |fmt|
    ensures i <= e <= |fmt|
  {
    if At(fmt, PrecAt(fmt, i)) == '.' then NumberEnd(fmt, PrecAt(fmt, i) + 1) else PrecAt(fmt, i)
  }

  /** Where the letter of the conversion is, behind an 'l'. */
  function LetterAt(fmt: string, i: nat): (e: nat)
    requires i <= |fmt|
    ensures i <= e <= |fmt|
  {
    PrecEnd(fmt, i) + if At(fmt, PrecEnd(fmt, i)) == 'l' then 1 else 0
  }

  predicate StarWidth(fmt: string, i: nat)
    requires i <= |fmt|
  {
    At(fmt, WidthAt(fmt, i)) == '*'
  }

  predicate StarPrec(fmt: string, i: nat)
    requires i <= |fmt|
  {
    At(fmt, PrecAt(fmt, i)) == '.' && At(fmt, PrecAt(fmt, i) + 1) == '*'
  }

  /** How many arguments the width and the precision take. */
  function Stars(fmt: string, i: nat): nat
    requires i <= |fmt|
  {
    (if StarWidth(fmt, i) then 1 else 0) + (if StarPrec(fmt, i) then 1 else 0)
  }

  function WidthOf(fmt: string, i: nat, args: seq<int>): int
    requires i <= |fmt| && Stars(fmt, i) <= |args|
  {
    if StarWidth(fmt, i) then args[0] else Value(fmt[WidthAt(fmt, i)..PrecAt(fmt, i)], 10)
  }

  function PrecOf(fmt: string, i: nat, args: seq<int>): int
    requires i <= |fmt| && Stars(fmt, i) <= |args|
  {
    if StarPrec(fmt, i) then args[Stars(fmt, i) - 1]
    else if At(fmt, PrecAt(fmt, i)) == '.' && IsDecimal(At(fmt, PrecAt(fmt, i) + 1)) then
      Value(fmt[PrecAt(fmt, i) + 1..PrecEnd(fmt, i)], 10)
    else -1
  }

  /** What the flags ask to put before a number that is not negative: '+' wins over ' '. */
  function PlusOf(flags: string): string {
    if '+' in flags then "+" else if ' ' in flags then " " else ""
  }

  /** The flags in any order, a '0' behind them, the width and the precision. A negative width from an argument
      turns the alignment over. */
  function SpecAt(fmt: string, i: nat, args: seq<int>): Spec
    requires i <= |fmt| && Stars(fmt, i) <= |args|
  {
    var flags := fmt[i..FlagsEnd(fmt, i)];
    var width := WidthOf(fmt, i, args);
    var turned := StarWidth(fmt, i) && width < 0;
    Spec('#' in flags, ('-' in flags) != turned, PlusOf(flags), At(fmt, FlagsEnd(fmt, i)) == '0',
         if turned then -width else width, PrecOf(fmt, i, args))
  }

  /** The loop over the flags. */
  method ReadFlags(fmt: string, i: nat) returns (alt: bool, left: bool, plus: string, p: nat)
    requires i <= |fmt|
    ensures p == FlagsEnd(fmt, i) && plus == PlusOf(fmt[i..p])
    ensures alt == ('#' in fmt[i..p]) && left == ('-' in fmt[i..p])
  {
    alt, left, plus, p := false, false, "", i;
    while true
      invariant i <= p <= |fmt| && (forall k :: i <= k < p ==> Is(fmt[k], Flag)) && plus == PlusOf(fmt[i..p])
      invariant alt == ('#' in fmt[i..p]) && left == ('-' in fmt[i..p])
      decreases |fmt| - p
    {
      var c := At(fmt, p);
      if c == '#' {
        alt := true;
      } else if c == '-' {
        left := true;
      } else if c == '+' {
        plus := "+";
      } else if c == ' ' {
        if plus == "" {
          plus := " ";
        }
      } else {
        SpanIs(fmt, i, Flag, p);
        return;
      }
      assert fmt[i..p + 1] == fmt[i..p] + [c];
      p := p + 1;
    }
  }

  /** The loops that read a width or a precision. */
  method ReadNumber(fmt: string, i: nat) returns (v: int, p: nat)
    requires i <= |fmt|
    ensures p == SpanEnd(fmt, i, DigitOf(10)) && v == Value(fmt[i..p], 10)
  {
    hide Value, DigitValue;
    ValueOfNothing();
    v, p := 0, i;
    assert fmt[i..i] == "";
    while IsDecimal(At(fmt, p))
      invariant i <= p <= |fmt| && (forall k :: i <= k < p ==> Is(fmt[k], DigitOf(10))) && v == Value(fmt[i..p], 10)
      decreases |fmt| - p
    {
      DecimalInside(fmt, p);
      assert fmt[i..p + 1] == fmt[i..p] + [fmt[p]];
      ValueAppend(fmt[i..p], fmt[p], 10);
      v := 10 * v + (fmt[p] as int - '0' as int);
      p := p + 1;
    }
    SpanIs(fmt, i, DigitOf(10), p);
  }

  lemma ValueOfNothing()
    ensures Value("", 10) == 0
  {
  }

  lemma DecimalInside(fmt: string, p: nat)
    requires p <= |fmt| && IsDecimal(At(fmt, p))
    ensures p < |fmt| && DigitValue(fmt[p]) == fmt[p] as int - '0' as int
  {
  }

  /** From behind a '%' to the letter of the conversion. */
  method ReadSpec(fmt: string, i: nat, args: seq<int>) returns (s: Spec, p: nat, used: nat)
    requires i <= |fmt| && Stars(fmt, i) <= |args|
    ensures s == SpecAt(fmt, i, args) && p == LetterAt(fmt, i) && used == Stars(fmt, i)
  {
    EmptyNumber(fmt, i);
    hide Value, SpanEnd, FlagsEnd;
    used := 0;
    var width, prec, zero := 0, -1, false;
    var alt, left, plus;
    alt, left, plus, p := ReadFlags(fmt, i);
    if At(fmt, p) == '0' {
      zero := true;
      p := p + 1;
    }
    assert p == WidthAt(fmt, i);
    if IsDecimal(At(fmt, p)) {
      width, p := ReadNumber(fmt, p);
    } else if At(fmt, p) == '*' {
      width := args[used];
      used := used + 1;
      p := p + 1;
      if width < 0 {
        left := !left;
        width := -width;
      }
    }
    assert p == PrecAt(fmt, i);
    if At(fmt, p) == '.' {
      p := p + 1;
      if IsDecimal(At(fmt, p)) {
        prec, p := ReadNumber(fmt, p);
      } else if At(fmt, p) == '*' {
        prec := args[used];
        used := used + 1;
        p := p + 1;
      }
    }
    assert p == PrecEnd(fmt, i);
    if At(fmt, p) == 'l' {
      p := p + 1;
    }
    s := Spec(alt, left, plus, zero, width, prec);
  }

  lemma EmptyNumber(fmt: string, i: nat)
    requires i <= |fmt|
    ensures Value("", 10) == 0 && !IsDecimal('*') && !IsDecimal('\0')
    ensures PrecAt(fmt, i) == WidthAt(fmt, i) ==> fmt[WidthAt(fmt, i)..PrecAt(fmt, i)] == ""
  {
  }

  // ---- the conversions

  datatype Conversion = SignedIn(base: int) | UnsignedIn(base: int) | Other

  /** What a letter asks for; radix is the one given to _doprnt. */
  function ConversionOf(c: char, radix: int): Conversion {
    if c == 'd' || c == 'i' || c == 'D' then SignedIn(10)
    else if c == 'u' || c == 'U' then UnsignedIn(10)
    else if c == 'o' || c == 'O' then UnsignedIn(8)
    else if c == 'x' || c == 'X' then UnsignedIn(16)
    else if c == 'z' || c == 'Z' then SignedIn(16)
    else if c == 'r' || c == 'R' then SignedIn(radix)
    else if c == 'n' || c == 'N' then UnsignedIn(radix)
    else Other
  }

  /** The magnitude of a long, LONG_MIN included, as an unsigned long. */
  function Magnitude(n: int): nat {
    if n >= 0 then n else -n
  }

  /** What a number looks like: a long with its sign, or an unsigned long. */
  function SignedText(n: int, base: nat, s: Spec): string
    requires 2 <= base <= 16
  {
    Layout(Digits(Magnitude(n), base), if n < 0 then "-" else s.plus, Prefix(Magnitude(n), base, s.alt), s)
  }

  function UnsignedText(u: nat, base: nat, s: Spec): string
    requires 2 <= base <= 16
  {
    Layout(Digits(u, base), "", Prefix(u, base, s.alt), s)
  }

  predicate IsInteger(conv: Conversion) {
    match conv
    case SignedIn(base) => 2 <= base <= 16
    case UnsignedIn(base) => 2 <= base <= 16
    case Other => false
  }

  /** An argument is an unsigned long or, for the signed conversions, the long of the same bits. */
  function ArgumentText(conv: Conversion, arg: int, s: Spec): string
    requires IsInteger(conv)
  {
    match conv
    case SignedIn(base) => SignedText(ToLong(arg), base, s)
    case UnsignedIn(base) => UnsignedText(arg % W32, base, s)
  }

  /** What a directive prints. */
  function Printed(fmt: string, i: nat, args: seq<int>, radix: nat): string
    requires i <= |fmt| && Stars(fmt, i) < |args| && IsInteger(ConversionOf(At(fmt, LetterAt(fmt, i)), radix))
  {
    ArgumentText(ConversionOf(At(fmt, LetterAt(fmt, i)), radix), args[Stars(fmt, i)], SpecAt(fmt, i, args))
  }

  method PrintArgument(conv: Conversion, arg: int, s: Spec) returns (out: string)
    requires IsInteger(conv) && |s.plus| <= 1
    ensures out == ArgumentText(conv, arg, s)
  {
    hide Layout, Digits, Prefix;
    if conv.SignedIn? {
      var n := ToLong(arg);
      var u := if n >= 0 then n else (-n) % W32;
      out := PrintNum(u, conv.base, if n >= 0 then s.plus else "-", s);
    } else {
      out := PrintNum(arg % W32, conv.base, "", s);
    }
  }

  /** One integer conversion, from behind its '%' to behind its letter. */
  method Convert(fmt: string, i: nat, args: seq<int>, radix: nat) returns (out: string, next: nat, used: nat)
    requires i <= |fmt| && Stars(fmt, i) < |args|
    requires IsInteger(ConversionOf(At(fmt, LetterAt(fmt, i)), radix))
    ensures next == LetterAt(fmt, i) + 1 && used == Stars(fmt, i) + 1
    ensures out == Printed(fmt, i, args, radix)
  {
    PlusIsShort(fmt, i, args);
    hide SpecAt, ArgumentText, Stars, LetterAt;
    var s, p;
    s, p, used := ReadSpec(fmt, i, args);
    out := PrintArgument(ConversionOf(At(fmt, p), radix), args[used], s);
    next, used := p + 1, used + 1;
  }

  lemma PlusIsShort(fmt: string, i: nat, args: seq<int>)
    requires i <= |fmt| && Stars(fmt, i) <= |args|
    ensures SpecAt(fmt, i, args).plus in {"", " ", "+"}
  {
  }
}
