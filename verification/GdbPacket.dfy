/** The packets of kernel/gdb_serial.c: putfrags, which run-length encodes as it sends, and hex2bin, which reads
    hexadecimal back. Characters are their codes, 0 to 255. */
module GdbPacket {
  import Arith

  const STAR := 42
  const HASH := 35
  const DOLLAR := 36

  type Byte = c: int | 0 <= c < 256

  /** A piece of a packet: len bytes of data, or up to the first zero byte when len is zero. */
  datatype OutFrag = OutFrag(data: seq<Byte>, len: nat, hexify: bool)

  predicate IsFragment(f: OutFrag) {
    f.len <= |f.data| && (f.len == 0 ==> 0 in f.data)
  }

  type Fragment = f: OutFrag | IsFragment(f) witness OutFrag([0], 0, false)

  function UpToZero(b: seq<Byte>): (r: seq<Byte>)
    requires 0 in b
    ensures |r| < |b| && r == b[..|r|] && b[|r|] == 0 && 0 !in r
  {
    if b[0] == 0 then [] else [b[0]] + UpToZero(b[1..])
  }

  /** The bytes a fragment stands for. */
  function Text(f: Fragment): (b: seq<Byte>)
    ensures |b| <= |f.data| && b == f.data[..|b|]
  {
    if f.len > 0 then f.data[..f.len] else UpToZero(f.data)
  }

  // ---- hexadecimal

  /** hexchars[d]. */
  function HexChar(d: int): (c: int)
    requires 0 <= d < 16
    ensures 48 <= c <= 57 || 97 <= c <= 102
  {
    if d < 10 then 48 + d else 87 + d
  }

  /** hex: the value of a digit, -1 for any other character. */
  function Hex(c: int): (d: int)
    ensures -1 <= d < 16
    ensures 0 <= d ==> c == HexChar(d) || (10 <= d && c == HexChar(d) - 32)
    ensures d == -1 ==> forall v :: 0 <= v < 16 ==> c != HexChar(v) && (10 <= v ==> c != HexChar(v) - 32)
  {
    if 48 <= c <= 57 then c - 48
    else if 97 <= c <= 102 then c - 97 + 10
    else if 65 <= c <= 70 then c - 65 + 10
    else -1
  }

  lemma HexOfChar(d: int)
    requires 0 <= d < 16
    ensures Hex(HexChar(d)) == d
  {
  }

  function Hexified(b: seq<Byte>): (s: seq<int>)
    ensures |s| == 2 * |b|
  {
    if b == [] then [] else [HexChar(b[0] / 16), HexChar(b[0] % 16)] + Hexified(b[1..])
  }

  /** What a packet shows of some bytes, once its runs are expanded. */
  function Shown(b: seq<Byte>, hexify: bool): seq<int>
  {
    if hexify then Hexified(b) else b
  }

  /** Only hexadecimal digits among the first 2 n characters. */
  predicate AllHex(s: seq<int>, n: nat)
    requires 2 * n <= |s|
  {
    forall k :: 0 <= k < 2 * n ==> Hex(s[k]) >= 0
  }

  function ByteAt(s: seq<int>, i: nat): int
    requires 2 * i + 1 < |s|
  {
    Hex(s[2 * i]) * 16 + Hex(s[2 * i + 1])
  }

  /** hex2bin: the bytes of 2 len hexadecimal digits, or failure at the first pair that is not one. */
  method Hex2Bin(input: seq<int>, out: array<Byte>, len: nat) returns (status: int)
    requires 2 * len <= |input| && len <= out.Length
    modifies out
    ensures status == 0 || status == -1
    ensures status == 0 <==> AllHex(input, len)
    ensures status == 0 ==> forall i :: 0 <= i < len ==> out[i] == ByteAt(input, i)
    ensures forall i :: len <= i < out.Length ==> out[i] == old(out[i])
  {
    var i := 0;
    while i < len
      invariant 0 <= i <= len && AllHex(input, i)
      invariant forall k :: 0 <= k < i ==> out[k] == ByteAt(input, k)
      invariant forall k :: i <= k < out.Length ==> out[k] == old(out[k])
    {
      var high, low := Hex(input[2 * i]), Hex(input[2 * i + 1]);
      if high < 0 || low < 0 {
        return -1;
      }
      out[i] := high * 16 + low;
      i := i + 1;
    }
    return 0;
  }

  lemma {:induction false} HexRoundTrip(b: seq<Byte>)
    ensures AllHex(Hexified(b), |b|)
    ensures forall i :: 0 <= i < |b| ==> ByteAt(Hexified(b), i) == b[i]
  {
    if b != [] {
      HexRoundTrip(b[1..]);
      HexOfChar(b[0] / 16);
      HexOfChar(b[0] % 16);
      var s, rest := Hexified(b), Hexified(b[1..]);
      assert s == [HexChar(b[0] / 16), HexChar(b[0] % 16)] + rest;
      hide Hex, Hexified, HexChar;
      forall k | 0 <= k < 2 * |b| ensures Hex(s[k]) >= 0 {
        assert k >= 2 ==> s[k] == rest[k - 2];
      }
      forall i | 0 <= i < |b| ensures ByteAt(s, i) == b[i] {
        if i > 0 {
          assert s[2 * i] == rest[2 * (i - 1)] && s[2 * i + 1] == rest[2 * (i - 1) + 1];
          assert ByteAt(rest, i - 1) == b[1..][i - 1];
        }
      }
    }
  }

  // ---- runs

  /** How many of the first cap bytes equal the first. */
  function Run(b: seq<Byte>, cap: nat): (n: nat)
    requires b != [] && cap >= 1
    ensures 1 <= n <= cap && n <= |b|
    ensures forall k :: 0 <= k < n ==> b[k] == b[0]
    ensures n == cap || n == |b| || b[n] != b[0]
  {
    if cap == 1 || |b| == 1 || b[1] != b[0] then 1 else 1 + Run(b[1..], cap - 1)
  }

  /** These facts determine the run. */
  lemma RunIs(b: seq<Byte>, cap: nat, n: nat)
    requires 1 <= n <= cap && n <= |b|
    requires forall k :: 0 <= k < n ==> b[k] == b[0]
    requires n == cap || n == |b| || b[n] != b[0]
    ensures Run(b, cap) == n
  {
  }

  /** Bytes a run may cover, and bytes it must cover to be worth encoding. */
  function Most(hexify: bool): nat { if hexify then 49 else 98 }

  function Least(hexify: bool): nat { if hexify then 2 else 4 }

  /** The characters that n bytes show as. */
  function Chars(n: nat, hexify: bool): nat { if hexify then 2 * n else n }

  /** A byte that shows as repetitions of a single character. */
  predicate Even(c: int, hexify: bool) {
    hexify ==> c / 16 == c % 16
  }

  predicate Encoded(b: seq<Byte>, hexify: bool) {
    b != [] && Run(b, Most(hexify)) >= Least(hexify) && Even(b[0], hexify)
  }

  function OneByte(c: Byte, hexify: bool): seq<int>
  {
    if hexify then [HexChar(c / 16), HexChar(c % 16)] else [c]
  }

  function LastChar(c: Byte, hexify: bool): int
  {
    if hexify then HexChar(c % 16) else c
  }

  /** What putfrags sends for some bytes. */
  function Encode(b: seq<Byte>, hexify: bool): seq<int>
    decreases |b|
  {
    if b == [] then []
    else if Encoded(b, hexify) then
      var n := Run(b, Most(hexify));
      [LastChar(b[0], hexify), STAR, 28 + Chars(n, hexify)] + Encode(b[n..], hexify)
    else OneByte(b[0], hexify) + Encode(b[1..], hexify)
  }

  // ---- sending

  function Sum(s: seq<int>): int {
    if s == [] then 0 else Sum(s[..|s| - 1]) + s[|s| - 1]
  }

  lemma {:induction false} SumOfTwo(s: seq<int>, t: seq<int>)
    ensures Sum(s + t) == Sum(s) + Sum(t)
  {
    if t == [] {
      assert s + t == s;
    } else {
      SumOfTwo(s, t[..|t| - 1]);
      assert (s + t)[..|s + t| - 1] == s + t[..|t| - 1];
    }
  }

  function Body(frags: seq<Fragment>): seq<int>
  {
    if frags == [] then [] else Body(frags[..|frags| - 1]) + Encode(Text(frags[|frags| - 1]), frags[|frags| - 1].hexify)
  }

  function Packet(body: seq<int>): seq<int> {
    [DOLLAR] + body + [HASH, HexChar(Sum(body) % 256 / 16), HexChar(Sum(body) % 256 % 16)]
  }

  /** One step of the loop over a fragment. */
  lemma EncodeStep(b: seq<Byte>, hexify: bool, n: nat, out: seq<int>)
    requires b != [] && n <= |b|
    requires n == if Encoded(b, hexify) then Run(b, Most(hexify)) else 1
    requires out ==
      if Encoded(b, hexify) then [LastChar(b[0], hexify), STAR, 28 + Chars(n, hexify)] else OneByte(b[0], hexify)
    ensures Encode(b, hexify) == out + Encode(b[n..], hexify)
  {
  }

  /** The length of a run of at least Least bytes: the innermost loop of putfrags. */
  method ScanRun(f: Fragment, p: nat) returns (q: nat)
    requires p + Least(f.hexify) <= |Text(f)| && forall k :: p <= k < p + Least(f.hexify) ==> f.data[k] == f.data[p]
    requires Even(f.data[p], f.hexify)
    requires f.len == 0 ==> f.data[|Text(f)|] == 0 && f.data[p] != 0
    ensures p + Least(f.hexify) <= q <= |Text(f)| && Run(Text(f)[p..], Most(f.hexify)) == q - p
    ensures Encoded(Text(f)[p..], f.hexify)
  {
    ghost var b := Text(f);
    q := if f.hexify then p + 2 else p + 4;
    var limit := if f.hexify then p + 49 else p + 98;
    if f.len > 0 && limit > f.len {
      limit := f.len;
    }
    while q < limit && f.data[q] == f.data[p]
      invariant p + Least(f.hexify) <= q <= p + Most(f.hexify) && q <= |b| && (q < limit || q == limit)
      invariant forall k :: p <= k < q ==> f.data[k] == f.data[p]
    {
      q := q + 1;
    }
    RunIs(b[p..], Most(f.hexify), q - p);
  }

  /** One turn of the loop over a fragment: the characters to send, and the next position. */
  method NextChars(f: Fragment, p: nat) returns (out: seq<int>, q: nat)
    requires p < |Text(f)| && (f.len == 0 ==> f.data[|Text(f)|] == 0 && f.data[p] != 0)
    ensures p < q <= |Text(f)| && Encode(Text(f)[p..], f.hexify) == out + Encode(Text(f)[q..], f.hexify)
  {
    hide Encode, Encoded, Run;
    ghost var b := Text(f);
    ghost var rest := b[p..];
    if (f.len == 0 || p + (if f.hexify then 1 else 3) < f.len) && f.data[p + 1] == f.data[p]
      && (if f.hexify then f.data[p] / 16 == f.data[p] % 16
          else f.data[p + 2] == f.data[p] && f.data[p + 3] == f.data[p]) {
      q := ScanRun(f, p);
      var rl := (q - p) * if f.hexify then 2 else 1;
      out := [if f.hexify then HexChar(f.data[p] % 16) else f.data[p], STAR, 29 + rl - 1];
      EncodeStep(rest, f.hexify, q - p, out);
    } else {
      TestFindsRuns(f, rest, p);
      out := if f.hexify then [HexChar(f.data[p] / 16), HexChar(f.data[p] % 16)] else [f.data[p]];
      q := p + 1;
      EncodeStep(rest, f.hexify, 1, out);
    }
    assert rest[q - p..] == b[q..];
  }

  /** The loop over one fragment, with the checksum so far. */
  method PutFragment(f: Fragment, sum0: int) returns (sent: seq<int>, sum: int)
    requires sum0 % 256 == sum0
    ensures sent == Encode(Text(f), f.hexify) && sum == (sum0 + Sum(sent)) % 256
  {
    EncodeNothing(f.hexify);
    hide Encode, Encoded, Run;
    var p := 0;
    sent, sum := [], sum0;
    ghost var b := Text(f);
    assert b[0..] == b;
    while if f.len > 0 then p < f.len else f.data[p] != 0
      invariant 0 <= p <= |b| && (f.len == 0 ==> f.data[|b|] == 0)
      invariant Encode(b, f.hexify) == sent + Encode(b[p..], f.hexify)
      invariant sum == (sum0 + Sum(sent)) % 256
      decreases |b| - p
    {
      var out;
      out, p := NextChars(f, p);
      sent, sum := Send(sent, sum, out, sum0);
    }
    assert b[p..] == [];
  }

  lemma EncodeNothing(hexify: bool)
    ensures Encode([], hexify) == []
  {
  }

  /** SEND for each of some characters, with the checksum in an unsigned char. */
  method Send(sent0: seq<int>, sum0: int, out: seq<int>, ghost base: int) returns (sent: seq<int>, sum: int)
    requires sum0 == (base + Sum(sent0)) % 256
    ensures sent == sent0 + out && sum == (base + Sum(sent)) % 256
  {
    sent, sum := sent0, sum0;
    var i := 0;
    while i < |out|
      invariant 0 <= i <= |out| && sent == sent0 + out[..i] && sum == (base + Sum(sent)) % 256
    {
      SumOfTwo(sent, [out[i]]);
      assert sent + [out[i]] == sent0 + out[..i + 1];
      sent := sent + [out[i]];
      sum := (sum + out[i]) % 256;
      i := i + 1;
    }
  }

  /** The test of putfrags succeeds on every run worth encoding. */
  lemma TestFindsRuns(f: Fragment, rest: seq<Byte>, p: nat)
    requires p < |Text(f)| && rest == Text(f)[p..]
    ensures Encoded(rest, f.hexify) && f.hexify ==>
      p + 1 < |Text(f)| && f.data[p + 1] == f.data[p] && f.data[p] / 16 == f.data[p] % 16
    ensures Encoded(rest, f.hexify) && !f.hexify ==>
      p + 3 < |Text(f)| && f.data[p + 1] == f.data[p] && f.data[p + 2] == f.data[p] && f.data[p + 3] == f.data[p]
  {
    if Encoded(rest, f.hexify) {
      assert rest[1] == f.data[p + 1];
      if !f.hexify {
        assert rest[2] == f.data[p + 2] && rest[3] == f.data[p + 3];
      }
    }
  }

  /** putfrags, once: a packet of some fragments. */
  method PutFrags(frags: seq<Fragment>) returns (sent: seq<int>)
    ensures sent == Packet(Body(frags))
  {
    hide Encode, Text, HexChar;
    var checksum := 0;
    sent := [];
    var i := 0;
    while i < |frags|
      invariant 0 <= i <= |frags| && sent == Body(frags[..i]) && checksum == Sum(sent) % 256
    {
      var one, sum := PutFragment(frags[i], checksum);
      assert frags[..i + 1][..i] == frags[..i];
      SumOfTwo(sent, one);
      sent, checksum := sent + one, sum;
      i := i + 1;
    }
    assert frags[..i] == frags;
    sent := [DOLLAR] + sent + [HASH, HexChar(checksum / 16), HexChar(checksum % 16)];
  }

  // ---- what the receiver reads

  /** Run-length decoding: a character, an asterisk and n stand for the character and n - 29 repetitions of it. */
  function Expand(s: seq<int>): seq<int> {
    if s == [] then []
    else if |s| >= 3 && s[1] == STAR && s[2] >= 29 then Repeat(s[0], s[2] - 29 + 1) + Expand(s[3..])
    else [s[0]] + Expand(s[1..])
  }

  function Repeat(c: int, n: nat): (s: seq<int>)
    ensures |s| == n && forall k :: 0 <= k < n ==> s[k] == c
  {
    if n == 0 then [] else [c] + Repeat(c, n - 1)
  }

  /** No asterisk in what is sent as it is. */
  predicate Plain(b: seq<Byte>, hexify: bool) {
    hexify || STAR !in b
  }

  lemma NoLeadingStar(b: seq<Byte>, hexify: bool)
    requires Plain(b, hexify)
    ensures Encode(b, hexify) == [] || Encode(b, hexify)[0] != STAR
  {
    if b != [] {
      assert b[0] in b;
    }
  }

  /** A character that no asterisk follows stands for itself. */
  lemma ExpandPlain(c: int, s: seq<int>)
    requires s == [] || s[0] != STAR
    ensures Expand([c] + s) == [c] + Expand(s)
  {
    assert ([c] + s)[1..] == s;
  }

  lemma ExpandRun(c: int, n: nat, s: seq<int>)
    requires n >= 1
    ensures Expand([c, STAR, 28 + n] + s) == Repeat(c, n) + Expand(s)
  {
    var t := [c, STAR, 28 + n] + s;
    assert t[3..] == s;
  }

  /** A run of n bytes shows as Chars(n) equal characters. */
  lemma {:induction false} ShownRun(b: seq<Byte>, hexify: bool, n: nat)
    requires 1 <= n <= |b| && (forall k :: 0 <= k < n ==> b[k] == b[0]) && Even(b[0], hexify)
    ensures Shown(b, hexify) == Repeat(LastChar(b[0], hexify), Chars(n, hexify)) + Shown(b[n..], hexify)
  {
    if !hexify {
      assert b == Repeat(b[0], n) + b[n..];
    } else {
      var c := HexChar(b[0] % 16);
      assert Hexified(b) == [c, c] + Hexified(b[1..]);
      if n == 1 {
        assert Repeat(c, 2) == [c, c];
      } else {
        ShownRun(b[1..], true, n - 1);
        assert b[1..][n - 1..] == b[n..];
        assert Repeat(c, 2 * n) == [c, c] + Repeat(c, 2 * n - 2);
      }
    }
  }

  /** A run expanded. */
  lemma EncodedBytes(b: seq<Byte>, hexify: bool)
    requires Encoded(b, hexify)
    ensures b != [] && Even(b[0], hexify) && Chars(Run(b, Most(hexify)), hexify) >= 1
  {
  }

  lemma ExpandOneRun(b: seq<Byte>, hexify: bool, n: nat, out: seq<int>, rest: seq<int>)
    requires Encoded(b, hexify) && n == Run(b, Most(hexify))
    requires out == [LastChar(b[0], hexify), STAR, 28 + Chars(n, hexify)]
    ensures Expand(out + rest) == Repeat(LastChar(b[0], hexify), Chars(n, hexify)) + Expand(rest)
    ensures Shown(b, hexify) == Repeat(LastChar(b[0], hexify), Chars(n, hexify)) + Shown(b[n..], hexify)
  {
    hide Expand, Run, Repeat, Shown, LastChar, Chars, Encoded, Even;
    EncodedBytes(b, hexify);
    ExpandRun(LastChar(b[0], hexify), Chars(n, hexify), rest);
    ShownRun(b, hexify, n);
  }

  /** A character or a pair expanded. */
  lemma ExpandOneByte(b: seq<Byte>, hexify: bool, rest: seq<int>)
    requires b != [] && (rest == [] || rest[0] != STAR)
    ensures Expand(OneByte(b[0], hexify) + rest) == OneByte(b[0], hexify) + Expand(rest)
    ensures Shown(b, hexify) == OneByte(b[0], hexify) + Shown(b[1..], hexify)
  {
    hide Expand, Hexified, HexChar;
    if hexify {
      ExpandPair(HexChar(b[0] / 16), HexChar(b[0] % 16), rest);
      HexifiedFirst(b);
    } else {
      ExpandPlain(b[0], rest);
    }
  }

  lemma ExpandPiece(b: seq<Byte>, hexify: bool, n: nat, out: seq<int>, rest: seq<int>)
    requires b != [] && n == (if Encoded(b, hexify) then Run(b, Most(hexify)) else 1) && n <= |b|
    requires out ==
      if Encoded(b, hexify) then [LastChar(b[0], hexify), STAR, 28 + Chars(n, hexify)] else OneByte(b[0], hexify)
    requires rest == [] || rest[0] != STAR
    ensures Expand(out + rest) == ExpandedFirst(b, hexify, n) + Expand(rest)
    ensures Shown(b, hexify) == ExpandedFirst(b, hexify, n) + Shown(b[n..], hexify)
  {
    hide Expand, Run, Repeat, Shown, LastChar, Chars, Encoded, OneByte;
    if Encoded(b, hexify) {
      ExpandOneRun(b, hexify, n, out, rest);
    } else {
      ExpandOneByte(b, hexify, rest);
    }
  }

  lemma ExpandPair(high: int, low: int, s: seq<int>)
    requires (s == [] || s[0] != STAR) && low != STAR
    ensures Expand([high, low] + s) == [high, low] + Expand(s)
  {
    hide Expand;
    assert [high, low] + s == [high] + ([low] + s);
    ExpandPlain(low, s);
    ExpandPlain(high, [low] + s);
  }

  lemma HexifiedFirst(b: seq<Byte>)
    requires b != []
    ensures Hexified(b) == [HexChar(b[0] / 16), HexChar(b[0] % 16)] + Hexified(b[1..])
  {
  }

  function ExpandedFirst(b: seq<Byte>, hexify: bool, n: nat): seq<int>
    requires b != []
  {
    if Encoded(b, hexify) then Repeat(LastChar(b[0], hexify), Chars(n, hexify)) else OneByte(b[0], hexify)
  }

  lemma NothingSent(t: seq<int>, hexify: bool)
    ensures Encode([], hexify) + t == t && Shown([], hexify) + Expand(t) == Expand(t)
  {
    hide Expand;
    assert Encode([], hexify) == [] && Shown([], hexify) == [];
  }

  /** Expanding what putfrags sends for some bytes shows them, whatever follows. */
  lemma {:induction false} ExpandEncode(b: seq<Byte>, hexify: bool, t: seq<int>)
    requires Plain(b, hexify) && (t == [] || t[0] != STAR)
    ensures Expand(Encode(b, hexify) + t) == Shown(b, hexify) + Expand(t)
    decreases |b|
  {
    if b == [] {
      NothingSent(t, hexify);
    } else {
      hide Expand, Encode, Encoded, Run, Shown, OneByte, LastChar, ExpandedFirst;
      var n := if Encoded(b, hexify) then Run(b, Most(hexify)) else 1;
      var out :=
        if Encoded(b, hexify) then [LastChar(b[0], hexify), STAR, 28 + Chars(n, hexify)] else OneByte(b[0], hexify);
      var e, shown, first := Encode(b[n..], hexify), Shown(b[n..], hexify), ExpandedFirst(b, hexify, n);
      EncodeStep(b, hexify, n, out);
      PlainRest(b, hexify, n);
      ExpandEncode(b[n..], hexify, t);
      NoLeadingStar(b[n..], hexify);
      Assoc(out, e, t);
      Front(e, t);
      ExpandPiece(b, hexify, n, out, e + t);
      Assoc(first, shown, Expand(t));
    }
  }

  lemma Assoc(a: seq<int>, b: seq<int>, c: seq<int>)
    ensures (a + b) + c == a + (b + c)
  {
  }

  lemma Front(e: seq<int>, t: seq<int>)
    requires (e == [] || e[0] != STAR) && (t == [] || t[0] != STAR)
    ensures e + t == [] || (e + t)[0] != STAR
  {
  }

  lemma PlainRest(b: seq<Byte>, hexify: bool, n: nat)
    requires Plain(b, hexify) && n <= |b|
    ensures Plain(b[n..], hexify)
  {
  }

  function ShownAll(frags: seq<Fragment>): seq<int> {
    if frags == [] then []
    else ShownAll(frags[..|frags| - 1]) + Shown(Text(frags[|frags| - 1]), frags[|frags| - 1].hexify)
  }

  predicate AllPlain(frags: seq<Fragment>) {
    forall i :: 0 <= i < |frags| ==> Plain(Text(frags[i]), frags[i].hexify)
  }

  /** A packet shows its fragments one after the other. */
  lemma {:induction false} ExpandBody(frags: seq<Fragment>, t: seq<int>)
    requires AllPlain(frags) && (t == [] || t[0] != STAR)
    ensures Expand(Body(frags) + t) == ShownAll(frags) + Expand(t)
    decreases |frags|
  {
    if frags == [] {
      assert Body(frags) + t == t && ShownAll(frags) + Expand(t) == Expand(t);
    } else {
      hide Expand, Encode, Shown, Text, AllPlain;
      var f, init := frags[|frags| - 1], frags[..|frags| - 1];
      AllPlainSplit(frags);
      var sent := Encode(Text(f), f.hexify);
      NoLeadingStar(Text(f), f.hexify);
      Front(sent, t);
      ExpandBody(init, sent + t);
      ExpandEncode(Text(f), f.hexify, t);
      Assoc(Body(init), sent, t);
      Assoc(ShownAll(init), Shown(Text(f), f.hexify), Expand(t));
    }
  }

  lemma AllPlainSplit(frags: seq<Fragment>)
    requires frags != [] && AllPlain(frags)
    ensures AllPlain(frags[..|frags| - 1]) && Plain(Text(frags[|frags| - 1]), frags[|frags| - 1].hexify)
  {
  }

  /** The bytes of a hexified fragment come back from hex2bin. */
  lemma HexifiedComesBack(f: Fragment)
    requires f.hexify
    ensures |Expand(Body([f]))| == 2 * |Text(f)| && AllHex(Expand(Body([f])), |Text(f)|)
    ensures forall i :: 0 <= i < |Text(f)| ==> ByteAt(Expand(Body([f])), i) == Text(f)[i]
  {
    ExpandBody([f], []);
    assert Body([f]) + [] == Body([f]);
    assert [f][..0] == [];
    assert ShownAll([f]) == Hexified(Text(f));
    assert ShownAll([f]) + Expand([]) == Hexified(Text(f));
    HexRoundTrip(Text(f));
  }

  // ---- the characters a receiver treats specially

  predicate IsHexChar(c: int) {
    48 <= c <= 57 || 97 <= c <= 102
  }

  /** A hexified fragment is sent as digits, asterisks and even counts between 32 and 126. */
  lemma {:induction false} EncodedChars(b: seq<Byte>)
    ensures forall c :: c in Encode(b, true) ==> IsHexChar(c) || c == STAR || (c % 2 == 0 && 32 <= c <= 126)
    decreases |b|
  {
    if b != [] {
      var n := if Encoded(b, true) then Run(b, Most(true)) else 1;
      EncodedChars(b[n..]);
    }
  }

  /** The characters of the last piece of a run of r bytes, cut at Most bytes. */
  function LastPiece(r: nat, hexify: bool): int {
    Chars(r % Most(hexify), hexify)
  }

  /** Among the maximal runs of b is one whose last piece, cut at Most bytes, shows as that many characters. */
  predicate HasRun(b: seq<Byte>, hexify: bool, chars: int)
    decreases |b|
  {
    b != [] && ((Even(b[0], hexify) && LastPiece(Run(b, |b|), hexify) == chars) ||
                HasRun(b[Run(b, |b|)..], hexify, chars))
  }

  /** What is left of a run. */
  lemma RunAfter(b: seq<Byte>, r: nat, n: nat)
    requires b != [] && r == Run(b, |b|) && n < r
    ensures b[n..] != [] && b[n] == b[0] && Run(b[n..], |b| - n) == r - n && b[n..][r - n..] == b[r..]
  {
    RunIs(b[n..], |b| - n, r - n);
  }

  lemma HasRunAfter(b: seq<Byte>, hexify: bool, chars: int, n: nat)
    requires b != [] && 1 <= n <= Run(b, |b|)
    ensures HasRun(b[n..], hexify, chars) <==>
      (n < Run(b, |b|) && Even(b[0], hexify) && LastPiece(Run(b, |b|) - n, hexify) == chars) ||
      HasRun(b[Run(b, |b|)..], hexify, chars)
  {
    hide Run, HasRun, LastPiece, Even;
    var r := Run(b, |b|);
    if n < r {
      RunAfter(b, r, n);
      var rest := b[n..];
      assert |rest| == |b| - n && rest[0] == b[0];
      HasRunUnfolds(rest, hexify, chars, r - n);
    }
  }

  lemma HasRunUnfolds(b: seq<Byte>, hexify: bool, chars: int, r: nat)
    requires b != [] && Run(b, |b|) == r
    ensures HasRun(b, hexify, chars) <==>
      (Even(b[0], hexify) && LastPiece(r, hexify) == chars) || HasRun(b[r..], hexify, chars)
  {
    hide Run, Even, LastPiece;
  }

  /** The bounded run of the encoder is the maximal run, cut. */
  lemma BoundedRun(b: seq<Byte>, cap: nat)
    requires b != [] && cap >= 1
    ensures Run(b, cap) == if Run(b, |b|) <= cap then Run(b, |b|) else cap
  {
    var r := Run(b, |b|);
    RunIs(b, cap, if r <= cap then r else cap);
  }

  lemma Cut(r: nat, cap: nat)
    requires cap > 0
    ensures r < cap ==> r % cap == r
    ensures r == cap ==> r % cap == 0
    ensures r >= cap ==> (r - cap) % cap == r % cap
  {
    if r < cap {
      Arith.ModUnique(r, cap, 0, r);
    } else {
      Arith.ModAddMultiple(r - cap, cap, 1);
      Arith.ModUnique(cap, cap, 1, 0);
    }
  }

  /** How the last piece of a run changes when the encoder takes n bytes of it. */
  lemma PieceAfter(r: nat, hexify: bool, c: int, even: bool, n: nat)
    requires (c == HASH || c == DOLLAR) && r >= 1
    requires n == if even && r >= Least(hexify) then (if r <= Most(hexify) then r else Most(hexify)) else 1
    ensures even && LastPiece(r, hexify) == c - 28 <==>
      (even && r >= Least(hexify) && Chars(n, hexify) == c - 28) ||
        (n < r && even && LastPiece(r - n, hexify) == c - 28)
  {
    Cut(r, Most(hexify));
    Cut(r - n, Most(hexify));
  }

  /** The characters that end and begin a packet are sent inside one exactly when the text holds them, not
      hexified, or a run of it leaves a piece of the length that their codes count. For '$' and hexified bytes
      that is four equal bytes of two equal digits, up to multiples of 49; for '#' it never happens. */
  lemma {:induction false} SpecialIff(b: seq<Byte>, hexify: bool, c: int)
    requires c == HASH || c == DOLLAR
    ensures c in Encode(b, hexify) <==> (!hexify && c in b) || HasRun(b, hexify, c - 28)
    decreases |b|
  {
    if b != [] {
      var r := Run(b, |b|);
      BoundedRun(b, Most(hexify));
      var n := if Encoded(b, hexify) then Run(b, Most(hexify)) else 1;
      var out :=
        if Encoded(b, hexify) then [LastChar(b[0], hexify), STAR, 28 + Chars(n, hexify)] else OneByte(b[0], hexify);
      assert Encoded(b, hexify) <==> Even(b[0], hexify) && r >= Least(hexify);
      hide Encode, HasRun, Run, LastPiece, Encoded;
      EncodeStep(b, hexify, n, out);
      SpecialIff(b[n..], hexify, c);
      HasRunAfter(b, hexify, c - 28, n);
      HasRunUnfolds(b, hexify, c - 28, r);
      PieceAfter(r, hexify, c, Even(b[0], hexify), n);
      SplitAt(b, n, c);
      SentFirst(b, hexify, n, c, out);
    }
  }

  lemma SplitAt(b: seq<Byte>, n: nat, c: int)
    requires 1 <= n <= |b| && forall k :: 0 <= k < n ==> b[k] == b[0]
    ensures c in b <==> c == b[0] || c in b[n..]
  {
    assert b == b[..n] + b[n..];
    assert c in b[..n] ==> c == b[0];
  }

  lemma SentFirst(b: seq<Byte>, hexify: bool, n: nat, c: int, out: seq<int>)
    requires b != [] && (c == HASH || c == DOLLAR)
    requires out ==
      if Encoded(b, hexify) then [LastChar(b[0], hexify), STAR, 28 + Chars(n, hexify)] else OneByte(b[0], hexify)
    ensures c in out <==> (!hexify && c == b[0]) || (Encoded(b, hexify) && Chars(n, hexify) == c - 28)
  {
  }

  /** Four zero bytes, hexified, put a '$' inside the packet, and seven equal plain bytes a '#'. */
  lemma SpecialInside(c: Byte)
    ensures Encode([0, 0, 0, 0], true) == [48, STAR, DOLLAR]
    ensures Encode([c, c, c, c, c, c, c], false) == [c, STAR, HASH]
  {
    RunIs([0, 0, 0, 0], 49, 4);
    RunIs([c, c, c, c, c, c, c], 98, 7);
  }

  /** The first '#' of a packet. */
  function FirstHash(s: seq<int>): (i: nat)
    requires HASH in s
    ensures i < |s| && s[i] == HASH && HASH !in s[..i]
  {
    if s[0] == HASH then 0 else 1 + FirstHash(s[1..])
  }

  lemma {:induction false} FirstHashIs(s: seq<int>, i: nat)
    requires i < |s| && s[i] == HASH && HASH !in s[..i]
    ensures HASH in s && FirstHash(s) == i
  {
    if i > 0 {
      assert s[..i][0] == s[0];
      assert s[1..][..i - 1] == s[..i][1..];
      FirstHashIs(s[1..], i - 1);
    }
  }

  /** The receiver finds the end of a packet of hexified fragments, its text and its checksum. */
  lemma PacketIsReadable(body: seq<int>)
    requires HASH !in body
    ensures HASH in Packet(body) && FirstHash(Packet(body)) == |body| + 1
    ensures Packet(body)[1..|body| + 1] == body && |Packet(body)| == |body| + 4
    ensures Hex(Packet(body)[|body| + 2]) * 16 + Hex(Packet(body)[|body| + 3]) == Sum(body) % 256
  {
    var p := Packet(body);
    assert p[..|body| + 1] == [DOLLAR] + body && p[|body| + 1] == HASH;
    FirstHashIs(p, |body| + 1);
    HexOfChar(Sum(body) % 256 / 16);
    HexOfChar(Sum(body) % 256 % 16);
  }

  /** When every fragment is hexified, the packet ends at its first '#'. */
  lemma {:induction false} HexifiedPacket(frags: seq<Fragment>)
    requires forall i :: 0 <= i < |frags| ==> frags[i].hexify
    ensures HASH !in Body(frags)
  {
    hide Encode, Text;
    if frags != [] {
      HexifiedPacket(frags[..|frags| - 1]);
      EncodedChars(Text(frags[|frags| - 1]));
    }
  }
}
