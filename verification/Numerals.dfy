/**
printnum of lib/printfmt.c and strtol of lib/string.c: writing a number in a base with
padding, and reading it back.
*/
module Numerals {

  type Digit = d: int | 0 <= d < 16

  function DigitChar(d: Digit): char { "0123456789abcdef"[d] }

  /** The digits of n, most significant first. */
  function Digits(n: nat, base: nat): (s: seq<char>)
    requires 2 <= base <= 16
    ensures |s| > 0
    decreases n
  {
    if n < base then [DigitChar(n)] else Digits(n / base, base) + [DigitChar(n % base)]
  }

  function Repeat(c: char, n: int): (s: seq<char>)
    ensures |s| == if n > 0 then n else 0
    ensures forall k :: 0 <= k < |s| ==> s[k] == c
  {
    if n <= 0 then [] else [c] + Repeat(c, n - 1)
  }

  /** What printnum emits: padding up to the width, then the digits. */
  function Padded(n: nat, base: nat, width: int, padc: char): seq<char>
    requires 2 <= base <= 16
  {
    Repeat(padc, width - |Digits(n, base)|) + Digits(n, base)
  }

  /** Exactly max(width, digit count) characters. */
  lemma PaddedLength(n: nat, base: nat, width: int, padc: char)
    requires 2 <= base <= 16
    ensures |Padded(n, base, width, padc)| ==
      if width > |Digits(n, base)| then width else |Digits(n, base)|
  {}

  /** Each recursive call of printnum passes on width - 1: the padding it leaves to the
      innermost call is what is still missing. */
  lemma PaddedStep(n: nat, base: nat, width: int, padc: char)
    requires 2 <= base <= 16 && n >= base
    ensures Padded(n, base, width, padc) == Padded(n / base, base, width - 1, padc) + [DigitChar(n % base)]
  {}

  /** The innermost call has one digit to print and owes all the padding. */
  lemma PaddedDigit(n: nat, base: nat, width: int, padc: char)
    requires 2 <= base <= 16 && n < base
    ensures Padded(n, base, width, padc) == Repeat(padc, width - 1) + [DigitChar(n % base)]
  {
    SmallMod(n, base);
  }

  lemma SmallMod(n: nat, base: nat)
    requires n < base
    ensures n % base == n
  {}

  // ---------------------------------------------------------------- strtol

  /** A 32-bit two's complement result. */
  function Wrap32(x: int): int {
    if -0x8000_0000 <= x < 0x8000_0000 then x else (x + 0x8000_0000) % 0x1_0000_0000 - 0x8000_0000
  }

  /** The digit a character stands for, or 36 for none. */
  function DigitOf(c: char): nat {
    if '0' <= c <= '9' then (c - '0') as int
    else if 'a' <= c <= 'z' then (c - 'a') as int + 10
    else if 'A' <= c <= 'Z' then (c - 'A') as int + 10
    else 36
  }

  /** The digit loop: value and number of characters taken. */
  function ReadDigits(s: seq<char>, base: int, val: int): (int, nat) {
    if s == [] || DigitOf(s[0]) >= base || DigitOf(s[0]) == 36 then (val, 0)
    else
      var (v, n) := ReadDigits(s[1..], base, Wrap32(val * base + DigitOf(s[0])));
      (v, n + 1)
  }

  /** Leading blanks. */
  function Blanks(s: seq<char>): (n: nat)
    ensures n <= |s|
  {
    if s != [] && (s[0] == ' ' || s[0] == '\t') then 1 + Blanks(s[1..]) else 0
  }

  function SignLen(s: seq<char>): (n: nat)
    ensures n <= |s|
  {
    if s != [] && (s[0] == '+' || s[0] == '-') then 1 else 0
  }

  /** The base prefix: characters taken and the base that results. */
  function Prefix(s: seq<char>, base: int): (r: (nat, int))
    ensures r.0 <= |s|
  {
    if (base == 0 || base == 16) && |s| >= 2 && s[0] == '0' && s[1] == 'x' then (2, 16)
    else if base == 0 && s != [] && s[0] == '0' then (1, 8)
    else if base == 0 then (0, 10)
    else (0, base)
  }

  /** strtol: the value and the offset of *endptr. */
  function Strtol(s: seq<char>, base: int): (int, nat) {
    var a := Blanks(s);
    var t := s[a..];
    var neg := t != [] && t[0] == '-';
    var u := t[SignLen(t)..];
    var (p, b) := Prefix(u, base);
    var (v, n) := ReadDigits(u[p..], b, 0);
    (if neg then Wrap32(-v) else v, a + SignLen(t) + p + n)
  }

  /** s[k], with the terminating NUL at |s|. */
  function CharAt(s: seq<char>, k: nat): char
    requires k <= |s|
  {
    if k < |s| then s[k] else '\0'
  }

  method SkipBlanks(s: seq<char>) returns (k: nat)
    requires '\0' !in s
    ensures k == Blanks(s)
  {
    k := 0;
    while CharAt(s, k) == ' ' || CharAt(s, k) == '\t'
      invariant k <= |s| && Blanks(s) == k + Blanks(s[k..])
      decreases |s| - k
    {
      assert s[k..][1..] == s[k + 1..];
      k := k + 1;
    }
  }

  method ReadRun(s: seq<char>, start: nat, b: int) returns (val: int, k: nat)
    requires '\0' !in s && start <= |s|
    ensures (val, k - start) == ReadDigits(s[start..], b, 0)
  {
    k, val := start, 0;
    while true
      invariant start <= k <= |s|
      invariant ReadDigits(s[start..], b, 0) == (ReadDigits(s[k..], b, val).0, k - start + ReadDigits(s[k..], b, val).1)
      decreases |s| - k
    {
      var c := CharAt(s, k);
      var dig := DigitOf(c);
      if dig == 36 || dig >= b {
        break;
      }
      assert s[k..][0] == c && s[k..][1..] == s[k + 1..];
      k := k + 1;
      val := Wrap32(val * b + dig);
    }
  }

  method SkipSign(s: seq<char>, k: nat) returns (k': nat, neg: bool)
    requires '\0' !in s && k <= |s|
    ensures k' == k + SignLen(s[k..]) && neg == (s[k..] != [] && s[k..][0] == '-')
  {
    k', neg := k, false;
    if CharAt(s, k) == '+' {
      k' := k + 1;
    } else if CharAt(s, k) == '-' {
      k', neg := k + 1, true;
    }
  }

  method SkipPrefix(s: seq<char>, k: nat, base: int) returns (k': nat, b: int)
    requires '\0' !in s && k <= |s|
    ensures k' <= |s| && (k' - k, b) == Prefix(s[k..], base)
  {
    k', b := k, base;
    if (b == 0 || b == 16) && CharAt(s, k) == '0' && CharAt(s, k + 1) == 'x' {
      k', b := k + 2, 16;
    } else if b == 0 && CharAt(s, k) == '0' {
      k', b := k + 1, 8;
    } else if b == 0 {
      b := 10;
    }
  }

  lemma SliceSlice(s: seq<char>, a: nat, c: nat)
    requires a <= c <= |s|
    ensures s[a..][c - a..] == s[c..]
  {}

  lemma StrtolParts(s: seq<char>, base: int, a: nat, c: nat, d: nat, b: int)
    requires a == Blanks(s) && c == a + SignLen(s[a..]) && d <= |s| && (d - c, b) == Prefix(s[c..], base)
    ensures Strtol(s, base) ==
      (if s[a..] != [] && s[a..][0] == '-' then Wrap32(-ReadDigits(s[d..], b, 0).0) else ReadDigits(s[d..], b, 0).0,
       d + ReadDigits(s[d..], b, 0).1)
  {
    SliceSlice(s, a, c);
    SliceSlice(s, c, d);
  }

  /** strtol as it runs; no read goes past the terminating NUL. */
  method StrtolRun(s: seq<char>, base: int) returns (val: int, end: nat)
    requires '\0' !in s
    ensures (val, end) == Strtol(s, base)
  {
    var a := SkipBlanks(s);
    var c, neg := SkipSign(s, a);
    var d, b := SkipPrefix(s, c, base);
    val, end := ReadRun(s, d, b);
    StrtolParts(s, base, a, c, d, b);
    if neg {
      val := Wrap32(-val);
    }
  }

  // ---------------------------------------------------------------- the value of digits

  /** The number a string of digits stands for, of any length. */
  function Value(s: seq<char>, base: nat): nat {
    if s == [] then 0 else Value(s[..|s| - 1], base) * base + DigitOf(s[|s| - 1])
  }

  lemma ValueSnoc(s: seq<char>, d: Digit, base: nat)
    ensures Value(s + [DigitChar(d)], base) == Value(s, base) * base + d
  {
    var t := s + [DigitChar(d)];
    DigitRoundTrip(d);
    assert t[..|t| - 1] == s;
  }

  /** The digits of n have the value n, whatever its size. */
  lemma {:induction false} DigitsValue(n: nat, base: nat)
    requires 2 <= base <= 16
    ensures Value(Digits(n, base), base) == n
    decreases n
  {
    if n < base {
      ValueSnoc([], n, base);
      assert [] + [DigitChar(n)] == [DigitChar(n)];
    } else {
      ShorterNumber(n, base);
      DigitsValue(n / base, base);
      ValueStep(Digits(n / base, base), n, base);
    }
  }

  lemma ShorterNumber(n: nat, base: nat)
    requires 2 <= base <= n
    ensures n / base < n
  {
    DivModBack(n, base);
    Doubled(n / base, base);
  }

  lemma Doubled(q: nat, base: nat)
    requires base >= 2
    ensures q * base >= q + q
  {}

  lemma ValueStep(s: seq<char>, n: nat, base: nat)
    requires 2 <= base <= 16 && Value(s, base) == n / base
    ensures Value(s + [DigitChar(n % base)], base) == n
  {
    ValueSnoc(s, n % base, base);
    DivModBack(n, base);
  }

  // ---------------------------------------------------------------- reading back what was written

  predicate IsDigits(s: seq<char>, base: nat) {
    forall k :: 0 <= k < |s| ==> DigitOf(s[k]) < base && DigitOf(s[k]) != 36
  }

  lemma DigitRoundTrip(d: Digit)
    ensures DigitOf(DigitChar(d)) == d && DigitChar(d) != 'x' && DigitChar(d) !in {' ', '\t', '+', '-'}
  {}

  lemma {:induction false} DigitsAreDigits(n: nat, base: nat)
    requires 2 <= base <= 16
    ensures IsDigits(Digits(n, base), base)
    ensures forall k :: 0 <= k < |Digits(n, base)| ==> Digits(n, base)[k] !in {' ', '\t', '+', '-', 'x'}
    decreases n
  {
    if n < base { DigitRoundTrip(n); } else { DigitsAreDigits(n / base, base); DigitRoundTrip(n % base); }
  }

  lemma ReadStep(s: seq<char>, base: int, val: int)
    requires s != [] && DigitOf(s[0]) < base && DigitOf(s[0]) != 36
    ensures var (v, n) := ReadDigits(s[1..], base, Wrap32(val * base + DigitOf(s[0])));
      ReadDigits(s, base, val) == (v, n + 1)
  {}

  lemma {:induction false} ReadAppend(s: seq<char>, t: seq<char>, base: int, val: int)
    requires base <= 16 && base >= 2 && IsDigits(s, base)
    ensures var (v, n) := ReadDigits(s, base, val);
      n == |s| && ReadDigits(s + t, base, val) == (ReadDigits(t, base, v).0, |s| + ReadDigits(t, base, v).1)
  {
    if s == [] {
      assert s + t == t;
    } else {
      assert (s + t)[1..] == s[1..] + t;
      ReadStep(s, base, val);
      ReadStep(s + t, base, val);
      ReadAppend(s[1..], t, base, Wrap32(val * base + DigitOf(s[0])));
    }
  }

  lemma DivModBack(n: nat, base: nat)
    requires 2 <= base
    ensures n / base * base + n % base == n && n / base <= n
  {}

  /** One more digit on the right. */
  lemma ReadSnoc(s: seq<char>, t: seq<char>, base: nat, v: int, w: int)
    requires 2 <= base <= 16 && IsDigits(s, base) && ReadDigits(s, base, 0) == (v, |s|)
    requires ReadDigits(t, base, v) == (w, |t|)
    ensures ReadDigits(s + t, base, 0) == (w, |s| + |t|)
  {
    ReadAppend(s, t, base, 0);
  }

  lemma WrapShift(x: int, j: int)
    ensures Wrap32(x - 0x1_0000_0000 * j) == Wrap32(x)
  {}

  lemma WrapParts(x: int) returns (j: int)
    ensures Wrap32(x) == x - 0x1_0000_0000 * j
  {
    j := (x + 0x8000_0000) / 0x1_0000_0000;
  }

  lemma WrapStep(x: int, base: nat, d: nat)
    ensures Wrap32(Wrap32(x) * base + d) == Wrap32(x * base + d)
  {
    var j := WrapParts(x);
    assert (x - 0x1_0000_0000 * j) * base == x * base - 0x1_0000_0000 * (j * base);
    WrapShift(x * base + d, j * base);
  }

  lemma WrapMinus(x: int)
    ensures Wrap32(-Wrap32(x)) == Wrap32(-x)
  {
    var j := WrapParts(x);
    WrapShift(-x, -j);
  }

  lemma ReadLone(c: char, base: nat, val: int)
    requires DigitOf(c) < base && DigitOf(c) != 36
    ensures ReadDigits([c], base, val) == (Wrap32(val * base + DigitOf(c)), 1)
  {
    assert [c][1..] == [];
  }

  /** The digit loop computes the value of the digits in 32 bits. */
  lemma {:induction false} ReadValue(s: seq<char>, base: nat)
    requires 2 <= base <= 16 && IsDigits(s, base)
    ensures ReadDigits(s, base, 0) == (Wrap32(Value(s, base)), |s|)
  {
    if s != [] {
      var t, c := s[..|s| - 1], s[|s| - 1];
      ReadValue(t, base);
      ReadLone(c, base, Wrap32(Value(t, base)));
      WrapStep(Value(t, base), base, DigitOf(c));
      ReadSnoc(t, [c], base, Wrap32(Value(t, base)), Wrap32(Value(s, base)));
      assert t + [c] == s;
    }
  }

  lemma ReadOwnDigits(n: nat, base: nat)
    requires 2 <= base <= 16 && n < 0x8000_0000
    ensures ReadDigits(Digits(n, base), base, 0) == (n, |Digits(n, base)|)
  {
    DigitsAreDigits(n, base);
    DigitsValue(n, base);
    ReadValue(Digits(n, base), base);
  }

  lemma {:induction false} ReadZeros(m: int, t: seq<char>, base: nat)
    requires 2 <= base <= 16
    ensures ReadDigits(Repeat('0', m) + t, base, 0).0 == ReadDigits(t, base, 0).0
  {
    if m <= 0 {
      assert Repeat('0', m) + t == t;
    } else {
      assert (Repeat('0', m) + t)[1..] == Repeat('0', m - 1) + t;
      ReadZeros(m - 1, t, base);
    }
  }

  lemma {:induction false} BlanksRepeat(m: int, t: seq<char>)
    ensures t != [] && t[0] != ' ' && t[0] != '\t' ==>
      Blanks(Repeat(' ', m) + t) == (if m > 0 then m else 0)
  {
    if m <= 0 {
      assert Repeat(' ', m) + t == t;
    } else {
      assert (Repeat(' ', m) + t)[1..] == Repeat(' ', m - 1) + t;
      BlanksRepeat(m - 1, t);
    }
  }

  /** strtol of text that starts with a digit and has no base prefix. */
  lemma StrtolPlain(s: seq<char>, base: nat)
    requires base == 8 || base == 10 || base == 16
    requires s != [] && s[0] !in {' ', '\t', '+', '-'} && (|s| > 1 ==> s[1] != 'x')
    ensures Strtol(s, base).0 == ReadDigits(s, base, 0).0
  {
    assert s[0..] == s;
  }

  lemma SpacePadding(n: nat, base: nat, width: int)
    requires (base == 8 || base == 10 || base == 16) && n < 0x8000_0000
    ensures Strtol(Padded(n, base, width, ' '), base).0 == n
  {
    var m := width - |Digits(n, base)|;
    var s := Padded(n, base, width, ' ');
    DigitsAreDigits(n, base);
    BlanksRepeat(m, Digits(n, base));
    assert s[Blanks(s)..] == Digits(n, base);
    assert Digits(n, base)[0..] == Digits(n, base);
    ReadOwnDigits(n, base);
  }

  lemma ZeroPadding(n: nat, base: nat, width: int)
    requires (base == 8 || base == 10 || base == 16) && n < 0x8000_0000
    ensures Strtol(Padded(n, base, width, '0'), base).0 == n
  {
    DigitsAreDigits(n, base);
    StrtolPlain(Padded(n, base, width, '0'), base);
    ReadZeros(width - |Digits(n, base)|, Digits(n, base), base);
    ReadOwnDigits(n, base);
  }

  lemma StrtolMinus(u: seq<char>, base: nat)
    requires base == 8 || base == 10 || base == 16
    requires |u| > 1 ==> u[1] != 'x'
    ensures Strtol(['-'] + u, base).0 == Wrap32(-ReadDigits(u, base, 0).0)
  {
    var s := ['-'] + u;
    assert s[0..] == s && s[1..] == u;
    StrtolParts(s, base, 0, 1, 1, base);
  }

  lemma ReadDash(u: seq<char>, base: nat)
    requires u != [] && u[0] == '-'
    ensures ReadDigits(u, base, 0) == (0, 0)
  {}

  lemma DashThenDigits(n: nat, base: nat, m: nat)
    requires 2 <= base <= 16 && m > 0
    ensures var u := Repeat('-', m - 1) + Digits(n, base);
      (|u| > 1 ==> u[1] != 'x') && Repeat('-', m) + Digits(n, base) == ['-'] + u
      && (m > 1 ==> u[0] == '-') && (m == 1 ==> u == Digits(n, base))
  {
    DigitsAreDigits(n, base);
  }

  /** With the '-' flag printnum pads with dashes: one reads as a minus sign, and two or more
      as a minus sign followed by no number. */
  lemma DashPadding(n: nat, base: nat, width: int)
    requires (base == 8 || base == 10 || base == 16) && n < 0x8000_0000 && width > |Digits(n, base)|
    ensures Strtol(Padded(n, base, width, '-'), base).0 == if width == |Digits(n, base)| + 1 then -(n as int) else 0
  {
    var m := width - |Digits(n, base)|;
    DashThenDigits(n, base, m);
    DashText(n, base, m == 1, Repeat('-', m - 1) + Digits(n, base));
  }

  lemma DashText(n: nat, base: nat, single: bool, u: seq<char>)
    requires (base == 8 || base == 10 || base == 16) && n < 0x8000_0000
    requires |u| > 1 ==> u[1] != 'x'
    requires if single then u == Digits(n, base) else u != [] && u[0] == '-'
    ensures Strtol(['-'] + u, base).0 == if single then -(n as int) else 0
  {
    StrtolMinus(u, base);
    if single {
      ReadOwnDigits(n, base);
    } else {
      ReadDash(u, base);
    }
  }

  /** Reading back: strtol undoes printnum for every number below 2^31, base and width, exactly
      when the padding is not dashes, or there is none, or the number is 0. */
  lemma RoundTripExact(n: nat, base: nat, width: int, padc: char)
    requires (base == 8 || base == 10 || base == 16) && n < 0x8000_0000 && padc in {' ', '0', '-'}
    ensures Strtol(Padded(n, base, width, padc), base).0 == n
      <==> padc != '-' || width <= |Digits(n, base)| || n == 0
  {
    if padc == ' ' {
      SpacePadding(n, base, width);
    } else if padc == '0' {
      ZeroPadding(n, base, width);
    } else if width > |Digits(n, base)| {
      DashPadding(n, base, width);
    } else {
      SpacePadding(n, base, width);
      assert Padded(n, base, width, padc) == Padded(n, base, width, ' ');
    }
  }

  // ---------------------------------------------------------------- every number strtol accepts

  /** Digits with something behind them that is no digit. */
  lemma ReadUpTo(s: seq<char>, t: seq<char>, base: nat)
    requires 2 <= base <= 16 && IsDigits(s, base) && (t == [] || DigitOf(t[0]) >= base)
    ensures ReadDigits(s + t, base, 0) == (Wrap32(Value(s, base)), |s|)
  {
    ReadValue(s, base);
    ReadAppend(s, t, base, 0);
  }

  predicate IsBlank(s: seq<char>) { forall k :: 0 <= k < |s| ==> s[k] == ' ' || s[k] == '\t' }

  lemma {:induction false} BlanksBefore(s: seq<char>, t: seq<char>)
    requires IsBlank(s) && (t == [] || t[0] !in {' ', '\t'})
    ensures Blanks(s + t) == |s|
  {
    if s == [] {
      assert s + t == t;
    } else {
      assert (s + t)[1..] == s[1..] + t;
      BlanksBefore(s[1..], t);
    }
  }

  /** A number of base b may have s[c..d] in front of its digits when strtol is called for `base`. */
  predicate Begins(base: nat, s: seq<char>, c: nat, d: nat, b: nat)
    requires c <= d < |s|
  {
    || (d == c && (base == b || (base == 0 && b == 10 && s[c] != '0')))
    || (d == c + 1 && base == 0 && b == 8 && s[c] == '0')
    || (d == c + 2 && base in {0, 16} && b == 16 && s[c] == '0' && s[c + 1] == 'x')
  }

  lemma DigitAt(s: seq<char>, d: nat, e: nat, k: nat, b: nat)
    requires d <= k < e <= |s| && IsDigits(s[d..e], b)
    ensures DigitOf(s[k]) < b && DigitOf(s[k]) != 36 && s[k] !in {' ', '\t', '+', '-'}
  {
    assert s[d..e][k - d] == s[k];
  }

  lemma BlanksUpTo(s: seq<char>, a: nat)
    requires a < |s| && IsBlank(s[..a]) && s[a] !in {' ', '\t'}
    ensures Blanks(s) == a
  {
    BlanksBefore(s[..a], s[a..]);
    assert s[..a] + s[a..] == s;
  }

  lemma DigitsUpTo(s: seq<char>, d: nat, e: nat, b: nat)
    requires d <= e <= |s| && 2 <= b <= 16 && IsDigits(s[d..e], b) && (e == |s| || DigitOf(s[e]) >= b)
    ensures ReadDigits(s[d..], b, 0) == (Wrap32(Value(s[d..e], b)), e - d)
  {
    ReadUpTo(s[d..e], s[e..], b);
    assert s[d..e] + s[e..] == s[d..];
  }

  lemma PrefixFrom(s: seq<char>, c: nat, d: nat, e: nat, base: nat, b: nat)
    requires c <= d < e <= |s| && 2 <= b <= 16 && IsDigits(s[d..e], b) && Begins(base, s, c, d, b)
    requires e == |s| || s[e] != 'x'
    ensures Prefix(s[c..], base) == (d - c, b) && s[c] !in {' ', '\t', '+', '-'}
  {
    DigitAt(s, d, e, d, b);
    if d + 1 < e { DigitAt(s, d, e, d + 1, b); }
    assert s[c..][0] == s[c] && (c + 1 < |s| ==> s[c..][1] == s[c + 1]);
  }

  lemma SignFrom(s: seq<char>, a: nat, c: nat)
    requires a <= c < |s| && IsBlank(s[..a]) && (c == a || (c == a + 1 && s[a] in {'+', '-'}))
    requires s[c] !in {' ', '\t', '+', '-'}
    ensures Blanks(s) == a && SignLen(s[a..]) == c - a
  {
    BlanksUpTo(s, a);
  }

  lemma StrtolFrom(s: seq<char>, a: nat, c: nat, d: nat, base: nat, b: nat, v: int, e: nat)
    requires Blanks(s) == a && c == a + SignLen(s[a..]) && c <= d <= e <= |s| && a < |s|
    requires Prefix(s[c..], base) == (d - c, b) && ReadDigits(s[d..], b, 0) == (Wrap32(v), e - d)
    ensures Strtol(s, base) == (Wrap32(if s[a] == '-' then -v else v), e)
  {
    StrtolParts(s, base, a, c, d, b);
    WrapMinus(v);
    WrapShift(v, 0);
  }

  /** strtol as a whole: blanks up to a, a sign up to c, a prefix up to d if the base allows one, digits
      up to e, and whatever follows them. The value is that of the digits in 32 bits, negated for a
      minus sign, and *endptr is just behind the digits. */
  lemma StrtolReads(s: seq<char>, a: nat, c: nat, d: nat, e: nat, base: nat, b: nat)
    requires a <= c <= d < e <= |s| && IsBlank(s[..a]) && (c == a || (c == a + 1 && s[a] in {'+', '-'}))
    requires 2 <= b <= 16 && IsDigits(s[d..e], b) && Begins(base, s, c, d, b)
    requires e == |s| || (s[e] != 'x' && DigitOf(s[e]) >= b)
    ensures Strtol(s, base) == (Wrap32(if s[a] == '-' then -(Value(s[d..e], b) as int) else Value(s[d..e], b)), e)
  {
    PrefixFrom(s, c, d, e, base, b);
    SignFrom(s, a, c);
    DigitsUpTo(s, d, e, b);
    StrtolFrom(s, a, c, d, base, b, Value(s[d..e], b), e);
  }
}
