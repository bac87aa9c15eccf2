/**
vprintfmt, printnum and vsnprintf of lib/printfmt.c. `Format` is what a format string means
for a typed argument list; the methods emit exactly that text, one character at a time,
into a bounded buffer. None stands for what C leaves undefined (an argument that is missing
or of the wrong type); %n is not modelled and counts as such.
*/
module Printf {
  import opened Layout
  import opened Options
  import opened Numerals

  type Int32 = v: int | -0x8000_0000 <= v < 0x8000_0000
  type Int64 = v: int | -0x8000_0000_0000_0000 <= v < 0x8000_0000_0000_0000

  datatype Arg = Int(v: Int32) | Long(l: Int32) | LongLong(ll: Int64) | Pointer(p: nat) | Str(s: Option<seq<char>>)

  const MAXERROR := 9

  function ErrorString(e: nat): Option<seq<char>> {
    match e
    case 1 => Some("unspecified error")
    case 2 => Some("bad environment")
    case 3 => Some("invalid parameter")
    case 4 => Some("out of memory")
    case 5 => Some("out of environments")
    case 6 => Some("segmentation fault")
    case 7 => Some("env is not recving")
    case 8 => Some("unexpected end of file")
    case _ => None
  }

  // ---------------------------------------------------------------- flags, width, precision

  datatype Flags = Flags(padc: char, width: int, precision: int, lflag: nat, alt: bool)

  const NO_FLAGS := Flags(' ', -1, -1, 0, false)

  /** The label process_precision: the first number is the width, a later one the precision. */
  function TakeNumber(f: Flags, n: int): Flags {
    if f.width < 0 then f.(width := n, precision := -1) else f.(precision := n)
  }

  predicate IsDigit(c: char) { '0' <= c <= '9' }

  /** The rest of a run of decimal digits: value and where it ends. */
  function Number(fmt: seq<char>, k: nat, acc: int): (r: (int, nat))
    requires k <= |fmt|
    ensures k <= r.1 <= |fmt|
    ensures forall x :: k <= x < r.1 ==> IsDigit(fmt[x])
    decreases |fmt| - k
  {
    if IsDigit(CharAt(fmt, k)) then Number(fmt, k + 1, acc * 10 + (fmt[k] - '0') as int) else (acc, k)
  }

  /** The conversion character ending an escape, the offset after it, what is left of the
      arguments, and the flags gathered on the way. */
  datatype Escape = Stop(ch: char, k: nat, args: seq<Arg>, flags: Flags) | NoArg

  /** One turn of the reswitch loop: a flag taken, or the escape ended. */
  datatype Turn = Go(k: nat, args: seq<Arg>, flags: Flags) | Done(e: Escape)

  function Reswitch(fmt: seq<char>, k: nat, args: seq<Arg>, f: Flags): (r: Turn)
    requires k <= |fmt| && '\0' !in fmt
    ensures r.Go? ==> k < r.k <= |fmt| && forall x :: k <= x < r.k ==> fmt[x] != '%'
    ensures r.Done? && r.e.Stop? ==> r.e.k == k + 1 && r.e.ch == CharAt(fmt, k)
  {
    var c := CharAt(fmt, k);
    if c == '-' then Go(k + 1, args, f.(padc := '-'))
    else if c == '0' then Go(k + 1, args, f.(padc := '0'))
    else if '1' <= c <= '9' then
      var (n, j) := Number(fmt, k + 1, (c - '0') as int);
      Go(j, args, TakeNumber(f, n))
    else if c == '*' then
      if args != [] && args[0].Int? then Go(k + 1, args[1..], TakeNumber(f, args[0].v)) else Done(NoArg)
    else if c == '.' then Go(k + 1, args, if f.width < 0 then f.(width := 0) else f)
    else if c == '#' then Go(k + 1, args, f.(alt := true))
    else if c == 'l' then Go(k + 1, args, f.(lflag := f.lflag + 1))
    else Done(Stop(c, k + 1, args, f))
  }

  /** The whole escape from offset k on. The terminating NUL also ends an escape. */
  function Scan(fmt: seq<char>, k: nat, args: seq<Arg>, f: Flags): (e: Escape)
    requires k <= |fmt| && '\0' !in fmt
    ensures e.Stop? ==> k < e.k <= |fmt| + 1 && e.ch == CharAt(fmt, e.k - 1)
    ensures e.Stop? ==> forall x :: k <= x < e.k - 1 ==> fmt[x] != '%'
    decreases |fmt| - k
  {
    match Reswitch(fmt, k, args, f)
    case Done(e) => e
    case Go(j, rest, g) => Scan(fmt, j, rest, g)
  }

  // ---------------------------------------------------------------- conversions

  datatype Conv = Text(text: seq<char>, args: seq<Arg>) | Undefined | Unknown

  function Shown(c: char, alt: bool): char {
    if alt && (c < ' ' || c > '~') then '?' else c
  }

  function ShownAll(s: seq<char>, alt: bool): (t: seq<char>)
    ensures |t| == |s| && forall k :: 0 <= k < |s| ==> t[k] == Shown(s[k], alt)
  {
    if s == [] then [] else [Shown(s[0], alt)] + ShownAll(s[1..], alt)
  }

  /** How much of the string the precision lets through. */
  function ShownLen(s: seq<char>, precision: int): (n: nat)
    ensures n <= |s|
  {
    if precision < 0 || precision > |s| then |s| else precision
  }

  /** %s: padded on the left with padc, or with '-' on the right with blanks. */
  function StringText(s: seq<char>, f: Flags): seq<char> {
    var shown := ShownAll(s[..ShownLen(s, f.precision)], f.alt);
    if f.padc != '-' then Repeat(f.padc, f.width - |shown|) + shown
    else shown + Repeat(' ', f.width - |shown|)
  }

  /** getint */
  function GetInt(args: seq<Arg>, lflag: nat): Option<int> {
    if args == [] then None
    else if lflag >= 2 then (if args[0].LongLong? then Some(args[0].ll) else None)
    else if lflag == 1 then (if args[0].Long? then Some(args[0].l) else None)
    else if args[0].Int? then Some(args[0].v) else None
  }

  /** getuint: the same bits read as an unsigned number. */
  function GetUint(args: seq<Arg>, lflag: nat): Option<nat> {
    match GetInt(args, lflag)
    case None => None
    case Some(v) =>
      if v >= 0 then Some(v)
      else if lflag >= 2 then Some(v % 0x1_0000_0000_0000_0000) else Some(v % 0x1_0000_0000)
  }

  function Signed(v: int, f: Flags): seq<char> {
    (if v < 0 then "-" else "") + Padded(if v < 0 then -v else v, 10, f.width, f.padc)
  }

  function ErrorText(v: Int32): Option<seq<char>> {
    var e: nat := if v < 0 then -(v as int) else v;
    if v == -0x8000_0000 then None
    else if e >= MAXERROR || ErrorString(e).None? then Some("error " + Padded(e, 10, -1, ' '))
    else ErrorString(e)
  }

  function Unsigned(args: seq<Arg>, f: Flags, base: nat): Conv
    requires 2 <= base <= 16
  {
    match GetUint(args, f.lflag)
    case None => Undefined
    case Some(v) => Text(Padded(v, base, f.width, f.padc), if args == [] then [] else args[1..])
  }

  function Convert(ch: char, f: Flags, args: seq<Arg>): Conv {
    match ch
    case 'c' => if args != [] && args[0].Int? then Text([(args[0].v % 256) as char], args[1..]) else Undefined
    case 'e' =>
      if args != [] && args[0].Int? && ErrorText(args[0].v).Some?
      then Text(ErrorText(args[0].v).value, args[1..]) else Undefined
    case 's' =>
      if args != [] && args[0].Str? && (args[0].s.Some? ==> '\0' !in args[0].s.value)
      then Text(StringText(if args[0].s.None? then "(null)" else args[0].s.value, f), args[1..]) else Undefined
    case 'd' =>
      if GetInt(args, f.lflag).Some? && args != [] then Text(Signed(GetInt(args, f.lflag).value, f), args[1..])
      else Undefined
    case 'u' => Unsigned(args, f, 10)
    case 'o' => Unsigned(args, f, 8)
    case 'p' =>
      if args != [] && args[0].Pointer? then Text("0x" + Padded(args[0].p, 16, f.width, f.padc), args[1..])
      else Undefined
    case 'x' => Unsigned(args, f, 16)
    case 'n' => Undefined
    case '%' => Text("%", args)
    case _ => Unknown
  }

  /** The text a format produces from offset k on, and the arguments it leaves. */
  function Format(fmt: seq<char>, k: nat, args: seq<Arg>): Option<(seq<char>, seq<Arg>)>
    requires k <= |fmt| && '\0' !in fmt
    decreases |fmt| - k
  {
    if k == |fmt| then Some(([], args))
    else if fmt[k] != '%' then Prepend([fmt[k]], Format(fmt, k + 1, args))
    else
      match Scan(fmt, k + 1, args, NO_FLAGS)
      case NoArg => None
      case Stop(ch, j, rest, f) =>
        match Convert(ch, f, rest)
        case Undefined => None
        case Text(t, left) => if j <= |fmt| then Prepend(t, Format(fmt, j, left)) else None
        case Unknown => Prepend("%", Format(fmt, k + 1, rest))
  }

  function Prepend(t: seq<char>, r: Option<(seq<char>, seq<Arg>)>): Option<(seq<char>, seq<Arg>)> {
    if r.None? then None else Some((t + r.value.0, r.value.1))
  }

  // ---------------------------------------------------------------- what formats mean

  /** Text without escapes stands for itself. */
  lemma {:induction false} FormatPlain(fmt: seq<char>, k: nat, args: seq<Arg>)
    requires k <= |fmt| && '\0' !in fmt && '%' !in fmt
    ensures Format(fmt, k, args) == Some((fmt[k..], args))
    decreases |fmt| - k
  {
    if k < |fmt| {
      FormatPlain(fmt, k + 1, args);
      assert [fmt[k]] + fmt[k + 1..] == fmt[k..];
    } else {
      assert fmt[k..] == [];
    }
  }

  /** A stretch of text without escapes, in front of anything. */
  lemma {:induction false} PlainRun(fmt: seq<char>, k: nat, j: nat, args: seq<Arg>)
    requires k <= j <= |fmt| && '\0' !in fmt && forall x :: k <= x < j ==> fmt[x] != '%'
    ensures Format(fmt, k, args) == Prepend(fmt[k..j], Format(fmt, j, args))
    decreases j - k
  {
    if k == j {
      assert fmt[k..j] == [];
      PrependNothing(Format(fmt, j, args));
    } else {
      PlainRun(fmt, k + 1, j, args);
      PrependAssoc([fmt[k]], fmt[k + 1..j], Format(fmt, j, args));
      assert [fmt[k]] + fmt[k + 1..j] == fmt[k..j];
    }
  }

  lemma PrependNothing(r: Option<(seq<char>, seq<Arg>)>)
    ensures Prepend([], r) == r
  {
    if r.Some? { assert [] + r.value.0 == r.value.0; }
  }

  /** An escape with an unknown conversion is copied as it stands, wherever it occurs; arguments
      taken by '*' stay taken. */
  lemma FormatUnknown(fmt: seq<char>, k: nat, args: seq<Arg>)
    requires k < |fmt| && '\0' !in fmt && fmt[k] == '%'
    requires var e := Scan(fmt, k + 1, args, NO_FLAGS); e.Stop? && Convert(e.ch, e.flags, e.args).Unknown?
    ensures var e := Scan(fmt, k + 1, args, NO_FLAGS);
      Format(fmt, k, args) == Prepend(fmt[k..e.k - 1], Format(fmt, e.k - 1, e.args))
  {
    var e := Scan(fmt, k + 1, args, NO_FLAGS);
    PlainRun(fmt, k + 1, e.k - 1, e.args);
    PrependAssoc("%", fmt[k + 1..e.k - 1], Format(fmt, e.k - 1, e.args));
    assert "%" + fmt[k + 1..e.k - 1] == fmt[k..e.k - 1];
  }

  /** %s emits max(width, shown) characters. */
  lemma StringLength(s: seq<char>, f: Flags)
    ensures |StringText(s, f)| == if f.width > ShownLen(s, f.precision) then f.width else ShownLen(s, f.precision)
  {}

  lemma {:induction false} NumberGrows(fmt: seq<char>, k: nat, acc: nat)
    requires k <= |fmt|
    ensures Number(fmt, k, acc).0 >= acc
    decreases |fmt| - k
  {
    if IsDigit(CharAt(fmt, k)) { NumberGrows(fmt, k + 1, acc * 10 + (fmt[k] - '0') as int); }
  }

  lemma ScanZero(fmt: seq<char>, k: nat, args: seq<Arg>, f: Flags)
    requires k < |fmt| && '\0' !in fmt && fmt[k] == '0'
    ensures Scan(fmt, k, args, f) == Scan(fmt, k + 1, args, f.(padc := '0'))
  {}

  lemma ScanNumber(fmt: seq<char>, k: nat, args: seq<Arg>, f: Flags)
    requires k < |fmt| && '\0' !in fmt && '1' <= fmt[k] <= '9' && f.width >= 0
    ensures var (n, j) := Number(fmt, k, 0); n > 0 && Scan(fmt, k, args, f) == Scan(fmt, j, args, f.(precision := n))
  {
    NumberGrows(fmt, k + 1, (fmt[k] - '0') as int);
    assert Number(fmt, k, 0) == Number(fmt, k + 1, (fmt[k] - '0') as int);
  }

  lemma NumberZero(fmt: seq<char>, k: nat)
    requires k < |fmt| && fmt[k] == '0'
    ensures Number(fmt, k, 0) == Number(fmt, k + 1, 0)
    ensures !IsDigit(CharAt(fmt, k + 1)) ==> Number(fmt, k, 0) == (0, k + 1)
  {}

  /** Digits once there is a width: the leading zeros are the flag 0, the rest is the precision. */
  lemma {:induction false} DigitRun(fmt: seq<char>, k: nat, args: seq<Arg>, f: Flags)
    requires k < |fmt| && '\0' !in fmt && IsDigit(fmt[k]) && f.width >= 0
    ensures var (n, j) := Number(fmt, k, 0);
      var g := f.(padc := if fmt[k] == '0' then '0' else f.padc, precision := if n > 0 then n else f.precision);
      Scan(fmt, k, args, f) == Scan(fmt, j, args, g)
    decreases |fmt| - k
  {
    if fmt[k] == '0' {
      ScanZero(fmt, k, args, f);
      NumberZero(fmt, k);
      if IsDigit(CharAt(fmt, k + 1)) { DigitRun(fmt, k + 1, args, f.(padc := '0')); }
    } else {
      ScanNumber(fmt, k, args, f);
    }
  }

  /** A '.' makes sure there is a width. */
  function Dotted(f: Flags): Flags { if f.width < 0 then f.(width := 0) else f }

  lemma ScanDot(fmt: seq<char>, k: nat, args: seq<Arg>, f: Flags)
    requires k < |fmt| && '\0' !in fmt && fmt[k] == '.'
    ensures Scan(fmt, k, args, f) == Scan(fmt, k + 1, args, Dotted(f))
  {}

  /** What a '.' and the digits behind it are read as. */
  function AfterDigits(f: Flags, first: char, n: int): Flags {
    Dotted(f).(padc := if first == '0' then '0' else f.padc, precision := if n > 0 then n else f.precision)
  }

  lemma FlagsExact(f: Flags, first: char, n: nat)
    requires first != '0' ==> n > 0
    ensures AfterDigits(f, first, n) == Dotted(f).(precision := n)
      <==> first != '0' || (f.padc == '0' && (n > 0 || f.precision == 0))
  {}

  lemma FirstDigit(fmt: seq<char>, k: nat)
    requires k < |fmt| && IsDigit(fmt[k])
    ensures Number(fmt, k, 0).0 >= 0 && (fmt[k] != '0' ==> Number(fmt, k, 0).0 > 0)
  {
    NumberGrows(fmt, k + 1, (fmt[k] - '0') as int);
  }

  /** Digits straight after a '.' are the precision, and nothing else, exactly if the first is not
      0, or 0 was the padding already and the number is not lost for being 0. */
  lemma PrecisionExact(fmt: seq<char>, k: nat, args: seq<Arg>, f: Flags)
    requires k + 1 < |fmt| && '\0' !in fmt && fmt[k] == '.' && IsDigit(fmt[k + 1])
    ensures var (n, j) := Number(fmt, k + 1, 0);
      && Scan(fmt, k, args, f) == Scan(fmt, j, args, AfterDigits(f, fmt[k + 1], n))
      && (AfterDigits(f, fmt[k + 1], n) == Dotted(f).(precision := n) <==>
            fmt[k + 1] != '0' || (f.padc == '0' && (n > 0 || f.precision == 0)))
  {
    ScanDot(fmt, k, args, f);
    DigitRun(fmt, k + 1, args, Dotted(f));
    FirstDigit(fmt, k + 1);
    FlagsExact(f, fmt[k + 1], Number(fmt, k + 1, 0).0);
  }

  lemma ScanString(fmt: seq<char>, k: nat, args: seq<Arg>, f: Flags)
    requires k < |fmt| && '\0' !in fmt && fmt[k] == 's'
    ensures Scan(fmt, k, args, f) == Stop('s', k + 1, args, f)
  {}

  lemma ScanDotZero(fmt: seq<char>, args: seq<Arg>)
    requires fmt == "%.0s"
    ensures Scan(fmt, 1, args, NO_FLAGS) == Stop('s', 4, args, AfterDigits(NO_FLAGS, '0', 0))
  {
    assert Number(fmt, 2, 0) == Number(fmt, 3, 0) == (0, 3);
    PrecisionExact(fmt, 1, args, NO_FLAGS);
    ScanString(fmt, 3, args, AfterDigits(NO_FLAGS, '0', 0));
  }

  /** A format that is one escape. */
  lemma FormatLone(fmt: seq<char>, args: seq<Arg>, ch: char, f: Flags)
    requires fmt != [] && '\0' !in fmt && fmt[0] == '%'
    requires Scan(fmt, 1, args, NO_FLAGS) == Stop(ch, |fmt|, args, f) && Convert(ch, f, args).Text?
    ensures var c := Convert(ch, f, args); Format(fmt, 0, args) == Some((c.text, c.args))
  {
    var c := Convert(ch, f, args);
    assert Format(fmt, |fmt|, c.args) == Some(([], c.args));
    assert c.text + [] == c.text;
  }

  /** %s without width and precision. */
  lemma WholeString(p: seq<char>, f: Flags)
    requires f.width <= 0 && f.precision < 0 && !f.alt
    ensures StringText(p, f) == p
  {
    ShownPlain(p);
    assert p[..|p|] == p;
  }

  /** A precision of 0 cannot be written: the whole string is shown. */
  lemma NoZeroPrecision(fmt: seq<char>, p: seq<char>)
    requires fmt == "%.0s" && '\0' !in p
    ensures '\0' !in fmt && Format(fmt, 0, [Str(Some(p))]) == Some((p, []))
  {
    var f := AfterDigits(NO_FLAGS, '0', 0);
    ScanDotZero(fmt, [Str(Some(p))]);
    WholeString(p, f);
    LoneString(fmt, p, f);
  }

  lemma LoneString(fmt: seq<char>, p: seq<char>, f: Flags)
    requires fmt != [] && '\0' !in fmt && fmt[0] == '%' && '\0' !in p && StringText(p, f) == p
    requires Scan(fmt, 1, [Str(Some(p))], NO_FLAGS) == Stop('s', |fmt|, [Str(Some(p))], f)
    ensures Format(fmt, 0, [Str(Some(p))]) == Some((p, []))
  {
    assert Convert('s', f, [Str(Some(p))]) == Text(p, []);
    FormatLone(fmt, [Str(Some(p))], 's', f);
  }

  /** No escape of the format runs into the terminating NUL. */
  ghost predicate Closed(fmt: seq<char>, k: nat, args: seq<Arg>)
    requires k <= |fmt| && '\0' !in fmt
    decreases |fmt| - k
  {
    if k == |fmt| then true
    else if fmt[k] != '%' then Closed(fmt, k + 1, args)
    else
      match Scan(fmt, k + 1, args, NO_FLAGS)
      case NoArg => true
      case Stop(ch, j, rest, f) =>
        && j <= |fmt|
        && match Convert(ch, f, rest)
           case Undefined => true
           case Text(t, left) => Closed(fmt, j, left)
           case Unknown => Closed(fmt, k + 1, rest)
  }

  lemma {:induction false} NumberConcat(a: seq<char>, b: seq<char>, k: nat, acc: int)
    requires k <= |a| && Number(a, k, acc).1 < |a|
    ensures Number(a + b, k, acc) == Number(a, k, acc)
    decreases |a| - k
  {
    if IsDigit(CharAt(a, k)) { NumberConcat(a, b, k + 1, acc * 10 + (a[k] - '0') as int); }
  }

  lemma ReswitchConcat(a: seq<char>, b: seq<char>, k: nat, args: seq<Arg>, f: Flags)
    requires k < |a| && '\0' !in a && '\0' !in a + b
    requires var r := Reswitch(a, k, args, f); r.Go? ==> r.k < |a|
    ensures Reswitch(a + b, k, args, f) == Reswitch(a, k, args, f)
  {
    assert (a + b)[k] == a[k];
    if '1' <= a[k] <= '9' { NumberConcat(a, b, k + 1, (a[k] - '0') as int); }
  }

  lemma {:induction false} ScanConcat(a: seq<char>, b: seq<char>, k: nat, args: seq<Arg>, f: Flags)
    requires k < |a| && '\0' !in a && '\0' !in a + b
    requires var e := Scan(a, k, args, f); e.Stop? ==> e.k <= |a|
    ensures Scan(a + b, k, args, f) == Scan(a, k, args, f)
    decreases |a| - k
  {
    var r := Reswitch(a, k, args, f);
    ReswitchConcat(a, b, k, args, f);
    if r.Go? { ScanConcat(a, b, r.k, r.args, r.flags); }
  }

  lemma PrependAssoc(s: seq<char>, t: seq<char>, r: Option<(seq<char>, seq<Arg>)>)
    ensures Prepend(s, Prepend(t, r)) == Prepend(s + t, r)
  {
    if r.Some? { assert s + (t + r.value.0) == s + t + r.value.0; }
  }

  lemma {:induction false} FormatShift(a: seq<char>, b: seq<char>, k: nat, args: seq<Arg>)
    requires k <= |b| && '\0' !in a && '\0' !in b && '\0' !in a + b
    ensures Format(a + b, |a| + k, args) == Format(b, k, args)
    decreases |b| - k
  {
    if k < |b| {
      assert (a + b)[|a| + k] == b[k];
      if b[k] != '%' {
        FormatShift(a, b, k + 1, args);
      } else {
        var e := Scan(b, k + 1, args, NO_FLAGS);
        if e.Stop? {
          var c := Convert(e.ch, e.flags, e.args);
          if c.Unknown? { FormatShift(a, b, k + 1, e.args); }
          if c.Text? && e.k <= |b| { FormatShift(a, b, e.k, c.args); }
        }
        EscapeShift(a, b, k, args);
      }
    }
  }

  lemma FormatEscape(fmt: seq<char>, k: nat, args: seq<Arg>)
    requires k < |fmt| && fmt[k] == '%' && '\0' !in fmt && Scan(fmt, k + 1, args, NO_FLAGS).Stop?
    ensures var e := Scan(fmt, k + 1, args, NO_FLAGS);
      var c := Convert(e.ch, e.flags, e.args);
      && (c.Undefined? || (c.Text? && e.k > |fmt|) ==> Format(fmt, k, args) == None)
      && (c.Text? && e.k <= |fmt| ==> Format(fmt, k, args) == Prepend(c.text, Format(fmt, e.k, c.args)))
      && (c.Unknown? ==> Format(fmt, k, args) == Prepend("%", Format(fmt, k + 1, e.args)))
  {}

  /** An escape of b, read in a + b, given that what follows it is read alike. */
  lemma EscapeShift(a: seq<char>, b: seq<char>, k: nat, args: seq<Arg>)
    requires k < |b| && b[k] == '%' && '\0' !in b && '\0' !in a + b
    requires var e := Scan(b, k + 1, args, NO_FLAGS);
      e.Stop? ==>
        var c := Convert(e.ch, e.flags, e.args);
        && (c.Unknown? ==> Format(a + b, |a| + (k + 1), e.args) == Format(b, k + 1, e.args))
        && (c.Text? && e.k <= |b| ==> Format(a + b, |a| + e.k, c.args) == Format(b, e.k, c.args))
    ensures Format(a + b, |a| + k, args) == Format(b, k, args)
  {
    assert (a + b)[|a| + k] == b[k];
    ScanShift(a, b, k + 1, args, NO_FLAGS);
    if Scan(b, k + 1, args, NO_FLAGS).Stop? {
      FormatEscape(b, k, args);
      FormatEscape(a + b, |a| + k, args);
    }
  }

  lemma {:induction false} NumberShift(a: seq<char>, b: seq<char>, k: nat, acc: int)
    requires k <= |b|
    ensures Number(a + b, |a| + k, acc) == (Number(b, k, acc).0, |a| + Number(b, k, acc).1)
    decreases |b| - k
  {
    if IsDigit(CharAt(b, k)) { NumberShift(a, b, k + 1, acc * 10 + (b[k] - '0') as int); }
  }

  ghost function Shifted(e: Escape, n: nat): Escape {
    if e.NoArg? then e else e.(k := n + e.k)
  }

  lemma ReswitchShift(a: seq<char>, b: seq<char>, k: nat, args: seq<Arg>, f: Flags)
    requires k <= |b| && '\0' !in b && '\0' !in a + b
    ensures var r, q := Reswitch(b, k, args, f), Reswitch(a + b, |a| + k, args, f);
      if r.Go? then q == r.(k := |a| + r.k) else q == Done(Shifted(r.e, |a|))
  {
    var c := CharAt(b, k);
    assert CharAt(a + b, |a| + k) == c;
    if '1' <= c <= '9' { NumberShift(a, b, k + 1, (c - '0') as int); }
  }

  lemma {:induction false} ScanShift(a: seq<char>, b: seq<char>, k: nat, args: seq<Arg>, f: Flags)
    requires k <= |b| && '\0' !in b && '\0' !in a + b
    ensures Scan(a + b, |a| + k, args, f) == Shifted(Scan(b, k, args, f), |a|)
    decreases |b| - k
  {
    var r := Reswitch(b, k, args, f);
    ReswitchShift(a, b, k, args, f);
    if r.Go? { ScanShift(a, b, r.k, r.args, r.flags); }
  }

  /** Formats compose: two formats written one after the other produce their texts one after
      the other, the second from the arguments the first has left, provided the first does
      not break off inside an escape. */
  lemma {:induction false} FormatConcat(a: seq<char>, b: seq<char>, k: nat, args: seq<Arg>)
    requires k <= |a| && '\0' !in a && '\0' !in b && '\0' !in a + b && Closed(a, k, args)
    ensures Format(a + b, k, args) ==
      if Format(a, k, args).None? then None
      else Prepend(Format(a, k, args).value.0, Format(b, 0, Format(a, k, args).value.1))
    decreases |a| - k
  {
    if k == |a| {
      FormatShift(a, b, 0, args);
      if Format(b, 0, args).Some? { assert [] + Format(b, 0, args).value.0 == Format(b, 0, args).value.0; }
    } else {
      assert (a + b)[k] == a[k];
      if a[k] != '%' {
        FormatConcat(a, b, k + 1, args);
        if Format(a, k + 1, args).Some? { ConcatStep([a[k]], Format(a, k + 1, args), b); }
      } else {
        ScanConcat(a, b, k + 1, args, NO_FLAGS);
        var e := Scan(a, k + 1, args, NO_FLAGS);
        if e.Stop? {
          match Convert(e.ch, e.flags, e.args)
          case Undefined =>
          case Text(t, left) =>
            FormatConcat(a, b, e.k, left);
            if Format(a, e.k, left).Some? { ConcatStep(t, Format(a, e.k, left), b); }
          case Unknown =>
            FormatConcat(a, b, k + 1, e.args);
            if Format(a, k + 1, e.args).Some? { ConcatStep("%", Format(a, k + 1, e.args), b); }
        }
      }
    }
  }

  lemma ConcatStep(t: seq<char>, r: Option<(seq<char>, seq<Arg>)>, b: seq<char>)
    requires r.Some? && '\0' !in b
    ensures Prepend(t, r).Some?
    ensures Prepend(t, Prepend(r.value.0, Format(b, 0, r.value.1))) ==
      Prepend(Prepend(t, r).value.0, Format(b, 0, Prepend(t, r).value.1))
  {
    PrependAssoc(t, r.value.0, Format(b, 0, r.value.1));
  }

  // ---------------------------------------------------------------- the output buffer

  lemma StringParts(o: seq<char>, s: seq<char>, f: Flags)
    ensures var shown := ShownAll(s[..ShownLen(s, f.precision)], f.alt);
      if f.width > 0 && f.padc != '-' then
        o + Repeat(f.padc, f.width - |shown|) + shown == o + StringText(s, f)
      else
        o + shown + Repeat(' ', f.width - |shown|) == o + StringText(s, f)
  {
    var shown := ShownAll(s[..ShownLen(s, f.precision)], f.alt);
    var n := f.width - |shown|;
    if f.padc == '-' {
      Assoc(o, shown, Repeat(' ', n));
    } else {
      Assoc(o, Repeat(f.padc, n), shown);
      if f.width <= 0 {
        assert Repeat(f.padc, n) == [] == Repeat(' ', n);
        assert [] + shown == shown;
        assert o + shown + [] == o + shown;
      }
    }
  }

  lemma Assoc(a: seq<char>, b: seq<char>, c: seq<char>)
    ensures a + b + c == a + (b + c)
  {}

  lemma Shorter(num: nat, base: nat)
    requires base >= 2 && num >= base
    ensures num / base < num && num % base < base
  {
    ShorterNumber(num, base);
  }

  /** struct sprintbuf. `out` is everything sent to putch; the buffer keeps the first `limit`
      characters of it and what lies behind them is untouched. */
  class SprintBuf {
    const buf: array<char>
    const limit: nat
    var pos: nat
    var cnt: nat
    ghost var out: seq<char>
    ghost const init: seq<char>

    ghost predicate Valid()
      reads this, buf
    {
      && limit < buf.Length == |init| && cnt == |out|
      && pos == (if |out| < limit then |out| else limit)
      && buf[..] == out[..pos] + init[pos..]
    }

    constructor (buf: array<char>, n: nat)
      requires 1 <= n <= buf.Length
      ensures Valid() && this.buf == buf && limit == n - 1 && out == [] && init == buf[..]
    {
      this.buf, limit, pos, cnt := buf, n - 1, 0, 0;
      out, init := [], buf[..];
    }

    /** sprintputch */
    method Putch(ch: char)
      requires Valid()
      modifies this, buf
      ensures Valid() && out == old(out) + [ch]
    {
      cnt := cnt + 1;
      out := out + [ch];
      if pos < limit {
        buf[pos] := ch;
        pos := pos + 1;
      }
    }

    /** A run of one character: while (width-- > 0) putch(c). */
    method Fill(c: char, n: int)
      requires Valid()
      modifies this, buf
      ensures Valid() && out == old(out) + Repeat(c, n)
    {
      var w := n;
      while w > 0
        invariant Valid() && out + Repeat(c, w) == old(out) + Repeat(c, n)
      {
        ghost var o := out;
        Putch(c);
        assert o + Repeat(c, w) == out + Repeat(c, w - 1);
        w := w - 1;
      }
    }

    method PrintNum(num: nat, base: nat, width: int, padc: char)
      requires Valid() && 2 <= base <= 16
      modifies this, buf
      ensures Valid() && out == old(out) + Padded(num, base, width, padc)
      decreases num
    {
      if num >= base {
        Shorter(num, base);
        PrintNum(num / base, base, width - 1, padc);
        PaddedStep(num, base, width, padc);
        Assoc(old(out), Padded(num / base, base, width - 1, padc), [DigitChar(num % base)]);
      } else {
        PaddedDigit(num, base, width, padc);
        Fill(padc, width - 1);
        Assoc(old(out), Repeat(padc, width - 1), [DigitChar(num % base)]);
      }
      Putch(DigitChar(num % base));
    }

    /** *b.buf = NUL */
    method Close()
      requires Valid()
      modifies buf
      ensures buf[..] == Bounded(out, limit + 1, init)
    {
      Terminated(out, init, pos);
      buf[pos] := '\0';
    }

    method PutAll(s: seq<char>)
      requires Valid()
      modifies this, buf
      ensures Valid() && out == old(out) + s
    {
      for k := 0 to |s|
        invariant Valid() && out == old(out) + s[..k]
      {
        Putch(s[k]);
      }
      assert s[..|s|] == s;
    }

    /** The middle loop of %s: the string ends at its NUL, which is read at |s| at the latest. */
    method PutShown(s: seq<char>, f: Flags, width: int) returns (left: int)
      requires Valid() && '\0' !in s
      modifies this, buf
      ensures Valid() && out == old(out) + ShownAll(s[..ShownLen(s, f.precision)], f.alt)
      ensures left == width - ShownLen(s, f.precision)
    {
      ghost var shown := ShownAll(s[..ShownLen(s, f.precision)], f.alt);
      var p, precision := 0, f.precision;
      left := width;
      while CharAt(s, p) != '\0' && (precision < 0 || precision - 1 >= 0)
        invariant p <= |shown| && left == width - p
        invariant precision == if f.precision < 0 then f.precision else f.precision - p
        invariant Valid() && out == old(out) + shown[..p]
        decreases |s| - p
      {
        Putch(Shown(s[p], f.alt));
        assert shown[..p + 1] == shown[..p] + [Shown(s[p], f.alt)];
        p, left := p + 1, left - 1;
        precision := if precision < 0 then precision else precision - 1;
      }
      assert shown[..p] == shown;
    }

    /** The loops of %s. */
    method PrintString(s: seq<char>, f: Flags)
      requires Valid() && '\0' !in s
      modifies this, buf
      ensures Valid() && out == old(out) + StringText(s, f)
    {
      StringParts(out, s, f);
      var width := f.width;
      if width > 0 && f.padc != '-' {
        width := width - ShownLen(s, f.precision);
        Fill(f.padc, width);
        width := if width > 0 then 0 else width;
      }
      width := PutShown(s, f, width);
      Fill(' ', width);
    }
  }

  // ---------------------------------------------------------------- vprintfmt

  method ReadNumber(fmt: seq<char>, k: nat, ch: char) returns (precision: int, j: nat)
    requires k <= |fmt| && '\0' !in fmt && IsDigit(ch)
    ensures (precision, j) == Number(fmt, k, (ch - '0') as int)
  {
    precision, j := (ch - '0') as int, k;
    while IsDigit(CharAt(fmt, j))
      invariant k <= j <= |fmt| && Number(fmt, k, (ch - '0') as int) == Number(fmt, j, precision)
      decreases |fmt| - j
    {
      precision := precision * 10 + (fmt[j] - '0') as int;
      j := j + 1;
    }
  }

  /** One pass from the label reswitch to the next, or to the end of the escape. */
  method ReswitchOnce(fmt: seq<char>, k: nat, args: seq<Arg>, f: Flags) returns (r: Turn)
    requires k <= |fmt| && '\0' !in fmt
    ensures r == Reswitch(fmt, k, args, f)
  {
    var ch := CharAt(fmt, k);
    var g, left, j := f, args, k + 1;
    if ch == '-' || ch == '0' {
      g := f.(padc := ch);
    } else if '1' <= ch <= '9' {
      var precision;
      precision, j := ReadNumber(fmt, j, ch);
      g := TakeNumber(f, precision);
    } else if ch == '*' {
      if args == [] || !args[0].Int? { return Done(NoArg); }
      g, left := TakeNumber(f, args[0].v), args[1..];
    } else if ch == '.' {
      if f.width < 0 { g := f.(width := 0); }
    } else if ch == '#' {
      g := f.(alt := true);
    } else if ch == 'l' {
      g := f.(lflag := f.lflag + 1);
    } else {
      return Done(Stop(ch, j, args, f));
    }
    return Go(j, left, g);
  }

  method ScanEscape(fmt: seq<char>, start: nat, ap: seq<Arg>) returns (e: Escape)
    requires start <= |fmt| && '\0' !in fmt
    ensures e == Scan(fmt, start, ap, NO_FLAGS)
  {
    var turn := Go(start, ap, NO_FLAGS);
    while turn.Go?
      invariant turn.Go? ==>
        turn.k <= |fmt| && Scan(fmt, start, ap, NO_FLAGS) == Scan(fmt, turn.k, turn.args, turn.flags)
      invariant turn.Done? ==> turn.e == Scan(fmt, start, ap, NO_FLAGS)
      decreases turn.Go?, if turn.Go? then |fmt| - turn.k else 0
    {
      turn := ReswitchOnce(fmt, turn.k, turn.args, turn.flags);
    }
    e := turn.e;
  }

  /** The default case's loop: back to just after the '%' of the escape. */
  method Rewind(fmt: seq<char>, percent: nat, after: nat) returns (k: nat)
    requires percent < after - 1 <= |fmt| && fmt[percent] == '%'
    requires forall x :: percent < x < after - 1 ==> fmt[x] != '%'
    ensures k == percent + 1
  {
    k := after - 1;
    while fmt[k - 1] != '%'
      invariant percent < k <= after - 1
      decreases k
    {
      k := k - 1;
    }
  }

  /** %e. The nested printfmt calls print what ErrorFormat says they do. */
  method PrintError(b: SprintBuf, v: Int32)
    requires b.Valid() && v != -0x8000_0000
    modifies b, b.buf
    ensures b.Valid() && b.out == old(b.out) + ErrorText(v).value
  {
    var err: nat := if v < 0 then -(v as int) else v;
    if err >= MAXERROR || ErrorString(err).None? {
      b.PutAll("error ");
      b.PrintNum(err, 10, -1, ' ');
    } else {
      b.PutAll(ErrorString(err).value);
    }
  }

  method PrintSigned(b: SprintBuf, v: int, f: Flags)
    requires b.Valid()
    modifies b, b.buf
    ensures b.Valid() && b.out == old(b.out) + Signed(v, f)
  {
    var num := v;
    if num < 0 {
      b.Putch('-');
      num := -num;
    }
    b.PrintNum(num, 10, f.width, f.padc);
  }

  method PrintPointer(b: SprintBuf, p: nat, f: Flags)
    requires b.Valid()
    modifies b, b.buf
    ensures b.Valid() && b.out == old(b.out) + ("0x" + Padded(p, 16, f.width, f.padc))
  {
    b.PutAll("0x");
    b.PrintNum(p, 16, f.width, f.padc);
  }

  /** The conversions; `done` is false where C leaves the result undefined. */
  method PrintConv(b: SprintBuf, ch: char, f: Flags, args: seq<Arg>) returns (done: bool, left: seq<Arg>)
    requires b.Valid() && !Convert(ch, f, args).Unknown?
    modifies b, b.buf
    ensures b.Valid() && done == Convert(ch, f, args).Text?
    ensures done ==> b.out == old(b.out) + Convert(ch, f, args).text && left == Convert(ch, f, args).args
  {
    done, left := Convert(ch, f, args).Text?, args;
    if !done {
      return;
    }
    if ch == '%' {
      b.Putch(ch);
      return;
    }
    left := args[1..];
    match ch {
      case 'c' => b.Putch((args[0].v % 256) as char);
      case 'e' => PrintError(b, args[0].v);
      case 's' => b.PrintString(if args[0].s.None? then "(null)" else args[0].s.value, f);
      case 'd' => PrintSigned(b, GetInt(args, f.lflag).value, f);
      case 'p' => PrintPointer(b, args[0].p, f);
      case _ =>
        var base := if ch == 'u' then 10 else if ch == 'o' then 8 else 16;
        b.PrintNum(GetUint(args, f.lflag).value, base, f.width, f.padc);
    }
  }

  /** One turn of the outer loop: a character copied, or an escape processed. */
  method Piece(b: SprintBuf, fmt: seq<char>, k: nat, args: seq<Arg>)
      returns (done: bool, k': nat, left: seq<Arg>, ghost t: seq<char>)
    requires b.Valid() && '\0' !in fmt && k < |fmt|
    modifies b, b.buf
    ensures b.Valid() && b.out == old(b.out) + (if done then t else [])
    ensures !done ==> Format(fmt, k, args).None?
    ensures done ==> k < k' <= |fmt| && Format(fmt, k, args) == Prepend(t, Format(fmt, k', left))
  {
    done, k', left, t := true, k + 1, args, [fmt[k]];
    if fmt[k] != '%' {
      b.Putch(fmt[k]);
      return;
    }
    var e := ScanEscape(fmt, k + 1, args);
    if e.NoArg? || Convert(e.ch, e.flags, e.args).Undefined? {
      return false, k, args, [];
    }
    if Convert(e.ch, e.flags, e.args).Unknown? {
      b.Putch('%');
      k' := Rewind(fmt, k, e.k);
      left := e.args;
    } else {
      t, k' := Convert(e.ch, e.flags, e.args).text, e.k;
      done, left := PrintConv(b, e.ch, e.flags, e.args);
    }
  }

  /** vprintfmt writes the text the format stands for, and never looks past the terminating
      NUL at |fmt|: it gives up exactly when the text is undefined. */
  method Vprintfmt(b: SprintBuf, fmt: seq<char>, ap: seq<Arg>) returns (done: bool)
    requires b.Valid() && '\0' !in fmt
    modifies b, b.buf
    ensures b.Valid() && done == Format(fmt, 0, ap).Some?
    ensures done ==> b.out == old(b.out) + Format(fmt, 0, ap).value.0
  {
    var k, args := 0, ap;
    ghost var t: seq<char> := [];
    PrependNothing(Format(fmt, 0, ap));
    done := true;
    while CharAt(fmt, k) != '\0'
      invariant k <= |fmt| && b.Valid() && done && b.out == old(b.out) + t
      invariant Format(fmt, 0, ap) == Prepend(t, Format(fmt, k, args))
      decreases |fmt| - k
    {
      ghost var u;
      ghost var k0 := k;
      done, k, args, u := Piece(b, fmt, k, args);
      if !done {
        return;
      }
      PrependAssoc(t, u, Format(fmt, k, args));
      t := t + u;
    }
  }

  lemma Terminated(out: seq<char>, init: seq<char>, pos: nat)
    requires pos <= |out| && pos < |init|
    ensures (out[..pos] + init[pos..])[pos := '\0'] == out[..pos] + ['\0'] + init[pos + 1..]
  {}

  /** The buffer vsnprintf leaves: as much of t as n - 1 characters hold, a NUL, and the rest
      as it was. */
  ghost function Bounded(t: seq<char>, n: nat, init: seq<char>): seq<char>
    requires 1 <= n <= |init|
  {
    var kept := if |t| < n then |t| else n - 1;
    t[..kept] + ['\0'] + init[kept + 1..]
  }

  method RunInto(b: SprintBuf, fmt: seq<char>, ap: seq<Arg>) returns (rc: nat, done: bool)
    requires b.Valid() && b.out == [] && '\0' !in fmt
    modifies b, b.buf
    ensures done == Format(fmt, 0, ap).Some?
    ensures done ==> rc == |Format(fmt, 0, ap).value.0|
    ensures done ==> b.buf[..] == Bounded(Format(fmt, 0, ap).value.0, b.limit + 1, b.init)
  {
    done := Vprintfmt(b, fmt, ap);
    b.Close();
    rc := b.cnt;
    if done {
      assert b.out == Format(fmt, 0, ap).value.0;
    }
  }

  /** vsnprintf keeps the first min(len, n - 1) characters and a NUL, leaves everything behind
      the NUL alone, and returns the full length. */
  method Vsnprintf(buf: array?<char>, n: int, fmt: seq<char>, ap: seq<Arg>) returns (rc: int, done: bool)
    requires '\0' !in fmt && (buf != null ==> n <= buf.Length)
    modifies buf
    ensures buf == null || n < 1 ==> rc == -E_INVAL && done && (buf != null ==> buf[..] == old(buf[..]))
    ensures buf != null && n >= 1 ==> done == Format(fmt, 0, ap).Some?
    ensures buf != null && n >= 1 && done ==>
      var t := Format(fmt, 0, ap).value.0;
      rc == |t| && buf[..] == Bounded(t, n, old(buf[..]))
  {
    if buf == null || n < 1 {
      return -E_INVAL, true;
    }
    var b := new SprintBuf(buf, n);
    rc, done := RunInto(b, fmt, ap);
  }

  // ---------------------------------------------------------------- printing and reading back

  lemma ScanPlain(fmt: seq<char>, k: nat, args: seq<Arg>)
    requires k <= |fmt| && '\0' !in fmt && CharAt(fmt, k) in "ceduopxns%"
    ensures Scan(fmt, k, args, NO_FLAGS) == Stop(CharAt(fmt, k), k + 1, args, NO_FLAGS)
  {}

  lemma {:induction false} PlainClosed(fmt: seq<char>, k: nat, args: seq<Arg>)
    requires k <= |fmt| && '\0' !in fmt && '%' !in fmt
    ensures Closed(fmt, k, args)
    decreases |fmt| - k
  {
    if k < |fmt| { PlainClosed(fmt, k + 1, args); }
  }

  /** A format that is one bare conversion. */
  lemma FormatOne(fmt: seq<char>, args: seq<Arg>)
    requires |fmt| == 2 && fmt[0] == '%' && fmt[1] in "ceduopxns%"
    ensures var c := Convert(fmt[1], NO_FLAGS, args);
      Format(fmt, 0, args) == if c.Text? then Some((c.text, c.args)) else None
  {
    ScanPlain(fmt, 1, args);
    var c := Convert(fmt[1], NO_FLAGS, args);
    if c.Text? {
      assert Format(fmt, 2, c.args) == Some(([], c.args));
      assert c.text + [] == c.text;
    }
  }

  lemma {:induction false} ShownPlain(p: seq<char>)
    ensures ShownAll(p, false) == p
  {
    if p != [] { ShownPlain(p[1..]); }
  }

  /** What the nested calls of %e print. */
  lemma ErrorFormat(fmt: seq<char>, e: Int32)
    requires fmt == "error " + "%d" && e >= 0
    ensures '\0' !in fmt && Format(fmt, 0, [Int(e)]) == Some(("error " + Padded(e, 10, -1, ' '), []))
  {
    var word := "error ";
    PlainClosed(word, 0, [Int(e)]);
    FormatPlain(word, 0, [Int(e)]);
    FormatOne("%d", [Int(e)]);
    FormatConcat(word, "%d", 0, [Int(e)]);
    assert word[0..] == word;
    assert "" + Padded(e, 10, -1, ' ') == Padded(e, 10, -1, ' ');
  }

  lemma StringFormat(p: seq<char>)
    requires '\0' !in p
    ensures Format("%s", 0, [Str(Some(p))]) == Some((p, []))
  {
    FormatOne("%s", [Str(Some(p))]);
    WholeString(p, NO_FLAGS);
  }

  lemma ErrorStringPlain(e: nat)
    ensures ErrorString(e).Some? ==> '\0' !in ErrorString(e).value
  {
    match e {
      case 1 | 2 | 3 | 4 =>
      case 5 | 6 | 7 | 8 =>
      case _ =>
    }
  }

  /** %e prints what its two nested calls print: the text of a known code, the number of any other,
      whatever the sign of the argument. */
  lemma ErrorNested(fmt: seq<char>, v: Int32)
    requires fmt == "error " + "%d" && v != -0x8000_0000
    ensures '\0' !in fmt
    ensures var e: Int32 := if v < 0 then -(v as int) else v;
      ErrorText(v) == (if e < MAXERROR && ErrorString(e).Some? then TextOf(Format("%s", 0, [Str(ErrorString(e))]))
                       else TextOf(Format(fmt, 0, [Int(e)])))
  {
    var e: Int32 := if v < 0 then -(v as int) else v;
    ErrorFormat(fmt, e);
    ErrorStringPlain(e);
    if e < MAXERROR && ErrorString(e).Some? { StringFormat(ErrorString(e).value); }
  }

  function TextOf(r: Option<(seq<char>, seq<Arg>)>): Option<seq<char>> { if r.None? then None else Some(r.value.0) }

  /** With a width and padding strtol reads a number back exactly if it is at least 0 and not
      padded with dashes (0 itself may be), or negative and padded with zeros, or fills the width:
      blanks and dashes come between the sign and the digits. */
  lemma SignedReadsBack(v: Int32, f: Flags)
    requires v > -0x8000_0000 && f.padc in {' ', '0', '-'}
    ensures Strtol(Signed(v, f), 10).0 == v <==>
      || f.width <= |Digits(if v < 0 then -(v as int) else v, 10)|
      || (v >= 0 && (f.padc != '-' || v == 0)) || (v < 0 && f.padc == '0')
  {
    if v >= 0 {
      RoundTripExact(v, 10, f.width, f.padc);
      assert Signed(v, f) == Padded(v, 10, f.width, f.padc);
    } else {
      assert Signed(v, f) == ['-'] + Padded(-(v as int), 10, f.width, f.padc);
      MinusReadsBack(-(v as int), f.width, f.padc);
    }
  }

  lemma NoPrefix(n: nat, width: int, padc: char)
    requires padc != 'x'
    ensures var u := Padded(n, 10, width, padc); |u| > 1 ==> u[1] != 'x'
  {
    DigitsAreDigits(n, 10);
  }

  lemma MinusText(u: seq<char>, n: nat)
    requires n < 0x8000_0000 && ReadDigits(u, 10, 0).0 == n && (|u| > 1 ==> u[1] != 'x')
    ensures Strtol(['-'] + u, 10).0 == -(n as int)
  {
    StrtolMinus(u, 10);
  }

  lemma MinusReadsBack(n: nat, width: int, padc: char)
    requires 0 < n < 0x8000_0000 && padc in {' ', '0', '-'}
    ensures Strtol(['-'] + Padded(n, 10, width, padc), 10).0 == -(n as int)
      <==> width <= |Digits(n, 10)| || padc == '0'
  {
    var read := if width <= |Digits(n, 10)| || padc == '0' then n else 0;
    NoPrefix(n, width, padc);
    MinusDigits(n, width, padc);
    MinusText(Padded(n, 10, width, padc), read);
  }

  /** What the digit loop makes of a padded number. */
  lemma MinusDigits(n: nat, width: int, padc: char)
    requires n < 0x8000_0000 && padc in {' ', '0', '-'}
    ensures ReadDigits(Padded(n, 10, width, padc), 10, 0).0
      == if width <= |Digits(n, 10)| || padc == '0' then n else 0
  {
    var m := width - |Digits(n, 10)|;
    ReadOwnDigits(n, 10);
    if m <= 0 {
      assert Repeat(padc, m) + Digits(n, 10) == Digits(n, 10);
    } else if padc == '0' {
      ReadZeros(m, Digits(n, 10), 10);
    }
  }

  /** "%d" writes a number that strtol reads back, sign included. */
  lemma DecimalReadsBack(v: Int32)
    requires v > -0x8000_0000
    ensures Format("%d", 0, [Int(v)]).Some?
    ensures Strtol(Format("%d", 0, [Int(v)]).value.0, 10).0 == v
  {
    FormatOne("%d", [Int(v)]);
    SignedReadsBack(v, NO_FLAGS);
  }

  // ---------------------------------------------------------------- the other conversions

  /** The number an argument carries, and whether it is of the size that the l's of the escape say. */
  function Carried(arg: Arg): int {
    match arg
    case Int(v) => v
    case Long(l) => l
    case LongLong(ll) => ll
    case _ => 0
  }

  predicate SizeFits(arg: Arg, lflag: nat) {
    if lflag == 0 then arg.Int? else if lflag == 1 then arg.Long? else arg.LongLong?
  }

  function Base(ch: char): (b: nat)
    ensures b in {8, 10, 16}
  {
    match ch
    case 'o' => 8
    case 'x' => 16
    case _ => 10
  }

  /** How many values the argument's unsigned type has. */
  function Modulus(lflag: nat): nat { if lflag >= 2 then 0x1_0000_0000_0000_0000 else 0x1_0000_0000 }

  predicate Radix(ch: char) { ch == 'u' || ch == 'o' || ch == 'x' }

  lemma ConvertRadix(ch: char, f: Flags, args: seq<Arg>)
    requires Radix(ch)
    ensures Convert(ch, f, args) == Unsigned(args, f, Base(ch))
  {}

  lemma ConvertSigned(f: Flags, args: seq<Arg>, v: int)
    requires GetInt(args, f.lflag) == Some(v) && args != []
    ensures Convert('d', f, args) == Text(Signed(v, f), args[1..])
  {}

  lemma ConvertPointer(f: Flags, args: seq<Arg>)
    requires args != [] && args[0].Pointer?
    ensures Convert('p', f, args) == Text("0x" + Padded(args[0].p, 16, f.width, f.padc), args[1..])
  {}

  lemma IntOf(args: seq<Arg>, lflag: nat)
    requires args != [] && SizeFits(args[0], lflag)
    ensures GetInt(args, lflag) == Some(Carried(args[0]))
  {}

  lemma UintOf(args: seq<Arg>, lflag: nat)
    requires args != [] && SizeFits(args[0], lflag)
    ensures GetUint(args, lflag) == Some(Carried(args[0]) % Modulus(lflag))
    ensures 0 <= Carried(args[0]) < 0x8000_0000 ==> Carried(args[0]) % Modulus(lflag) == Carried(args[0])
  {
    IntOf(args, lflag);
  }

  lemma UnsignedConvert(ch: char, f: Flags, args: seq<Arg>) returns (n: nat)
    requires Radix(ch) && args != [] && SizeFits(args[0], f.lflag)
    ensures n == Carried(args[0]) % Modulus(f.lflag)
    ensures Convert(ch, f, args) == Text(Padded(n, Base(ch), f.width, f.padc), args[1..])
  {
    ConvertRadix(ch, f, args);
    UintOf(args, f.lflag);
    n := Carried(args[0]) % Modulus(f.lflag);
  }

  /** %u, %o and %x write, after the padding, digits of base 10, 8 and 16 whose value is the argument's
      bits read without a sign. */
  lemma UnsignedText(ch: char, f: Flags, args: seq<Arg>) returns (digits: seq<char>)
    requires Radix(ch) && args != [] && SizeFits(args[0], f.lflag)
    ensures Convert(ch, f, args) == Text(Repeat(f.padc, f.width - |digits|) + digits, args[1..])
    ensures IsDigits(digits, Base(ch)) && digits != []
    ensures Value(digits, Base(ch)) == Carried(args[0]) % Modulus(f.lflag)
  {
    var n := UnsignedConvert(ch, f, args);
    digits := OwnDigits(n, Base(ch));
  }

  lemma OwnDigits(n: nat, base: nat) returns (digits: seq<char>)
    requires 2 <= base <= 16
    ensures digits == Digits(n, base) && digits != [] && IsDigits(digits, base) && Value(digits, base) == n
  {
    digits := Digits(n, base);
    DigitsAreDigits(n, base);
    DigitsValue(n, base);
  }

  /** strtol in base 10, 8 and 16 reads a number below 2^31 back from %u, %o and %x, with any width,
      exactly if it is not padded with dashes, or fills the width, or is 0. */
  lemma UnsignedReadsBack(ch: char, f: Flags, args: seq<Arg>)
    requires Radix(ch) && args != [] && SizeFits(args[0], f.lflag) && 0 <= Carried(args[0]) < 0x8000_0000
    requires f.padc in {' ', '0', '-'}
    ensures var c, n := Convert(ch, f, args), Carried(args[0]);
      && c.Text?
      && (Strtol(c.text, Base(ch)).0 == n <==> f.padc != '-' || f.width <= |Digits(n, Base(ch))| || n == 0)
  {
    var n := UnsignedConvert(ch, f, args);
    UintOf(args, f.lflag);
    RoundTripExact(Carried(args[0]), Base(ch), f.width, f.padc);
  }

  lemma ScanRadix(fmt: seq<char>, k: nat, args: seq<Arg>, f: Flags)
    requires k < |fmt| && '\0' !in fmt && Radix(fmt[k])
    ensures Scan(fmt, k, args, f) == Stop(fmt[k], k + 1, args, f)
  {}

  lemma RadixFormat(fmt: seq<char>, args: seq<Arg>)
    requires |fmt| == 2 && fmt[0] == '%' && Radix(fmt[1]) && Convert(fmt[1], NO_FLAGS, args).Text?
    ensures '\0' !in fmt
    ensures var c := Convert(fmt[1], NO_FLAGS, args); Format(fmt, 0, args) == Some((c.text, c.args))
  {
    ScanRadix(fmt, 1, args, NO_FLAGS);
    FormatLone(fmt, args, fmt[1], NO_FLAGS);
  }

  /** "%u", "%o" and "%x" as whole formats. */
  lemma UnsignedFormat(fmt: seq<char>, args: seq<Arg>)
    requires |fmt| == 2 && fmt[0] == '%' && Radix(fmt[1])
    requires args != [] && SizeFits(args[0], 0) && 0 <= Carried(args[0]) < 0x8000_0000
    ensures '\0' !in fmt && Format(fmt, 0, args).Some?
    ensures Strtol(Format(fmt, 0, args).value.0, Base(fmt[1])).0 == Carried(args[0])
  {
    UnsignedReadsBack(fmt[1], NO_FLAGS, args);
    RadixFormat(fmt, args);
  }

  /** %d writes a minus sign for a negative number, and after it padding and decimal digits whose value
      is the number's size, for all three sizes of argument. */
  lemma SignedText(f: Flags, args: seq<Arg>) returns (digits: seq<char>)
    requires args != [] && SizeFits(args[0], f.lflag)
    ensures Convert('d', f, args)
      == Text((if Carried(args[0]) < 0 then "-" else "") + (Repeat(f.padc, f.width - |digits|) + digits), args[1..])
    ensures IsDigits(digits, 10) && digits != []
    ensures Value(digits, 10) == if Carried(args[0]) < 0 then -Carried(args[0]) else Carried(args[0])
  {
    var v := Carried(args[0]);
    var n: nat := if v < 0 then -v else v;
    digits := OwnDigits(n, 10);
    IntOf(args, f.lflag);
    ConvertSigned(f, args, v);
  }

  /** %p writes 0x and then the address in base 16, padded; strtol reads an address below 2^31 back, and
      without padding the 0x may be left in front of it, in base 16 as well as with the base left open. */
  lemma PointerText(f: Flags, args: seq<Arg>) returns (digits: seq<char>)
    requires args != [] && args[0].Pointer?
    ensures Convert('p', f, args) == Text("0x" + (Repeat(f.padc, f.width - |digits|) + digits), args[1..])
    ensures IsDigits(digits, 16) && digits != [] && Value(digits, 16) == args[0].p
    ensures args[0].p < 0x8000_0000 ==>
      Strtol(digits, 16).0 == Strtol("0x" + digits, 16).0 == Strtol("0x" + digits, 0).0 == args[0].p
  {
    var p := args[0].p;
    digits := OwnDigits(p, 16);
    ConvertPointer(f, args);
    if p < 0x8000_0000 {
      UnpaddedReadsBack(p);
      PrefixedReadsBack("0x" + digits, digits, p, 16);
      PrefixedReadsBack("0x" + digits, digits, p, 0);
    }
  }

  lemma UnpaddedReadsBack(p: nat)
    requires p < 0x8000_0000
    ensures Strtol(Digits(p, 16), 16).0 == p
  {
    SpacePadding(p, 16, 0);
    assert [] + Digits(p, 16) == Digits(p, 16);
  }

  lemma PrefixedReadsBack(s: seq<char>, digits: seq<char>, p: nat, base: int)
    requires p < 0x8000_0000 && digits == Digits(p, 16) && s == "0x" + digits && base in {0, 16}
    ensures Strtol(s, base).0 == p
  {
    assert s[0..] == s && s[2..] == digits;
    StrtolParts(s, base, 0, 0, 2, 16);
    ReadOwnDigits(p, 16);
  }

  /** %c writes the character whose code is the argument's lowest byte, %% a percent sign. */
  lemma CharText(f: Flags, v: Int32, args: seq<Arg>)
    ensures Convert('c', f, [Int(v)] + args).Text? && Convert('c', f, [Int(v)] + args).args == args
    ensures var t := Convert('c', f, [Int(v)] + args).text; |t| == 1 && t[0] as int == v % 256
    ensures Convert('%', f, args) == Text("%", args)
  {
    assert ([Int(v)] + args)[1..] == args;
  }

  // ---------------------------------------------------------------- the shape of an escape

  predicate FlagChar(c: char) { c == '-' || c == '0' || c == '#' || c == 'l' }

  predicate PadFlag(c: char) { c == '-' || c == '0' }

  /** The last of the padding flags counts; '#' may stand anywhere; each l counts once. */
  ghost predicate Flagged(s: seq<char>, f: Flags, g: Flags) {
    && g.width == f.width && g.precision == f.precision
    && (g.alt <==> f.alt || '#' in s) && g.lflag == f.lflag + multiset(s)['l']
    && (forall k :: 0 <= k < |s| && PadFlag(s[k]) && (forall m :: k < m < |s| ==> !PadFlag(s[m])) ==> g.padc == s[k])
    && ((forall k :: 0 <= k < |s| ==> !PadFlag(s[k])) ==> g.padc == f.padc)
  }

  function TakeFlag(c: char, f: Flags): Flags {
    if PadFlag(c) then f.(padc := c) else if c == '#' then f.(alt := true) else f.(lflag := f.lflag + 1)
  }

  lemma ScanFlag(fmt: seq<char>, k: nat, args: seq<Arg>, f: Flags)
    requires k < |fmt| && '\0' !in fmt && FlagChar(fmt[k])
    ensures Scan(fmt, k, args, f) == Scan(fmt, k + 1, args, TakeFlag(fmt[k], f))
  {}

  lemma FlaggedStep(c: char, s: seq<char>, f: Flags, g: Flags)
    requires FlagChar(c) && Flagged(s, TakeFlag(c, f), g)
    ensures Flagged([c] + s, f, g)
  {
    var t := [c] + s;
    assert t[1..] == s && multiset(t) == multiset{c} + multiset(s);
    forall k | 0 <= k < |t| && PadFlag(t[k]) && (forall m :: k < m < |t| ==> !PadFlag(t[m])) ensures g.padc == t[k] {
      assert forall m :: 0 <= m < |s| ==> t[m + 1] == s[m];
      if k > 0 { assert t[k] == s[k - 1]; }
    }
    if forall k :: 0 <= k < |t| ==> !PadFlag(t[k]) {
      assert t[0] == c;
      forall k | 0 <= k < |s| ensures !PadFlag(s[k]) { assert t[k + 1] == s[k]; }
    }
  }

  lemma {:induction false} FlagRun(fmt: seq<char>, k: nat, j: nat, args: seq<Arg>, f: Flags) returns (g: Flags)
    requires k <= j <= |fmt| && '\0' !in fmt && forall x :: k <= x < j ==> FlagChar(fmt[x])
    ensures Scan(fmt, k, args, f) == Scan(fmt, j, args, g) && Flagged(fmt[k..j], f, g)
    decreases j - k
  {
    if k == j {
      g := f;
    } else {
      ScanFlag(fmt, k, args, f);
      g := FlagRun(fmt, k + 1, j, args, TakeFlag(fmt[k], f));
      FlaggedSlice(fmt, k, j, f, g);
    }
  }

  lemma FlaggedSlice(fmt: seq<char>, k: nat, j: nat, f: Flags, g: Flags)
    requires k < j <= |fmt| && FlagChar(fmt[k]) && Flagged(fmt[k + 1..j], TakeFlag(fmt[k], f), g)
    ensures Flagged(fmt[k..j], f, g)
  {
    FlaggedStep(fmt[k], fmt[k + 1..j], f, g);
    assert [fmt[k]] + fmt[k + 1..j] == fmt[k..j];
  }

  lemma NumberMore(fmt: seq<char>, k: nat, acc: int)
    requires k < |fmt| && IsDigit(fmt[k])
    ensures Number(fmt, k, acc) == Number(fmt, k + 1, acc * 10 + DigitOf(fmt[k]))
  {}

  lemma ValueMore(fmt: seq<char>, k: nat, j: nat)
    requires k < j <= |fmt|
    ensures Value(fmt[k..j], 10) == Value(fmt[k..j - 1], 10) * 10 + DigitOf(fmt[j - 1])
  {
    var t := fmt[k..j];
    assert t[..|t| - 1] == fmt[k..j - 1] && t[|t| - 1] == fmt[j - 1];
  }

  lemma {:induction false} NumberUpTo(fmt: seq<char>, k: nat, j: nat)
    requires k <= j <= |fmt| && forall x :: k <= x < j ==> IsDigit(fmt[x])
    ensures Number(fmt, k, 0) == Number(fmt, j, Value(fmt[k..j], 10))
    decreases j
  {
    if k < j {
      NumberUpTo(fmt, k, j - 1);
      ValueMore(fmt, k, j);
      NumberMore(fmt, j - 1, Value(fmt[k..j - 1], 10));
    } else {
      assert fmt[k..j] == [];
    }
  }

  /** A run of digits is read as its value. */
  lemma NumberValue(fmt: seq<char>, k: nat, j: nat)
    requires k <= j <= |fmt| && (forall x :: k <= x < j ==> IsDigit(fmt[x])) && !IsDigit(CharAt(fmt, j))
    ensures Number(fmt, k, 0) == (Value(fmt[k..j], 10), j)
  {
    NumberUpTo(fmt, k, j);
  }

  lemma ScanWidth(fmt: seq<char>, k: nat, j: nat, args: seq<Arg>, f: Flags)
    requires k < j <= |fmt| && '\0' !in fmt && fmt[k] != '0' && f.width < 0
    requires (forall x :: k <= x < j ==> IsDigit(fmt[x])) && !IsDigit(CharAt(fmt, j))
    ensures Scan(fmt, k, args, f) == Scan(fmt, j, args, f.(width := Value(fmt[k..j], 10), precision := -1))
  {
    NumberValue(fmt, k, j);
    NumberMore(fmt, k, 0);
  }

  lemma ScanPrecision(fmt: seq<char>, k: nat, j: nat, args: seq<Arg>, f: Flags)
    requires k + 1 < j <= |fmt| && '\0' !in fmt && fmt[k] == '.' && fmt[k + 1] != '0'
    requires (forall x :: k < x < j ==> IsDigit(fmt[x])) && !IsDigit(CharAt(fmt, j))
    ensures Scan(fmt, k, args, f) == Scan(fmt, j, args, Dotted(f).(precision := Value(fmt[k + 1..j], 10)))
  {
    PrecisionExact(fmt, k, args, f);
    NumberValue(fmt, k + 1, j);
  }

  predicate ConvChar(c: char) { !FlagChar(c) && !IsDigit(c) && c != '*' && c != '.' }

  lemma ScanEnd(fmt: seq<char>, k: nat, args: seq<Arg>, f: Flags)
    requires k < |fmt| && '\0' !in fmt && ConvChar(fmt[k])
    ensures Scan(fmt, k, args, f) == Stop(fmt[k], k + 1, args, f)
  {}

  /** How an escape is read: flags up to a, a width up to b, a '.' and a precision up to c, l's up to d,
      each of which may be missing, and the conversion at d. Padding, width, precision, the number of
      l's and '#' are what these parts say, and no argument is used up. */
  lemma EscapeForm(fmt: seq<char>, k: nat, a: nat, b: nat, c: nat, d: nat, args: seq<Arg>)
      returns (f: Flags, g: Flags)
    requires k <= a <= b <= c <= d < |fmt| && '\0' !in fmt && ConvChar(fmt[d])
    requires (forall x :: k <= x < a ==> FlagChar(fmt[x])) && (forall x :: c <= x < d ==> fmt[x] == 'l')
    requires (forall x :: a <= x < b ==> IsDigit(fmt[x])) && (a < b ==> fmt[a] != '0')
    requires b == c || (b + 1 < c && fmt[b] == '.' && fmt[b + 1] != '0' && forall x :: b < x < c ==> IsDigit(fmt[x]))
    ensures Scan(fmt, k, args, NO_FLAGS) == Stop(fmt[d], d + 1, args, g)
    ensures Flagged(fmt[k..a], NO_FLAGS, f) && g.padc == f.padc && g.alt == f.alt && g.lflag == f.lflag + (d - c)
    ensures g.width == if a < b then Value(fmt[a..b], 10) else if b < c then 0 else -1
    ensures g.precision == if b < c then Value(fmt[b + 1..c], 10) else -1
  {
    f := FlagRun(fmt, k, a, args, NO_FLAGS);
    g := NumbersRun(fmt, a, b, c, d, args, f);
  }

  lemma NumbersRun(fmt: seq<char>, a: nat, b: nat, c: nat, d: nat, args: seq<Arg>, f: Flags) returns (g: Flags)
    requires a <= b <= c <= d < |fmt| && '\0' !in fmt && ConvChar(fmt[d]) && f.width == f.precision == -1
    requires forall x :: c <= x < d ==> fmt[x] == 'l'
    requires (forall x :: a <= x < b ==> IsDigit(fmt[x])) && (a < b ==> fmt[a] != '0')
    requires b == c || (b + 1 < c && fmt[b] == '.' && fmt[b + 1] != '0' && forall x :: b < x < c ==> IsDigit(fmt[x]))
    ensures Scan(fmt, a, args, f) == Stop(fmt[d], d + 1, args, g)
    ensures g.padc == f.padc && g.alt == f.alt && g.lflag == f.lflag + (d - c)
    ensures g.width == if a < b then Value(fmt[a..b], 10) else if b < c then 0 else -1
    ensures g.precision == if b < c then Value(fmt[b + 1..c], 10) else -1
  {
    g := WidthRun(fmt, a, b, args, f);
    g := PrecisionRun(fmt, b, c, args, g);
    g := LongRun(fmt, c, d, args, g);
    ScanEnd(fmt, d, args, g);
  }

  lemma WidthRun(fmt: seq<char>, k: nat, j: nat, args: seq<Arg>, f: Flags) returns (g: Flags)
    requires k <= j <= |fmt| && '\0' !in fmt && (k < j ==> fmt[k] != '0') && f.width == f.precision == -1
    requires (forall x :: k <= x < j ==> IsDigit(fmt[x])) && !IsDigit(CharAt(fmt, j))
    ensures Scan(fmt, k, args, f) == Scan(fmt, j, args, g)
    ensures g == f.(width := if k < j then Value(fmt[k..j], 10) else -1)
  {
    if k < j { ScanWidth(fmt, k, j, args, f); }
    g := f.(width := if k < j then Value(fmt[k..j], 10) else -1);
  }

  lemma PrecisionRun(fmt: seq<char>, k: nat, j: nat, args: seq<Arg>, f: Flags) returns (g: Flags)
    requires k <= j <= |fmt| && '\0' !in fmt && !IsDigit(CharAt(fmt, j)) && f.width >= -1 && f.precision == -1
    requires k == j || (k + 1 < j && fmt[k] == '.' && fmt[k + 1] != '0' && forall x :: k < x < j ==> IsDigit(fmt[x]))
    ensures Scan(fmt, k, args, f) == Scan(fmt, j, args, g)
    ensures g == f.(width := if k < j && f.width == -1 then 0 else f.width,
                    precision := if k < j then Value(fmt[k + 1..j], 10) else -1)
  {
    g := f;
    if k < j {
      ScanPrecision(fmt, k, j, args, f);
      g := Dotted(f).(precision := Value(fmt[k + 1..j], 10));
    }
  }

  lemma LongRun(fmt: seq<char>, k: nat, j: nat, args: seq<Arg>, f: Flags) returns (g: Flags)
    requires k <= j <= |fmt| && '\0' !in fmt && forall x :: k <= x < j ==> fmt[x] == 'l'
    ensures Scan(fmt, k, args, f) == Scan(fmt, j, args, g) && g == f.(lflag := f.lflag + (j - k))
  {
    g := FlagRun(fmt, k, j, args, f);
    AllEls(fmt[k..j]);
  }

  lemma {:induction false} AllEls(s: seq<char>)
    requires forall k :: 0 <= k < |s| ==> s[k] == 'l'
    ensures multiset(s)['l'] == |s| && '#' !in s
  {
    if s != [] {
      AllEls(s[1..]);
      assert s == [s[0]] + s[1..];
    }
  }

  lemma ScanStar(fmt: seq<char>, k: nat, args: seq<Arg>, f: Flags)
    requires k < |fmt| && '\0' !in fmt && fmt[k] == '*' && args != [] && args[0].Int?
    ensures Scan(fmt, k, args, f) == Scan(fmt, k + 1, args[1..], TakeNumber(f, args[0].v))
  {}

  lemma ScanDigits(fmt: seq<char>, j: nat, args: seq<Arg>, f: Flags)
    requires 0 < j <= |fmt| && '\0' !in fmt && fmt[0] != '0' && !IsDigit(CharAt(fmt, j))
    requires forall x :: 0 <= x < j ==> IsDigit(fmt[x])
    ensures Scan(fmt, 0, args, f) == Scan(fmt, j, args, TakeNumber(f, Value(fmt[..j], 10)))
  {
    NumberValue(fmt, 0, j);
    NumberMore(fmt, 0, 0);
    assert fmt[0..j] == fmt[..j];
  }

  /** A '*' stands for the digits of its argument: the escape is read as if they had been written there,
      as a width or as a precision, and the argument is used up. */
  lemma StarAsDigits(star: seq<char>, digits: seq<char>, tail: seq<char>, n: Int32, args: seq<Arg>, f: Flags)
      returns (e: Escape)
    requires star == ['*'] && digits != [] && digits[0] != '0' && (forall x :: 0 <= x < |digits| ==> IsDigit(digits[x]))
    requires Value(digits, 10) == n && '\0' !in star + tail && '\0' !in digits + tail && '\0' !in tail
    requires args != [] && args[0] == Int(n) && !IsDigit(CharAt(tail, 0))
    ensures Scan(star + tail, 0, args, f) == Shifted(e, 1)
    ensures Scan(digits + tail, 0, args[1..], f) == Shifted(e, |digits|)
  {
    e := Scan(tail, 0, args[1..], TakeNumber(f, n));
    StarFirst(star, tail, args, f);
    DigitsFirst(digits, tail, args[1..], f);
  }

  lemma StarFirst(star: seq<char>, tail: seq<char>, args: seq<Arg>, f: Flags)
    requires star == ['*'] && '\0' !in star + tail && '\0' !in tail && args != [] && args[0].Int?
    ensures Scan(star + tail, 0, args, f) == Shifted(Scan(tail, 0, args[1..], TakeNumber(f, args[0].v)), 1)
  {
    ScanStar(star + tail, 0, args, f);
    ScanShift(star, tail, 0, args[1..], TakeNumber(f, args[0].v));
  }

  lemma DigitsFirst(digits: seq<char>, tail: seq<char>, args: seq<Arg>, f: Flags)
    requires digits != [] && digits[0] != '0' && (forall x :: 0 <= x < |digits| ==> IsDigit(digits[x]))
    requires '\0' !in digits + tail && '\0' !in tail && !IsDigit(CharAt(tail, 0))
    ensures Scan(digits + tail, 0, args, f)
      == Shifted(Scan(tail, 0, args, TakeNumber(f, Value(digits, 10))), |digits|)
  {
    assert (digits + tail)[..|digits|] == digits && CharAt(digits + tail, |digits|) == CharAt(tail, 0);
    ScanDigits(digits + tail, |digits|, args, f);
    ScanShift(digits, tail, 0, args, TakeNumber(f, Value(digits, 10)));
  }

  /** %s: the part of the string that the precision lets through, flush with one side of the field, the
      other side filled with the padding character, or with blanks on the right for '-'. With '#' the
      characters that do not print come out as '?'. */
  lemma StringLayout(s: seq<char>, f: Flags)
    ensures var t, n := StringText(s, f), ShownLen(s, f.precision);
      var start := if f.padc == '-' then 0 else |t| - n;
      && 0 <= start <= |t| - n
      && (forall k :: 0 <= k < n ==>
            t[start + k] == if f.alt && !(' ' <= s[k] <= '~') then '?' else s[k])
      && (forall k :: 0 <= k < |t| && !(start <= k < start + n) ==> t[k] == if f.padc == '-' then ' ' else f.padc)
  {
    var t, n := StringText(s, f), ShownLen(s, f.precision);
    var shown := ShownAll(s[..n], f.alt);
    var m := f.width - n;
    if f.padc == '-' {
      assert t == shown + Repeat(' ', m);
    } else {
      assert t == Repeat(f.padc, m) + shown;
    }
  }
}
