/** The bare-metal formatter and parser of test/bare/syscalls.c (printnum, vprintfmt and atol).

    A C string is read through `At`, which yields the terminating NUL at the index just past its
    characters and nothing beyond.  Arguments are 64-bit registers or strings.  An operation whose
    result C leaves undefined (signed overflow, a missing argument) gives Err. */
module Printf {
  import opened Common

  const TWO_31: int := 0x8000_0000
  const TWO_32: int := 0x1_0000_0000
  const TWO_63: int := 0x8000_0000_0000_0000
  const TWO_64: int := 0x1_0000_0000_0000_0000

  const NUL := '\0'
  const DIGS: nat := 64   // entries of the digit buffer: sizeof(num) * CHAR_BIT

  function At(s: string, i: nat): char
    requires i <= |s|
  {
    if i < |s| then s[i] else NUL
  }

  // ---------------------------------------------------------------- numbers

  function DigitChar(d: nat): char
    requires d < 36
  {
    if d >= 10 then 'a' + (d - 10) as char else '0' + d as char
  }

  function DigitValue(c: char): int {
    if 'a' <= c <= 'z' then c as int - 'a' as int + 10 else c as int - '0' as int
  }

  lemma DigitCharValue(d: nat)
    requires d < 36
    ensures DigitValue(DigitChar(d)) == d
  {
  }

  lemma QuotientIsLess(n: nat, base: nat)
    requires 2 <= base <= n
    ensures n / base < n && 0 <= n % base < base && n == base * (n / base) + n % base
  {
    var q, r := n / base, n % base;
    assert n == base * q + r && 0 <= r < base;
    QuotientSign(n, base);
    TwiceAtMost(base, q);
  }

  lemma QuotientSign(n: nat, base: nat)
    requires base > 0
    ensures n / base >= 0
  {
  }

  lemma TwiceAtMost(base: nat, q: nat)
    requires base >= 2
    ensures 2 * q <= base * q
  {
  }

  function Digits(n: nat, base: nat): (s: string)
    requires 2 <= base <= 36
    ensures s != ""
  {
    if n < base then [DigitChar(n)]
    else
      QuotientIsLess(n, base);
      Digits(n / base, base) + [DigitChar(n % base)]
  }

  function Value(s: string, base: nat): int {
    if s == "" then 0 else base * Value(s[..|s| - 1], base) + DigitValue(s[|s| - 1])
  }

  lemma ValuePush(s: string, base: nat, d: nat)
    requires d < 36
    ensures Value(s + [DigitChar(d)], base) == base * Value(s, base) + d
  {
    assert (s + [DigitChar(d)])[..|s|] == s;
    DigitCharValue(d);
  }

  /** Printing in any base keeps the value. */
  lemma {:induction false} DigitsValue(n: nat, base: nat)
    requires 2 <= base <= 36
    ensures Value(Digits(n, base), base) == n
    decreases n
  {
    if n < base {
      ValuePush("", base, n);
      assert "" + [DigitChar(n)] == [DigitChar(n)];
    } else {
      QuotientIsLess(n, base);
      DigitsValue(n / base, base);
      ValuePush(Digits(n / base, base), base, n % base);
    }
  }

  lemma Pow2Of64()
    ensures Pow2(DIGS) == TWO_64
  {
    Pow2Of16();
    Pow2Plus(16, 16);
    Pow2Plus(32, 32);
  }

  lemma FitsDigs(n: nat)
    requires n < TWO_64
    ensures n < Pow2(DIGS)
  {
    Pow2Of64();
  }

  lemma Pow2Of16()
    ensures Pow2(16) == 0x10000
  {
    assert Pow2(8) == 256;
    Pow2Plus(8, 8);
  }

  function Repeat(c: char, n: int): string {
    if n <= 0 then "" else Repeat(c, n - 1) + [c]
  }

  /** The number, padded on the left to the given width. */
  function Number(n: nat, base: nat, width: int, padc: char): string
    requires 2 <= base <= 36
  {
    Repeat(padc, width - |Digits(n, base)|) + Digits(n, base)
  }

  // The digits in a buffer, most significant last, as text.
  ghost function Text(digs: seq<nat>): string
    requires forall k :: 0 <= k < |digs| ==> digs[k] < 36
  {
    if digs == [] then "" else Text(digs[1..]) + [DigitChar(digs[0])]
  }

  lemma {:induction false} TextPush(digs: seq<nat>, d: nat)
    requires d < 36 && forall k :: 0 <= k < |digs| ==> digs[k] < 36
    ensures Text(digs + [d]) == [DigitChar(d)] + Text(digs)
  {
    if digs == [] {
      assert digs + [d] == [d];
    } else {
      assert (digs + [d])[1..] == digs[1..] + [d];
      TextPush(digs[1..], d);
    }
  }

  lemma HalfIsLess(n: nat, base: nat, k: nat)
    requires 2 <= base && n < Pow2(k) && n >= base
    ensures k > 0 && n / base < Pow2(k - 1)
  {
    QuotientIsLess(n, base);
    TwiceAtMost(base, n / base);
  }

  lemma SplitDigit(n: nat, base: nat, k: nat, t: string)
    requires 2 <= base <= 36 && base <= n < Pow2(k)
    ensures 0 <= n / base < n && 0 <= n % base < base
    ensures k > 1 && n / base < Pow2(k - 1)
    ensures Digits(n, base) + t == Digits(n / base, base) + ([DigitChar(n % base)] + t)
  {
    QuotientIsLess(n, base);
    HalfIsLess(n, base, k);
    assert Pow2(1) == 2;
  }

  // The digits in the buffer digs[..pos], and those of n still to come, make up the number.
  ghost predicate Collected(digs: array<nat>, pos: nat, num: nat, n: nat, base: nat)
    requires 2 <= base <= 36
    reads digs
  {
    && pos <= digs.Length == DIGS
    && (forall k :: 0 <= k < pos ==> digs[k] < 36)
    && Digits(num, base) == Digits(n, base) + Text(digs[..pos])
  }

  method StoreDigit(digs: array<nat>, pos: nat, d: nat)
    requires pos < digs.Length && d < 36 && forall k :: 0 <= k < pos ==> digs[k] < 36
    modifies digs
    ensures forall k :: 0 <= k < pos + 1 ==> digs[k] < 36
    ensures Text(digs[..pos + 1]) == [DigitChar(d)] + old(Text(digs[..pos]))
  {
    digs[pos] := d;
    assert digs[..pos + 1] == old(digs[..pos]) + [d];
    TextPush(old(digs[..pos]), d);
  }

  // The first loop of printnum: the buffer has room for every 64-bit number in every base.
  method CollectDigits(digs: array<nat>, num: nat, base: nat) returns (pos: nat)
    requires num < TWO_64 && 2 <= base <= 36 && digs.Length == DIGS
    modifies digs
    ensures pos <= DIGS && forall k :: 0 <= k < pos ==> digs[k] < 36
    ensures Text(digs[..pos]) == Digits(num, base)
  {
    var n: nat := num;
    pos := 0;
    ghost var bits := DIGS;
    FitsDigs(num);
    while n >= base
      invariant pos + bits == DIGS && 0 < bits && n < Pow2(bits)
      invariant Collected(digs, pos, num, n, base)
      decreases n
    {
      SplitDigit(n, base, bits, Text(digs[..pos]));
      StoreDigit(digs, pos, n % base);
      pos := pos + 1;
      bits := bits - 1;
      n := n / base;
    }
    StoreDigit(digs, pos, n);
    pos := pos + 1;
  }

  method Pad(out: string, padc: char, n: int) returns (padded: string)
    ensures padded == out + Repeat(padc, n)
  {
    padded := out;
    var left := n;
    while left > 0
      invariant left <= n || n <= 0
      invariant padded == out + Repeat(padc, n - (if left > 0 then left else 0)) || n <= 0
      invariant n <= 0 ==> padded == out
      decreases left
    {
      padded := padded + [padc];
      left := left - 1;
    }
  }

  /** printnum */
  method PrintNum(num: nat, base: nat, width: int, padc: char) returns (out: string)
    requires num < TWO_64 && 2 <= base <= 36
    ensures out == Number(num, base, width, padc)
  {
    var digs := new nat[DIGS];
    var pos := CollectDigits(digs, num, base);
    TextLength(digs[..pos]);
    out := Pad("", padc, width - pos);
    out := EmitDigits(out, digs, pos);
  }

  // The last loop of printnum: the digits in the buffer, most significant first.
  method EmitDigits(out: string, digs: array<nat>, size: nat) returns (out': string)
    requires size <= digs.Length && forall k :: 0 <= k < size ==> digs[k] < 36
    ensures out' == out + Text(digs[..size])
  {
    out' := out;
    var pos: nat := size;
    while pos > 0
      invariant pos <= size
      invariant out + Text(digs[..size]) == out' + Text(digs[..pos])
    {
      pos := pos - 1;
      assert digs[..pos + 1][..pos] == digs[..pos];
      EmitOne(digs[..pos + 1]);
      out' := out' + [DigitChar(digs[pos])];
    }
  }

  lemma {:induction false} TextLength(digs: seq<nat>)
    requires forall k :: 0 <= k < |digs| ==> digs[k] < 36
    ensures |Text(digs)| == |digs|
  {
    if digs != [] {
      TextLength(digs[1..]);
    }
  }

  lemma EmitOne(digs: seq<nat>)
    requires digs != [] && forall k :: 0 <= k < |digs| ==> digs[k] < 36
    ensures Text(digs) == [DigitChar(digs[|digs| - 1])] + Text(digs[..|digs| - 1])
  {
    assert digs == digs[..|digs| - 1] + [digs[|digs| - 1]];
    TextPush(digs[..|digs| - 1], digs[|digs| - 1]);
  }

  // ---------------------------------------------------------------- conversion specifications

  // An argument: a register, or a string pointer, which may be null.
  datatype Arg = Register(bits: nat) | Pointer(str: Option<string>)

  datatype Spec = Spec(padc: char, width: int, precision: int, lflag: nat)

  const NO_SPEC := Spec(' ', -1, -1, 0)

  // A parsed conversion: its flags, its letter, the index after it, and the arguments left.
  datatype Directive = Directive(spec: Spec, conv: char, next: nat, args: seq<Arg>)

  function Signed(bits: nat, size: int): int
    requires size > 0
  {
    if bits % size < size / 2 then bits % size else bits % size - size
  }

  // va_arg(ap, int)
  function IntArg(a: Arg): Option<int> {
    if a.Register? then Some(Signed(a.bits, TWO_32)) else None
  }

  // Of the first two numbers in a specification one is the width, the other the precision.
  function SetNumber(sp: Spec, n: int): Spec {
    if sp.width < 0 then sp.(width := n, precision := -1) else sp.(precision := n)
  }

  predicate IsDigit(c: char) { '0' <= c <= '9' }

  // The number whose digits continue at j, and the index after it.  The digit is added before '0' is
  // subtracted; an int that overflows on the way is undefined.
  function ParseNumber(fmt: string, j: nat, n: nat): (r: Result<(nat, nat)>)
    requires j <= |fmt|
    ensures r.Ok? ==> j <= r.value.1 <= |fmt|
    decreases |fmt| - j
  {
    if j < |fmt| && IsDigit(fmt[j]) then
      if 10 * n + fmt[j] as nat >= TWO_31 then Err
      else ParseNumber(fmt, j + 1, 10 * n + (fmt[j] as nat - '0' as nat))
    else Ok((n, j))
  }

  /** The conversion whose flags continue at j. */
  function Parse(fmt: string, j: nat, sp: Spec, args: seq<Arg>): (r: Result<Directive>)
    requires j <= |fmt|
    ensures r.Ok? ==> r.value.next <= |fmt| + 1 && (r.value.conv != NUL ==> r.value.next <= |fmt|)
    ensures r.Ok? ==> j < r.value.next && r.value.spec.padc in [sp.padc, '-', '0']
    decreases |fmt| - j
  {
    var ch := At(fmt, j);
    if ch == NUL then Ok(Directive(sp, ch, j + 1, args))
    else if ch == '-' then Parse(fmt, j + 1, sp.(padc := '-'), args)
    else if ch == '0' then Parse(fmt, j + 1, sp.(padc := '0'), args)
    else if IsDigit(ch) then
      match ParseNumber(fmt, j + 1, ch as nat - '0' as nat)
      case Err => Err
      case Ok((n, k)) => Parse(fmt, k, SetNumber(sp, n), args)
    else if ch == '*' then
      if args == [] || IntArg(args[0]).None? then Err
      else Parse(fmt, j + 1, SetNumber(sp, IntArg(args[0]).value), args[1..])
    else if ch == '.' then Parse(fmt, j + 1, if sp.width < 0 then sp.(width := 0) else sp, args)
    else if ch == '#' then Parse(fmt, j + 1, sp, args)
    else if ch == 'l' then Parse(fmt, j + 1, sp.(lflag := sp.lflag + 1), args)
    else Ok(Directive(sp, ch, j + 1, args))
  }

  // ---------------------------------------------------------------- conversions

  datatype Converted = Printed(out: string, args: seq<Arg>) | Unknown | Undefined

  // getuint and getint
  function UnsignedArg(bits: nat, lflag: nat): nat {
    if lflag > 0 then bits % TWO_64 else bits % TWO_32
  }

  function SignedArg(bits: nat, lflag: nat): int {
    if lflag > 0 then Signed(bits, TWO_64) else Signed(bits, TWO_32)
  }

  // Printing a number decrements the width at least once, which the least int does not allow.
  predicate LeastWidth(sp: Spec) { sp.width <= -TWO_31 }

  function Unsigned(sp: Spec, base: nat, args: seq<Arg>): Converted
    requires 2 <= base <= 36
  {
    if args == [] || !args[0].Register? || LeastWidth(sp) then Undefined
    else Printed(Number(UnsignedArg(args[0].bits, sp.lflag), base, sp.width, sp.padc), args[1..])
  }

  // The sign comes before the padding.
  function DecimalText(n: int, width: int, padc: char): string {
    if n < 0 then "-" + Number(-n, 10, width, padc) else Number(n, 10, width, padc)
  }

  // Negating the least number is undefined.
  function Decimal(sp: Spec, args: seq<Arg>): Converted {
    if args == [] || !args[0].Register? || LeastWidth(sp) then Undefined
    else
      var n := SignedArg(args[0].bits, sp.lflag);
      if n == -TWO_63 then Undefined else Printed(DecimalText(n, sp.width, sp.padc), args[1..])
  }

  // Up to the NUL, and at most `precision` characters if that is not negative.
  function Clip(s: string, precision: int): string {
    if precision == 0 || s == "" || s[0] == NUL then "" else [s[0]] + Clip(s[1..], precision - 1)
  }

  function StrText(sp: Spec, p: string): string {
    var s := Clip(p, sp.precision);
    if sp.padc == '-' then s + Repeat(' ', sp.width - |s|)
    else (if sp.width > 0 then Repeat(sp.padc, sp.width - |s|) else "") + s
  }

  // What is left of the width after padding on the left.
  function WidthLeft(sp: Spec, len: nat): int {
    if sp.width <= 0 || sp.padc == '-' then sp.width else if sp.width < len then sp.width - len else 0
  }

  /** Each character decrements the width, which must stay an int. */
  function StrResult(sp: Spec, p: string): Result<string> {
    var len := |Clip(p, sp.precision)|;
    if len > 0 && WidthLeft(sp, len) - len < -TWO_31 then Err else Ok(StrText(sp, p))
  }

  function Str(sp: Spec, args: seq<Arg>): Converted {
    if args == [] || !args[0].Pointer? then Undefined
    else
      match StrResult(sp, if args[0].str.None? then "(null)" else args[0].str.value)
      case Err => Undefined
      case Ok(out) => Printed(out, args[1..])
  }

  function Convert(d: Directive): Converted {
    match d.conv
    case 'c' =>
      if d.args == [] || !d.args[0].Register? then Undefined
      else Printed([(d.args[0].bits % 256) as char], d.args[1..])
    case 's' => Str(d.spec, d.args)
    case 'd' => Decimal(d.spec, d.args)
    case 'u' => Unsigned(d.spec, 10, d.args)
    case 'o' => Unsigned(d.spec, 8, d.args)
    case 'x' => Unsigned(d.spec, 16, d.args)
    case 'p' =>
      (match Unsigned(d.spec.(lflag := 1), 16, d.args)
       case Printed(out, args) => Printed("0x" + out, args)
       case other => other)
    case '%' => Printed("%", d.args)
    case _ => Unknown
  }

  // ---------------------------------------------------------------- whole formats

  function Prepend(s: string, r: Result<string>): Result<string> {
    if r.Err? then Err else Ok(s + r.value)
  }

  /** What a format prints from index i on: text as it is, conversions converted, and the % of an
      unknown conversion as it is, with what follows read again as text. */
  function Formatted(fmt: string, i: nat, args: seq<Arg>): Result<string>
    requires i <= |fmt|
    decreases |fmt| - i
  {
    if At(fmt, i) == NUL then Ok("")
    else if fmt[i] != '%' then Prepend([fmt[i]], Formatted(fmt, i + 1, args))
    else match Parse(fmt, i + 1, NO_SPEC, args)
      case Err => Err
      case Ok(d) =>
        match Convert(d)
        case Undefined => Err
        case Unknown => Prepend("%", Formatted(fmt, i + 1, d.args))
        case Printed(out, rest) => Prepend(out, Formatted(fmt, d.next, rest))
  }

  // ---------------------------------------------------------------- the loops of vprintfmt

  // The width and precision loop.
  method ScanNumber(fmt: string, j: nat, n: nat) returns (r: Result<(nat, nat)>)
    requires j <= |fmt|
    ensures r == ParseNumber(fmt, j, n)
  {
    var value: nat, k: nat := n, j;
    while IsDigit(At(fmt, k))
      invariant j <= k <= |fmt|
      invariant ParseNumber(fmt, j, n) == ParseNumber(fmt, k, value)
      decreases |fmt| - k
    {
      if 10 * value + fmt[k] as nat >= TWO_31 {
        return Err;
      }
      value := 10 * value + (fmt[k] as nat - '0' as nat);
      k := k + 1;
    }
    return Ok((value, k));
  }

  /** The flag switch, run again after every flag.  It reads no character past the NUL. */
  method ScanDirective(fmt: string, start: nat, args: seq<Arg>) returns (r: Result<Directive>)
    requires start <= |fmt|
    ensures r == Parse(fmt, start, NO_SPEC, args)
  {
    var j, sp, ap := start, NO_SPEC, args;
    while true
      invariant j <= |fmt|
      invariant Parse(fmt, start, NO_SPEC, args) == Parse(fmt, j, sp, ap)
      decreases |fmt| - j
    {
      var ch := At(fmt, j);
      if ch == NUL {
        return Ok(Directive(sp, ch, j + 1, ap));
      }
      j := j + 1;
      if ch == '-' {
        sp := sp.(padc := '-');
      } else if ch == '0' {
        sp := sp.(padc := '0');
      } else if IsDigit(ch) {
        var number := ScanNumber(fmt, j, ch as nat - '0' as nat);
        if number.Err? {
          return Err;
        }
        sp, j := SetNumber(sp, number.value.0), number.value.1;
      } else if ch == '*' {
        if ap == [] || IntArg(ap[0]).None? {
          return Err;
        }
        sp, ap := SetNumber(sp, IntArg(ap[0]).value), ap[1..];
      } else if ch == '.' {
        sp := if sp.width < 0 then sp.(width := 0) else sp;
      } else if ch == 'l' {
        sp := sp.(lflag := sp.lflag + 1);
      } else if ch != '#' {
        return Ok(Directive(sp, ch, j, ap));
      }
    }
  }

  /** strnlen, where a negative bound is none. */
  method StrNLen(p: string, bound: int) returns (len: nat)
    ensures len == |Clip(p, bound)|
  {
    len := 0;
    var n := bound;
    while n != 0 && At(p, len) != NUL
      invariant len <= |p| && n == bound - len
      invariant |Clip(p, bound)| == len + |Clip(p[len..], n)|
      decreases |p| - len
    {
      assert p[len..][1..] == p[len + 1..];
      len := len + 1;
      n := n - 1;
    }
  }

  // The three loops of the string conversion.
  method PrintString(sp: Spec, p: string) returns (r: Result<string>)
    ensures r == StrResult(sp, p)
  {
    var out, width := "", sp.width;
    if width > 0 && sp.padc != '-' {
      var len := StrNLen(p, sp.precision);
      out := Pad(out, sp.padc, width - len);
      width := if width < len then width - len else 0;
    }
    assert width == WidthLeft(sp, |Clip(p, sp.precision)|);
    var ok, left;
    ok, out, left := PutClipped(out, p, sp.precision, width);
    if !ok {
      return Err;
    }
    out := Pad(out, ' ', left);
    PaddedText(sp, p, out);
    return Ok(out);
  }

  // The three parts in turn are the text, since one of the two paddings is empty.
  lemma PaddedText(sp: Spec, p: string, out: string)
    requires var len := |Clip(p, sp.precision)|;
             out == (if sp.width > 0 && sp.padc != '-' then Repeat(sp.padc, sp.width - len) else "")
                    + Clip(p, sp.precision) + Repeat(' ', WidthLeft(sp, len) - len)
    ensures out == StrText(sp, p)
  {
    var len := |Clip(p, sp.precision)|;
    if sp.padc == '-' {
      assert "" + Clip(p, sp.precision) == Clip(p, sp.precision);
    } else {
      assert Repeat(' ', WidthLeft(sp, len) - len) == "";
    }
  }

  // The middle loop, which decrements the width with every character.
  method PutClipped(out: string, p: string, bound: int, width: int) returns (ok: bool, out': string, left: int)
    ensures ok <==> !(|Clip(p, bound)| > 0 && width - |Clip(p, bound)| < -TWO_31)
    ensures ok ==> out' == out + Clip(p, bound) && left == width - |Clip(p, bound)|
  {
    out', left := out, width;
    var i, precision := 0, bound;
    while At(p, i) != NUL && precision != 0
      invariant i <= |p| && precision == bound - i && left == width - i
      invariant out + Clip(p, bound) == out' + Clip(p[i..], precision)
      invariant |Clip(p, bound)| == i + |Clip(p[i..], precision)|
      invariant i > 0 ==> left >= -TWO_31
      decreases |p| - i
    {
      if left <= -TWO_31 {
        return false, out', left;
      }
      assert p[i..][1..] == p[i + 1..];
      out' := out' + [p[i]];
      i := i + 1;
      precision := precision - 1;
      left := left - 1;
    }
    ok := true;
  }

  /** The conversion switch. */
  method ConvertOne(d: Directive) returns (c: Converted)
    ensures c == Convert(d)
  {
    var sp := d.spec;
    if d.conv == '%' {
      return Printed("%", d.args);
    }
    if d.conv !in "csduoxp" {
      return Unknown;
    }
    if d.args == [] || (d.conv == 's') != d.args[0].Pointer? {
      return Undefined;
    }
    var out;
    if d.conv == 'c' {
      out := [(d.args[0].bits % 256) as char];
    } else if d.conv == 's' {
      var r := PrintString(sp, if d.args[0].str.None? then "(null)" else d.args[0].str.value);
      if r.Err? {
        return Undefined;
      }
      out := r.value;
    } else if LeastWidth(sp) {
      return Undefined;
    } else if d.conv == 'd' {
      var n := SignedArg(d.args[0].bits, sp.lflag);
      if n == -TWO_63 {
        return Undefined;
      }
      var digits := PrintNum(if n < 0 then -n else n, 10, sp.width, sp.padc);
      out := (if n < 0 then "-" else "") + digits;
    } else {
      var lflag := if d.conv == 'p' then 1 else sp.lflag;
      var base := if d.conv == 'u' then 10 else if d.conv == 'o' then 8 else 16;
      var digits := PrintNum(UnsignedArg(d.args[0].bits, lflag), base, sp.width, sp.padc);
      out := (if d.conv == 'p' then "0x" else "") + digits;
    }
    return Printed(out, d.args[1..]);
  }

  /** vprintfmt */
  method VPrintFmt(fmt: string, args: seq<Arg>) returns (r: Result<string>)
    ensures r == Formatted(fmt, 0, args)
  {
    var out, i, ap := "", 0, args;
    PrependNothing("", Formatted(fmt, 0, args));
    while true
      invariant i <= |fmt|
      invariant Formatted(fmt, 0, args) == Prepend(out, Formatted(fmt, i, ap))
      decreases |fmt| - i
    {
      while At(fmt, i) != '%'
        invariant i <= |fmt|
        invariant Formatted(fmt, 0, args) == Prepend(out, Formatted(fmt, i, ap))
        decreases |fmt| - i
      {
        if At(fmt, i) == NUL {
          PrependNothing(out, Formatted(fmt, i, ap));
          return Ok(out);
        }
        PrependTwice(out, [fmt[i]], Formatted(fmt, i + 1, ap));
        out := out + [fmt[i]];
        i := i + 1;
      }
      var d := ScanDirective(fmt, i + 1, ap);
      if d.Err? {
        return Err;
      }
      var c := ConvertOne(d.value);
      match c
      case Undefined =>
        return Err;
      case Unknown =>
        PrependTwice(out, "%", Formatted(fmt, i + 1, d.value.args));
        out := out + "%";
        i, ap := i + 1, d.value.args;
      case Printed(text, rest) =>
        PrependTwice(out, text, Formatted(fmt, d.value.next, rest));
        out := out + text;
        i, ap := d.value.next, rest;
    }
  }

  lemma PrependNothing(s: string, r: Result<string>)
    ensures Prepend("", r) == r && Prepend(s, Ok("")) == Ok(s)
  {
    assert s + "" == s;
    if r.Ok? {
      assert "" + r.value == r.value;
    }
  }

  lemma PrependTwice(s: string, t: string, r: Result<string>)
    ensures Prepend(s, Prepend(t, r)) == Prepend(s + t, r)
  {
    if r.Ok? {
      assert s + (t + r.value) == (s + t) + r.value;
    }
  }

  // ---------------------------------------------------------------- escaping

  function Escape(s: string): string {
    if s == "" then "" else (if s[0] == '%' then "%%" else [s[0]]) + Escape(s[1..])
  }

  /** A text whose percent signs are doubled prints as itself, whatever the arguments. */
  lemma EscapedPrintsItself(s: string, args: seq<Arg>)
    requires NUL !in s
    ensures Formatted(Escape(s), 0, args) == Ok(s)
  {
    EscapedFrom("", s, args);
    assert "" + Escape(s) == Escape(s);
  }

  lemma {:induction false} EscapedFrom(pre: string, s: string, args: seq<Arg>)
    requires NUL !in s
    ensures Formatted(pre + Escape(s), |pre|, args) == Ok(s)
    decreases |s|
  {
    var fmt := pre + Escape(s);
    if s != "" {
      var head := if s[0] == '%' then "%%" else [s[0]];
      assert pre + Escape(s) == (pre + head) + Escape(s[1..]);
      EscapedFrom(pre + head, s[1..], args);
      assert s == [s[0]] + s[1..];
      if s[0] == '%' {
        assert fmt[|pre| + 1] == '%';
        assert Parse(fmt, |pre| + 1, NO_SPEC, args) == Ok(Directive(NO_SPEC, '%', |pre| + 2, args));
      }
    }
  }

  // ---------------------------------------------------------------- atol

  predicate IsLong(n: int) { -TWO_63 <= n < TWO_63 }

  function Checked(n: int): Result<int> {
    if IsLong(n) then Ok(n) else Err
  }

  // One round of the digit loop.
  function Accumulate(res: int, c: char): Result<int> {
    if !IsLong(10 * res) then Err else Checked(10 * res + (c as int - '0' as int))
  }

  function AtolFrom(s: string, i: nat, res: int): Result<int>
    requires i <= |s|
    decreases |s| - i
  {
    if At(s, i) == NUL then Ok(res)
    else
      var next := Accumulate(res, s[i]);
      if next.Err? then Err else AtolFrom(s, i + 1, next.value)
  }

  function SkipSpaces(s: string, i: nat): (j: nat)
    requires i <= |s|
    ensures i <= j <= |s| && At(s, j) != ' '
    ensures forall k :: i <= k < j ==> s[k] == ' '
    decreases |s| - i
  {
    if At(s, i) == ' ' then SkipSpaces(s, i + 1) else i
  }

  /** The number a text denotes to atol. */
  function Parsed(s: string): Result<int> {
    var i := SkipSpaces(s, 0);
    var ch := At(s, i);
    if ch == '-' then
      var r := AtolFrom(s, i + 1, 0);
      if r.Err? then Err else Checked(-r.value)
    else AtolFrom(s, if ch == '+' then i + 1 else i, 0)
  }

  /** atol */
  method Atol(s: string) returns (r: Result<int>)
    ensures r == Parsed(s)
  {
    var i := 0;
    while At(s, i) == ' '
      invariant i <= |s| && SkipSpaces(s, 0) == SkipSpaces(s, i)
      decreases |s| - i
    {
      i := i + 1;
    }
    var negative := false;
    if At(s, i) == '-' || At(s, i) == '+' {
      negative := s[i] == '-';
      i := i + 1;
    }
    ghost var start := i;
    var res := 0;
    while At(s, i) != NUL
      invariant start <= i <= |s|
      invariant AtolFrom(s, start, 0) == AtolFrom(s, i, res)
      decreases |s| - i
    {
      var next := Accumulate(res, s[i]);
      if next.Err? {
        return Err;
      }
      res := next.value;
      i := i + 1;
    }
    return if negative then Checked(-res) else Ok(res);
  }

  // ---------------------------------------------------------------- reading back what was printed

  // The digits of n written after those of v.
  function Append(v: int, n: nat): int {
    if n < 10 then 10 * v + n else 10 * Append(v, n / 10) + n % 10
  }

  // After no digits the number itself; after a blank read as a negative digit, too small.
  lemma {:induction false} AppendIs(v: int, n: nat)
    ensures v == 0 ==> Append(v, n) == n
    ensures v <= -3 ==> Append(v, n) <= -2 * n - 3
    decreases n
  {
    if n >= 10 {
      AppendIs(v, n / 10);
    }
  }

  // Reading the digits of n on top of v: the text read so far, or an overflow.
  predicate Reads(s: string, i: nat, v: int, j: nat, all: int, mustFit: bool)
    requires i <= |s| && j <= |s|
  {
    || AtolFrom(s, i, v) == AtolFrom(s, j, all)
    || (AtolFrom(s, i, v).Err? && !mustFit)
  }

  lemma ReadOne(s: string, i: nat, v: int, d: nat)
    requires i < |s| && d < 10 && s[i] == DigitChar(d)
    ensures Reads(s, i, v, i + 1, 10 * v + d, IsLong(10 * v) && IsLong(10 * v + d))
  {
  }

  lemma {:induction false} ReadDigits(pre: string, n: nat, suf: string, v: int)
    ensures var k := |Digits(n, 10)|;
            Reads(pre + Digits(n, 10) + suf, |pre|, v, |pre| + k, Append(v, n), v == 0 && IsLong(n))
    decreases n
  {
    if n < 10 {
      assert (pre + Digits(n, 10) + suf)[|pre|] == DigitChar(n);
      ReadOne(pre + Digits(n, 10) + suf, |pre|, v, n);
    } else {
      ReadDigits(pre, n / 10, [DigitChar(n % 10)] + suf, v);
      LastDigit(pre, n, suf);
      AppendIs(v, n / 10);
      ReadsThen(pre + Digits(n, 10) + suf, |pre|, v, |pre| + |Digits(n / 10, 10)|, Append(v, n / 10), n);
    }
  }

  lemma LastDigit(pre: string, n: nat, suf: string)
    requires n >= 10
    ensures var s, k := pre + Digits(n, 10) + suf, |Digits(n / 10, 10)|;
            && |Digits(n, 10)| == k + 1
            && s[|pre| + k] == DigitChar(n % 10)
            && pre + Digits(n / 10, 10) + ([DigitChar(n % 10)] + suf) == s
  {
  }

  // A first part read, then one more digit.
  lemma ReadsThen(s: string, i: nat, v: int, j: nat, all: int, n: nat)
    requires i <= j < |s| && s[j] == DigitChar(n % 10)
    requires Reads(s, i, v, j, all, v == 0 && IsLong(n / 10)) && (v == 0 ==> all == n / 10)
    ensures Reads(s, i, v, j + 1, 10 * all + n % 10, v == 0 && IsLong(n))
  {
    ReadOne(s, j, all, n % 10);
  }

  lemma {:induction false} RepeatIs(c: char, n: int)
    ensures |Repeat(c, n)| == (if n > 0 then n else 0) && forall i :: 0 <= i < |Repeat(c, n)| ==> Repeat(c, n)[i] == c
    decreases n
  {
    if n > 0 {
      RepeatIs(c, n - 1);
    }
  }

  // s has k characters c from index i on.
  predicate PaddedAt(s: string, i: nat, c: char, k: nat) {
    i + k <= |s| && forall x :: i <= x < i + k ==> s[x] == c
  }

  lemma {:induction false} ReadZeros(s: string, i: nat, k: nat)
    requires PaddedAt(s, i, '0', k)
    ensures AtolFrom(s, i, 0) == AtolFrom(s, i + k, 0)
    decreases k
  {
    if k > 0 {
      ReadZeros(s, i + 1, k - 1);
    }
  }

  // A character below '0' takes the number below -2, where further ones keep it.
  lemma {:induction false} ReadOthers(s: string, i: nat, c: char, k: nat) returns (v: int)
    requires PaddedAt(s, i, c, k) && (c == ' ' || c == '-') && k > 0
    ensures v <= -3 && Reads(s, i, 0, i + k, v, false)
    decreases k
  {
    var u := 0;
    if k > 1 {
      u := ReadOthers(s, i, c, k - 1);
    }
    v := 10 * u + (c as int - '0' as int);
    assert s[i + k - 1] == c;
  }

  predicate IsPad(c: char) { c == ' ' || c == '0' || c == '-' }

  predicate Small(r: Result<int>, n: nat) { r.Err? || r.value < -2 * n }

  // The digits of n at the end of a text.
  lemma ReadToEnd(s: string, i: nat, n: nat, v: int)
    requires i <= |s| && s[i..] == Digits(n, 10)
    ensures v == 0 && n < TWO_63 ==> AtolFrom(s, i, v) == Ok(n)
    ensures v <= -3 ==> Small(AtolFrom(s, i, v), n)
  {
    assert s == s[..i] + Digits(n, 10) + "";
    ReadDigits(s[..i], n, "", v);
    AppendIs(v, n);
  }

  // A padded number read after the sign: right without padding or with zeros, too small otherwise.
  lemma ReadPadded(s: string, i: nat, c: char, k: nat, n: nat)
    requires PaddedAt(s, i, c, k) && s[i + k..] == Digits(n, 10) && IsPad(c) && n < TWO_63
    ensures var r := AtolFrom(s, i, 0); if k == 0 || c == '0' then r == Ok(n) else Small(r, n)
  {
    if k == 0 {
      ReadToEnd(s, i, n, 0);
    } else if c == '0' {
      ReadZeros(s, i, k);
      ReadToEnd(s, i + k, n, 0);
    } else {
      var v := ReadOthers(s, i, c, k);
      ReadToEnd(s, i + k, n, v);
    }
  }

  // The paddings atol reads through: none, zeros, spaces before a number without sign, and the
  // one minus sign of a zero.
  predicate Readable(n: int, width: int, padc: char) {
    var missing := width - |Digits(if n < 0 then -n else n, 10)|;
    || missing <= 0
    || padc == '0'
    || (padc == ' ' && n >= 0)
    || (padc == '-' && n == 0 && missing == 1)
  }

  /** atol reads back a printed number if and only if it can read through its padding. */
  lemma PrintThenAtol(n: int, width: int, padc: char)
    requires -TWO_63 < n < TWO_63 && IsPad(padc)
    ensures Parsed(DecimalText(n, width, padc)) == Ok(n) <==> Readable(n, width, padc)
  {
    var ds := Digits(if n < 0 then -n else n, 10);
    var k := if width > |ds| then width - |ds| else 0;
    RepeatIs(padc, width - |ds|);
    assert Repeat(padc, width - |ds|) == Repeat(padc, k);
    if n < 0 {
      NegativeThenAtol(-n, k, padc);
    } else if padc == ' ' || k == 0 {
      SpacesThenAtol(n, k, padc);
    } else if padc == '0' {
      ZerosThenAtol(n, k);
    } else {
      MinusesThenAtol(n, k);
    }
  }

  lemma NegativeThenAtol(n: int, k: nat, padc: char)
    requires 0 < n < TWO_63 && IsPad(padc)
    ensures Parsed("-" + (Repeat(padc, k) + Digits(n, 10))) == Ok(-n) <==> k == 0 || padc == '0'
  {
    var s := "-" + (Repeat(padc, k) + Digits(n, 10));
    RepeatIs(padc, k);
    assert s[1 + k..] == Digits(n, 10);
    AfterMinus(s, padc, k, n);
  }

  // A text that starts with a minus sign.
  lemma AfterMinus(s: string, c: char, k: nat, n: int)
    requires IsPad(c) && 0 <= n < TWO_63
    requires s != "" && s[0] == '-' && PaddedAt(s, 1, c, k) && s[1 + k..] == Digits(n, 10)
    ensures var r := Parsed(s); if k == 0 || c == '0' then r == Ok(-n) else r.Err? || r.value > 2 * n
  {
    ReadPadded(s, 1, c, k, n);
    assert SkipSpaces(s, 0) == 0;
  }

  lemma MinusesThenAtol(n: int, k: nat)
    requires 0 <= n < TWO_63 && k > 0
    ensures Parsed(Repeat('-', k) + Digits(n, 10)) == Ok(n) <==> n == 0 && k == 1
  {
    var s := Repeat('-', k) + Digits(n, 10);
    RepeatIs('-', k);
    assert s[1 + (k - 1)..] == Digits(n, 10);
    AfterMinus(s, '-', k - 1, n);
  }

  lemma FirstDigit(n: nat)
    ensures IsDigit(Digits(n, 10)[0])
  {
    if n >= 10 {
      FirstDigit(n / 10);
    }
  }

  lemma ZerosThenAtol(n: nat, k: nat)
    requires n < TWO_63
    ensures Parsed(Repeat('0', k) + Digits(n, 10)) == Ok(n)
  {
    var s := Repeat('0', k) + Digits(n, 10);
    RepeatIs('0', k);
    FirstDigit(n);
    assert IsDigit(s[0]);
    assert s[k..] == Digits(n, 10);
    AfterZeros(s, k, n);
  }

  // A text of zeros and then digits.
  lemma AfterZeros(s: string, k: nat, n: nat)
    requires n < TWO_63 && PaddedAt(s, 0, '0', k) && s != "" && IsDigit(s[0]) && s[k..] == Digits(n, 10)
    ensures Parsed(s) == Ok(n)
  {
    SpacesEnd(s, 0, 0);
    ReadPadded(s, 0, '0', k, n);
  }

  lemma SpacesThenAtol(n: nat, k: nat, padc: char)
    requires n < TWO_63 && (k == 0 || padc == ' ')
    ensures Parsed(Repeat(padc, k) + Digits(n, 10)) == Ok(n)
  {
    var s := Repeat(padc, k) + Digits(n, 10);
    RepeatIs(padc, k);
    FirstDigit(n);
    assert s[k..] == Digits(n, 10);
    assert s[k] == Digits(n, 10)[0];
    AfterSpaces(s, k, n);
  }

  // A text of spaces and then digits.
  lemma AfterSpaces(s: string, k: nat, n: nat)
    requires n < TWO_63 && k < |s| && PaddedAt(s, 0, ' ', k) && IsDigit(s[k]) && s[k..] == Digits(n, 10)
    ensures Parsed(s) == Ok(n)
  {
    SpacesEnd(s, 0, k);
    ReadToEnd(s, k, n, 0);
  }

  lemma {:induction false} SpacesEnd(s: string, i: nat, k: nat)
    requires i <= k < |s| && PaddedAt(s, i, ' ', k - i) && s[k] != ' '
    ensures SkipSpaces(s, i) == k
    decreases k - i
  {
    if i < k {
      SpacesEnd(s, i + 1, k);
    }
  }

  /** The same for any format: a %d conversion, whatever its flags, with any width but the least int, prints a number other than the
      least one so that atol reads it back if and only if its padding is readable. */
  lemma ConversionRoundTrip(fmt: string, i: nat, args: seq<Arg>)
    requires i <= |fmt|
    requires var d := Parse(fmt, i, NO_SPEC, args);
      d.Ok? && d.value.conv == 'd' && d.value.args != [] && d.value.args[0].Register?
    ensures var d := Parse(fmt, i, NO_SPEC, args).value;
      var n := SignedArg(d.args[0].bits, d.spec.lflag);
      if n == -TWO_63 || LeastWidth(d.spec) then Convert(d).Undefined?
      else Convert(d).Printed? && Convert(d).args == d.args[1..]
           && (Parsed(Convert(d).out) == Ok(n) <==> Readable(n, d.spec.width, d.spec.padc))
  {
    var d := Parse(fmt, i, NO_SPEC, args).value;
    var n := SignedArg(d.args[0].bits, d.spec.lflag);
    if n != -TWO_63 && !LeastWidth(d.spec) {
      PrintThenAtol(n, d.spec.width, d.spec.padc);
    }
  }

  /** In particular atol reads back every long printed with %ld but the least one. */
  lemma LongRoundTrip(bits: nat)
    ensures var n, r := Signed(bits, TWO_64), Formatted("%ld", 0, [Register(bits)]);
      if n == -TWO_63 then r.Err? else r.Ok? && Parsed(r.value) == Ok(n)
  {
    var fmt, args := "%ld", [Register(bits)];
    var sp := NO_SPEC.(lflag := 1);
    assert Parse(fmt, 2, sp, args) == Ok(Directive(sp, 'd', 3, args));
    assert Parse(fmt, 1, NO_SPEC, args) == Parse(fmt, 2, sp, args);
    ConversionRoundTrip(fmt, 1, args);
    var c := Convert(Directive(sp, 'd', 3, args));
    if c.Printed? {
      PrependNothing(c.out, Formatted(fmt, 3, []));
    }
  }
}
