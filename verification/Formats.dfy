/** What formats mean (vprintfmt and atol in test/bare/syscalls.c): laws of the specification functions
    of Printf that do not refer to how they are defined. */
module Formats {
  import opened Common
  import opened Printf

  // ---------------------------------------------------------------- numerals

  predicate IsDigitOf(c: char, base: nat) {
    ('0' <= c <= '9' || 'a' <= c <= 'z') && 0 <= DigitValue(c) < base
  }

  /** The text is n written in a base: digits of the base, without leading zeros, with that value. */
  predicate IsNumeral(s: string, base: nat, n: int) {
    && s != "" && (forall i :: 0 <= i < |s| ==> IsDigitOf(s[i], base))
    && (|s| > 1 ==> s[0] != '0') && Value(s, base) == n
  }

  lemma {:induction false} DigitsShape(n: nat, base: nat)
    requires 2 <= base <= 36
    ensures forall i :: 0 <= i < |Digits(n, base)| ==> IsDigitOf(Digits(n, base)[i], base)
    ensures n > 0 ==> Digits(n, base)[0] != '0'
    ensures n < base ==> |Digits(n, base)| == 1
    decreases n
  {
    if n >= base {
      QuotientIsLess(n, base);
      QuotientPositive(n, base);
      DigitsShape(n / base, base);
    }
  }

  lemma QuotientPositive(n: nat, base: nat)
    requires 2 <= base <= n
    ensures n / base > 0
  {
    QuotientIsLess(n, base);
  }

  lemma DigitsNumeral(n: nat, base: nat)
    requires 2 <= base <= 36
    ensures IsNumeral(Digits(n, base), base, n)
  {
    DigitsShape(n, base);
    DigitsValue(n, base);
  }

  // ---------------------------------------------------------------- conversions

  // `pad` consists of as many characters c as a text of length len lacks to the width.
  predicate IsPadding(pad: string, c: char, width: int, len: nat) {
    && |pad| == (if width > len then width - len else 0)
    && forall i :: 0 <= i < |pad| ==> pad[i] == c
  }

  predicate HasRegister(d: Directive) { d.args != [] && d.args[0].Register? }

  /** %u, %o, %x and %p print the argument in base 10, 8, 16 and 16, the last after 0x, modulo 2^32, or
      2^64 for %p and with an l; padding comes before the numeral. */
  lemma UnsignedPrints(d: Directive) returns (pad: string, numeral: string)
    requires d.conv in ['u', 'o', 'x', 'p'] && HasRegister(d) && d.spec.width > -0x8000_0000
    ensures Convert(d).Printed? && Convert(d).args == d.args[1..]
    ensures Convert(d).out == (if d.conv == 'p' then ['0', 'x'] else []) + pad + numeral
    ensures IsPadding(pad, d.spec.padc, d.spec.width, |numeral|)
    ensures IsNumeral(numeral,
                      if d.conv == 'u' then 10 else if d.conv == 'o' then 8 else 16,
                      d.args[0].bits % (if d.conv == 'p' || d.spec.lflag > 0 then 0x1_0000_0000_0000_0000 else 0x1_0000_0000))
  {
    var base := if d.conv == 'u' then 10 else if d.conv == 'o' then 8 else 16;
    var lflag := if d.conv == 'p' then 1 else d.spec.lflag;
    numeral := Digits(UnsignedArg(d.args[0].bits, lflag), base);
    pad := Repeat(d.spec.padc, d.spec.width - |numeral|);
    DigitsNumeral(UnsignedArg(d.args[0].bits, lflag), base);
    RepeatIs(d.spec.padc, d.spec.width - |numeral|);
  }

  lemma SignedTextIs(n: int, width: int, padc: char) returns (pad: string, numeral: string)
    ensures DecimalText(n, width, padc) == (if n < 0 then ['-'] else []) + pad + numeral
    ensures IsPadding(pad, padc, width, |numeral|) && IsNumeral(numeral, 10, if n < 0 then -n else n)
  {
    var magnitude := if n < 0 then -n else n;
    numeral := Digits(magnitude, 10);
    pad := Repeat(padc, width - |numeral|);
    DigitsNumeral(magnitude, 10);
    RepeatIs(padc, width - |numeral|);
    assert "-" + (pad + numeral) == ['-'] + pad + numeral && [] + pad == pad;
  }

  // n is the signed number of m values that the register holds.
  predicate IsSigned(n: int, bits: nat, m: int)
    requires m > 0
  {
    -m <= 2 * n < m && (n - bits) % m == 0
  }

  lemma SignedIs(bits: nat, m: int)
    requires m > 0 && m % 2 == 0
    ensures IsSigned(Signed(bits, m), bits, m)
  {
    var q := bits / m;
    assert bits == m * q + bits % m;
    var n := Signed(bits, m);
    var k := if n >= 0 then q else q + 1;
    assert m * (q + 1) == m * q + m;
    assert n - bits == m * -k;
    MultipleMod(m, -k);
  }

  lemma MultipleMod(m: int, k: int)
    requires m > 0
    ensures (m * k) % m == 0
  {
    var a := m * k;
    assert a == m * (a / m) + a % m;
    assert m * (k - a / m) == m * k - m * (a / m);
    SmallMultiple(m, k - a / m);
  }

  /** %d prints the sign, the padding and the magnitude of the argument, taken as a signed number of 32
      bits, or of 64 with an l. */
  lemma DecimalPrints(d: Directive) returns (pad: string, numeral: string, n: int)
    requires d.conv == 'd' && HasRegister(d) && d.spec.width > -0x8000_0000
    ensures IsSigned(n, d.args[0].bits, if d.spec.lflag > 0 then 0x1_0000_0000_0000_0000 else 0x1_0000_0000)
    ensures if n == -0x8000_0000_0000_0000 then Convert(d).Undefined?
            else
              && Convert(d).Printed? && Convert(d).args == d.args[1..]
              && Convert(d).out == (if n < 0 then ['-'] else []) + pad + numeral
              && IsPadding(pad, d.spec.padc, d.spec.width, |numeral|)
              && IsNumeral(numeral, 10, if n < 0 then -n else n)
  {
    n := SignedArg(d.args[0].bits, d.spec.lflag);
    SignedIs(d.args[0].bits, if d.spec.lflag > 0 then TWO_64 else TWO_32);
    pad, numeral := SignedTextIs(n, d.spec.width, d.spec.padc);
  }

  /** %c prints the low eight bits of the argument as a character, and %% a percent sign. */
  lemma CharPrints(d: Directive)
    ensures d.conv == 'c' && HasRegister(d) ==> Convert(d) == Printed([(d.args[0].bits % 256) as char], d.args[1..])
    ensures d.conv == '%' ==> Convert(d) == Printed(['%'], d.args)
  {
  }

  // The text up to its NUL, and to the precision if that is not negative.
  predicate IsClipped(s: string, p: string, precision: int) {
    && s <= p && NUL !in s && (precision >= 0 ==> |s| <= precision)
    && (|s| < |p| ==> p[|s|] == NUL || |s| == precision)
  }

  lemma {:induction false} ClipIs(p: string, precision: int)
    ensures IsClipped(Clip(p, precision), p, precision)
    decreases |p|
  {
    if precision != 0 && p != "" && p[0] != NUL {
      ClipIs(p[1..], precision - 1);
      assert p == [p[0]] + p[1..];
    }
  }

  /** %s prints the clipped text, padded with spaces on the right if the flag says so and otherwise on
      the left; a null pointer prints as (null). */
  lemma StringPrints(d: Directive) returns (s: string, pad: string)
    requires d.conv == 's' && d.args != [] && d.args[0].Pointer? && Convert(d).Printed?
    ensures Convert(d).args == d.args[1..]
    ensures IsClipped(s, if d.args[0].str.None? then "(null)" else d.args[0].str.value, d.spec.precision)
    ensures if d.spec.padc == '-' then Convert(d).out == s + pad && IsPadding(pad, ' ', d.spec.width, |s|)
            else Convert(d).out == pad + s && IsPadding(pad, d.spec.padc, d.spec.width, |s|)
  {
    var p := if d.args[0].str.None? then "(null)" else d.args[0].str.value;
    s := Clip(p, d.spec.precision);
    ClipIs(p, d.spec.precision);
    var c := if d.spec.padc == '-' then ' ' else d.spec.padc;
    pad := Repeat(c, d.spec.width - |s|);
    RepeatIs(c, d.spec.width - |s|);
  }

  /** Whole formats: %u, %o and %x, with or without an l, print the numeral alone. */
  lemma PlainPrints(conv: char, long: bool, bits: nat) returns (numeral: string)
    requires conv in ['u', 'o', 'x']
    ensures Formatted(if long then ['%', 'l', conv] else ['%', conv], 0, [Register(bits)]) == Ok(numeral)
    ensures IsNumeral(numeral, if conv == 'u' then 10 else if conv == 'o' then 8 else 16,
                      bits % (if long then 0x1_0000_0000_0000_0000 else 0x1_0000_0000))
  {
    var fmt, args := if long then ['%', 'l', conv] else ['%', conv], [Register(bits)];
    var sp := if long then NO_SPEC.(lflag := 1) else NO_SPEC;
    var d := Directive(sp, conv, |fmt|, args);
    assert Parse(fmt, |fmt| - 1, sp, args) == Ok(d);
    assert Parse(fmt, 1, NO_SPEC, args) == Ok(d);
    var pad;
    pad, numeral := UnsignedPrints(d);
    assert [] + pad + numeral == numeral;
    PrependNothing(numeral, Formatted(fmt, |fmt|, []));
  }

  /** And %p prints the address after 0x. */
  lemma PointerPrints(bits: nat) returns (numeral: string)
    ensures Formatted(['%', 'p'], 0, [Register(bits)]) == Ok(['0', 'x'] + numeral)
    ensures IsNumeral(numeral, 16, bits % 0x1_0000_0000_0000_0000)
  {
    var fmt, args := ['%', 'p'], [Register(bits)];
    var d := Directive(NO_SPEC, 'p', 2, args);
    assert Parse(fmt, 1, NO_SPEC, args) == Ok(d);
    var pad;
    pad, numeral := UnsignedPrints(d);
    assert ['0', 'x'] + pad + numeral == ['0', 'x'] + numeral;
    PrependNothing(['0', 'x'] + numeral, Formatted(fmt, 2, []));
  }

  // ---------------------------------------------------------------- sequences

  // k conversions %x.
  function Hexes(k: nat): string { if k == 0 then [] else ['%', 'x'] + Hexes(k - 1) }

  // What they print: the arguments in hexadecimal, one after the other.
  function HexText(args: seq<Arg>): string
    requires forall i :: 0 <= i < |args| ==> args[i].Register?
  {
    if args == [] then [] else Digits(args[0].bits % 0x1_0000_0000, 16) + HexText(args[1..])
  }

  /** Conversions take the arguments one by one, in order, and print one after the other. */
  lemma {:induction false} HexesPrint(pre: string, args: seq<Arg>)
    requires forall i :: 0 <= i < |args| ==> args[i].Register?
    ensures Formatted(pre + Hexes(|args|), |pre|, args) == Ok(HexText(args))
    decreases |args|
  {
    var fmt := pre + Hexes(|args|);
    if args != [] {
      assert fmt == (pre + ['%', 'x']) + Hexes(|args| - 1);
      HexesPrint(pre + ['%', 'x'], args[1..]);
      HexStep(fmt, |pre|, args);
    }
  }

  lemma HexStep(fmt: string, i: nat, args: seq<Arg>)
    requires i + 1 < |fmt| && fmt[i] == '%' && fmt[i + 1] == 'x' && args != [] && args[0].Register?
    ensures Formatted(fmt, i, args) == Prepend(Digits(args[0].bits % 0x1_0000_0000, 16), Formatted(fmt, i + 2, args[1..]))
  {
    assert Parse(fmt, i + 1, NO_SPEC, args) == Ok(Directive(NO_SPEC, 'x', i + 2, args));
    var ds := Digits(args[0].bits % 0x1_0000_0000, 16);
    RepeatIs(' ', -1 - |ds|);
    assert Number(args[0].bits % 0x1_0000_0000, 16, -1, ' ') == ds;
  }

  /** An unknown conversion prints as it stands, and so does a percent sign at the end. */
  lemma UnknownPrints(c: char, args: seq<Arg>)
    requires c != NUL && c !in "-0123456789*.#l" && c !in "csduoxp%"
    ensures Formatted(['%', c], 0, args) == Ok(['%', c]) && Formatted(['%'], 0, args) == Ok(['%'])
  {
    var fmt := ['%', c];
    ParseLetter(fmt, 1, c, NO_SPEC, args);
    NoLetter(c);
    assert Formatted(fmt, 2, args) == Ok("");
    PrependNothing([c], Formatted(fmt, 2, args));
    assert Formatted(fmt, 1, args) == Ok([c]);
    assert "%" + [c] == fmt;
    assert Parse(['%'], 1, NO_SPEC, args) == Ok(Directive(NO_SPEC, NUL, 2, args));
    assert Formatted(['%'], 1, args) == Ok("");
    PrependNothing("%", Formatted(['%'], 1, args));
  }

  lemma NoLetter(c: char)
    requires c !in "csduoxp%"
    ensures c != '%' && Convert(Directive(NO_SPEC, c, 2, [])).Unknown?
    ensures forall d: Directive :: d.conv == c ==> Convert(d).Unknown?
  {
    var letters := "csduoxp%";
    assert forall i :: 0 <= i < |letters| ==> letters[i] != c;
    assert letters[0] == 'c' && letters[1] == 's' && letters[2] == 'd' && letters[3] == 'u';
    assert letters[4] == 'o' && letters[5] == 'x' && letters[6] == 'p' && letters[7] == '%';
  }

  // ---------------------------------------------------------------- reading specifications

  // Text `seg` stands at index i of s.
  predicate StandsAt(s: string, i: nat, seg: string) {
    i + |seg| <= |s| && s[i..i + |seg|] == seg
  }

  // Numbers that do not overflow an int while they are read.
  predicate Readable(w: nat) { w + '0' as nat < 0x8000_0000 }

  lemma {:induction false} NumberStep(pre: string, w: nat, suf: string)
    requires w > 0 && Readable(w)
    ensures IsDigit(Digits(w, 10)[0])
    ensures var s, k := pre + Digits(w, 10) + suf, |Digits(w, 10)|;
            ParseNumber(s, |pre| + 1, Digits(w, 10)[0] as int - '0' as int) == ParseNumber(s, |pre| + k, w)
    decreases w
  {
    FirstDigit(w);
    if w < 10 {
      assert Digits(w, 10)[0] as int - '0' as int == w;
    } else {
      NumberMore(pre, w, suf);
    }
  }

  lemma NumberOne(s: string, i: nat, n: nat, d: nat)
    requires i < |s| && d < 10 && s[i] == DigitChar(d) && Readable(10 * n + d)
    ensures ParseNumber(s, i, n) == ParseNumber(s, i + 1, 10 * n + d)
  {
  }

  lemma {:induction false} NumberMore(pre: string, w: nat, suf: string)
    requires w >= 10 && Readable(w) && IsDigit(Digits(w, 10)[0])
    ensures var s, k := pre + Digits(w, 10) + suf, |Digits(w, 10)|;
            ParseNumber(s, |pre| + 1, Digits(w, 10)[0] as int - '0' as int) == ParseNumber(s, |pre| + k, w)
    decreases w, 0
  {
    var s, d, k := pre + Digits(w, 10) + suf, [DigitChar(w % 10)], |Digits(w / 10, 10)|;
    assert pre + Digits(w / 10, 10) + (d + suf) == s;
    NumberStep(pre, w / 10, d + suf);
    assert Digits(w, 10)[0] == Digits(w / 10, 10)[0];
    assert s[|pre| + k] == d[0];
    NumberOne(s, |pre| + k, w / 10, w % 10);
  }

  lemma NextIs(s: string, i: nat, seg: string)
    requires StandsAt(s, i, seg) && seg != ""
    ensures i < |s| && s[i] == seg[0]
  {
    assert s[i] == s[i..i + |seg|][0];
  }

  lemma NumberAt(s: string, i: nat, w: nat)
    requires w > 0 && Readable(w) && StandsAt(s, i, Digits(w, 10))
    requires i + |Digits(w, 10)| < |s| && !IsDigit(s[i + |Digits(w, 10)|])
    ensures '1' <= s[i] <= '9'
    ensures ParseNumber(s, i + 1, s[i] as nat - '0' as nat) == Ok((w, i + |Digits(w, 10)|))
  {
    var ds := Digits(w, 10);
    DigitsShape(w, 10);
    FirstDigit(w);
    NextIs(s, i, ds);
    assert s == s[..i] + ds + s[i + |ds|..];
    NumberStep(s[..i], w, s[i + |ds|..]);
  }

  lemma ParseWhole(s: string, i: nat, w: nat, sp: Spec, args: seq<Arg>)
    requires w > 0 && Readable(w) && StandsAt(s, i, Digits(w, 10))
    requires i + |Digits(w, 10)| < |s| && !IsDigit(s[i + |Digits(w, 10)|])
    ensures Parse(s, i, sp, args) == Parse(s, i + |Digits(w, 10)|, SetNumber(sp, w), args)
  {
    NumberAt(s, i, w);
  }

  lemma ParseLong(s: string, i: nat, sp: Spec, args: seq<Arg>)
    requires i < |s| && s[i] == 'l'
    ensures Parse(s, i, sp, args) == Parse(s, i + 1, sp.(lflag := sp.lflag + 1), args)
  {
  }

  lemma {:induction false} ParseLongs(s: string, i: nat, l: nat, sp: Spec, args: seq<Arg>)
    requires PaddedAt(s, i, 'l', l)
    ensures Parse(s, i, sp, args) == Parse(s, i + l, sp.(lflag := sp.lflag + l), args)
    decreases l
  {
    if l > 0 {
      ParseLong(s, i, sp, args);
      ParseLongs(s, i + 1, l - 1, sp.(lflag := sp.lflag + 1), args);
    }
  }

  lemma LongsStand(s: string, i: nat, l: nat)
    requires StandsAt(s, i, Repeat('l', l))
    ensures |Repeat('l', l)| == l && PaddedAt(s, i, 'l', l)
  {
    RepeatIs('l', l);
    forall x | i <= x < i + l
      ensures s[x] == 'l'
    {
      assert s[x] == s[i..i + l][x - i];
    }
  }

  // How a specification is written: flag, width, precision, length; -1 stands for none.
  function FlagText(padc: char): string { if padc == ' ' then [] else [padc] }
  function WidthText(width: int): string { if width > 0 then Digits(width, 10) else [] }
  function PrecisionText(precision: int): string { if precision > 0 then ['.'] + Digits(precision, 10) else [] }

  predicate Writable(padc: char, width: int, precision: int, conv: char) {
    && (padc == ' ' || padc == '0' || padc == '-')
    && (width == -1 || (width > 0 && Readable(width))) && (precision == -1 || (precision > 0 && Readable(precision)))
    && conv != NUL && conv !in "-0123456789*.#l"
  }

  function Written(padc: char, width: int, precision: int, l: nat, conv: char): string {
    FlagText(padc) + (WidthText(width) + (PrecisionText(precision) + (Repeat('l', l) + [conv])))
  }

  lemma Splits(s: string, i: nat, a: string, b: string)
    requires StandsAt(s, i, a + b)
    ensures StandsAt(s, i, a) && StandsAt(s, i + |a|, b)
  {
    assert s[i..i + |a|] == s[i..i + |a + b|][..|a|] == a;
    assert s[i + |a|..i + |a| + |b|] == s[i..i + |a + b|][|a|..] == b;
  }

  lemma ParseFlag(s: string, i: nat, padc: char, sp: Spec, args: seq<Arg>)
    requires StandsAt(s, i, FlagText(padc)) && (padc == ' ' || padc == '0' || padc == '-') && sp.padc == ' '
    ensures Parse(s, i, sp, args) == Parse(s, i + |FlagText(padc)|, sp.(padc := padc), args)
  {
    if padc != ' ' {
      NextIs(s, i, FlagText(padc));
    }
  }

  lemma ParseLetter(s: string, i: nat, conv: char, sp: Spec, args: seq<Arg>)
    requires i < |s| && s[i] == conv && conv != NUL && conv !in "-0123456789*.#l"
    ensures Parse(s, i, sp, args) == Ok(Directive(sp, conv, i + 1, args))
  {
    NoFlag(conv);
  }

  lemma ParseEnd(s: string, i: nat, l: nat, conv: char, sp: Spec, args: seq<Arg>)
    requires StandsAt(s, i, Repeat('l', l) + [conv]) && conv != NUL && conv !in "-0123456789*.#l"
    ensures Parse(s, i, sp, args) == Ok(Directive(sp.(lflag := sp.lflag + l), conv, i + |Repeat('l', l) + [conv]|, args))
  {
    Splits(s, i, Repeat('l', l), [conv]);
    LongsStand(s, i, l);
    ParseLongs(s, i, l, sp, args);
    NextIs(s, i + l, [conv]);
    ParseLetter(s, i + l, conv, sp.(lflag := sp.lflag + l), args);
  }

  lemma NoFlag(c: char)
    requires c !in "-0123456789*.#l"
    ensures c != '-' && c != '0' && c != '*' && c != '.' && c != '#' && c != 'l' && !IsDigit(c)
  {
    var flags := "-0123456789*.#l";
    assert forall i :: 0 <= i < |flags| ==> flags[i] != c;
    assert flags[0] == '-' && flags[1] == '0' && flags[2] == '1' && flags[3] == '2' && flags[4] == '3' && flags[5] == '4';
    assert flags[6] == '5' && flags[7] == '6' && flags[8] == '7' && flags[9] == '8' && flags[10] == '9';
    assert flags[11] == '*' && flags[12] == '.' && flags[13] == '#' && flags[14] == 'l';
  }

  // What follows width and precision is no digit.
  lemma AfterNumbers(l: nat, conv: char)
    requires conv !in "-0123456789*.#l"
    ensures !IsDigit((Repeat('l', l) + [conv])[0])
  {
    RepeatIs('l', l);
    NoFlag(conv);
  }

  function Dotted(sp: Spec): Spec { if sp.width < 0 then sp.(width := 0) else sp }

  lemma ParseDot(s: string, i: nat, sp: Spec, args: seq<Arg>)
    requires i < |s| && s[i] == '.'
    ensures Parse(s, i, sp, args) == Parse(s, i + 1, Dotted(sp), args)
  {
  }

  lemma DotStands(s: string, i: nat, precision: int)
    requires precision > 0 && StandsAt(s, i, PrecisionText(precision))
    ensures i < |s| && s[i] == '.' && StandsAt(s, i + 1, Digits(precision, 10))
    ensures |PrecisionText(precision)| == 1 + |Digits(precision, 10)|
  {
    Splits(s, i, ['.'], Digits(precision, 10));
    NextIs(s, i, ['.']);
  }

  lemma ParsePrecision(s: string, i: nat, precision: int, sp: Spec, args: seq<Arg>)
    requires precision > 0 && Readable(precision) && StandsAt(s, i, PrecisionText(precision))
    requires i + |PrecisionText(precision)| < |s| && !IsDigit(s[i + |PrecisionText(precision)|])
    ensures Parse(s, i, sp, args) == Parse(s, i + |PrecisionText(precision)|, SetNumber(Dotted(sp), precision), args)
  {
    DotStands(s, i, precision);
    ParseDot(s, i, sp, args);
    ParseWhole(s, i + 1, precision, Dotted(sp), args);
  }

  // The specification after flag, width and precision.
  function SpecOf(padc: char, width: int, precision: int): Spec {
    Spec(padc, if width == -1 && precision > 0 then 0 else width, precision, 0)
  }

  // Where the four parts of a written specification stand.
  lemma PartsStand(s: string, i: nat, a: string, b: string, c: string, d: string)
    requires StandsAt(s, i, a + (b + (c + d)))
    ensures StandsAt(s, i, a) && StandsAt(s, i + |a|, b) && StandsAt(s, i + |a| + |b|, c) && StandsAt(s, i + |a| + |b| + |c|, d)
    ensures |a + (b + (c + d))| == |a| + |b| + |c| + |d|
  {
    Splits(s, i, a, b + (c + d));
    Splits(s, i + |a|, b, c + d);
    Splits(s, i + |a| + |b|, c, d);
  }

  lemma NoDigitAfterWidth(s: string, j: nat, precision: int)
    requires StandsAt(s, j, PrecisionText(precision)) && j + |PrecisionText(precision)| < |s|
    requires !IsDigit(s[j + |PrecisionText(precision)|])
    ensures j < |s| && !IsDigit(s[j])
  {
    if precision > 0 {
      DotStands(s, j, precision);
    }
  }

  lemma ParseNumbers(s: string, i: nat, padc: char, width: int, precision: int, args: seq<Arg>)
    requires (width > 0 && Readable(width)) || width == -1
    requires (precision > 0 && Readable(precision)) || precision == -1
    requires StandsAt(s, i, WidthText(width)) && StandsAt(s, i + |WidthText(width)|, PrecisionText(precision))
    requires var k := i + |WidthText(width)| + |PrecisionText(precision)|; k < |s| && !IsDigit(s[k])
    ensures Parse(s, i, NO_SPEC.(padc := padc), args) ==
            Parse(s, i + |WidthText(width)| + |PrecisionText(precision)|, SpecOf(padc, width, precision), args)
  {
    var sp, j := NO_SPEC.(padc := padc), i + |WidthText(width)|;
    NoDigitAfterWidth(s, j, precision);
    if width > 0 {
      ParseWhole(s, i, width, sp, args);
      sp := SetNumber(sp, width);
    }
    assert Parse(s, i, NO_SPEC.(padc := padc), args) == Parse(s, j, sp, args);
    if precision > 0 {
      ParsePrecision(s, j, precision, sp, args);
    }
  }

  /** A written specification reads as itself: a precision without a width comes with width 0. */
  lemma ReadsWritten(s: string, i: nat, padc: char, width: int, precision: int, l: nat, conv: char, args: seq<Arg>)
    requires Writable(padc, width, precision, conv) && StandsAt(s, i, Written(padc, width, precision, l, conv))
    ensures Parse(s, i, NO_SPEC, args) ==
            Ok(Directive(Spec(padc, if width == -1 && precision > 0 then 0 else width, precision, l), conv,
                         i + |Written(padc, width, precision, l, conv)|, args))
  {
    var end := Repeat('l', l) + [conv];
    PartsStand(s, i, FlagText(padc), WidthText(width), PrecisionText(precision), end);
    var j := i + |FlagText(padc)|;
    var k := j + |WidthText(width)| + |PrecisionText(precision)|;
    AfterNumbers(l, conv);
    NextIs(s, k, end);
    assert Parse(s, i, NO_SPEC, args) == Parse(s, k, SpecOf(padc, width, precision), args) by {
      ParseFlag(s, i, padc, NO_SPEC, args);
      ParseNumbers(s, j, padc, width, precision, args);
    }
    assert Parse(s, k, SpecOf(padc, width, precision), args) ==
           Ok(Directive(SpecOf(padc, width, precision).(lflag := l), conv, k + |end|, args)) by {
      ParseEnd(s, k, l, conv, SpecOf(padc, width, precision), args);
    }
  }

  // ---------------------------------------------------------------- reading numbers

  /** atol skips spaces, takes one sign, and reads a numeral that fits a long. */
  lemma AtolReads(k: nat, sign: string, n: int)
    requires (sign == [] || sign == ['+'] || sign == ['-']) && 0 <= n < TWO_63
    ensures Parsed(Repeat(' ', k) + sign + Digits(n, 10)) == Ok(if sign == ['-'] then -n else n)
  {
    var s, j := Repeat(' ', k) + sign + Digits(n, 10), k + |sign|;
    RepeatIs(' ', k);
    FirstDigit(n);
    assert s[j..] == Digits(n, 10) && s[j] == Digits(n, 10)[0];
    assert sign != [] ==> s[k] == sign[0];
    SpacesEnd(s, 0, k);
    ReadToEnd(s, j, n, 0);
  }
}
