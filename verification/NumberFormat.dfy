/** Number formatting (`sprint_uint`, `sprint_int`; the console's `cprint_*` are the same code over another
    sink): the characters printed, their number, and the value they read back to. */
module NumberFormat {
  import opened Bits

  datatype Flags = Flags(alt: bool, left: bool, zero: bool, plus: bool, space: bool)

  const PLAIN := Flags(false, false, false, false, false)

  function DigitChar(d: nat, upper: bool): (c: char)
    requires d < 16
  {
    (if upper then "0123456789ABCDEF" else "0123456789abcdef")[d]
  }

  /** The value of a digit character in either case. */
  function DigitValue(c: char): (d: nat)
  {
    if '0' <= c <= '9' then (c - '0') as int
    else if 'a' <= c <= 'f' then (c - 'a') as int + 10
    else if 'A' <= c <= 'F' then (c - 'A') as int + 10
    else 0
  }

  lemma DigitRoundTrip(d: nat, upper: bool)
    requires d < 16
    ensures DigitValue(DigitChar(d, upper)) == d
  {
  }

  /** Digits of `v`, least significant first, as the conversion loop stores them. */
  function Digits(v: nat, base: nat, upper: bool): (s: string)
    requires 2 <= base <= 16
    decreases v
  {
    if v == 0 then ""
    else
      SmallerQuotient(v, base);
      [DigitChar(v % base, upper)] + Digits(v / base, base, upper)
  }

  lemma SmallerQuotient(v: nat, base: nat)
    requires v > 0 && base >= 2
    ensures 0 <= v / base < v && v == base * (v / base) + v % base && 0 <= v % base < base
  {
  }

  function Repeat(c: char, n: int): (s: string)
    ensures |s| == if n > 0 then n else 0
  {
    if n <= 0 then "" else seq(n, _ => c)
  }

  function Reversed(s: string): (r: string)
    ensures |r| == |s|
    ensures forall k :: 0 <= k < |s| ==> r[k] == s[|s| - 1 - k]
  {
    if s == "" then "" else Reversed(s[1..]) + [s[0]]
  }

  /** The digits collected for a value: none for zero with precision zero. */
  function Collected(v: nat, base: nat, precision: int, upper: bool): (s: string)
    requires 2 <= base <= 16
  {
    if v == 0 && precision != 0 then "0" else Digits(v, base, upper)
  }

  function Max(a: int, b: int): (m: int) { if a > b then a else b }

  function Prefix(base: nat, flags: Flags, upper: bool): (s: string)
  {
    if !flags.alt then ""
    else if base == 16 then (if upper then "0X" else "0x")
    else if base == 8 then "0"
    else ""
  }

  /** The printed digit run: precision zeros, then the digits, most significant first. */
  function Run(v: nat, base: nat, precision: int, upper: bool): (s: string)
    requires 2 <= base <= 16
  {
    var ds := Collected(v, base, precision, upper);
    Repeat('0', precision - |ds|) + Reversed(ds)
  }

  /** Padding when `on`, up to `width` characters in all. */
  function Fill(on: bool, c: char, n: int): (s: string)
    ensures |s| == if on && n > 0 then n else 0
  {
    if on then Repeat(c, n) else ""
  }

  /** Everything `sprint_uint` prints; zero padding goes before the prefix. */
  function UintText(v: nat, base: nat, width: int, precision: int, flags: Flags, upper: bool): (s: string)
    requires 2 <= base <= 16
  {
    var prefix, run := Prefix(base, flags, upper), Run(v, base, precision, upper);
    var n := width - |prefix| - |run|;
    Fill(!flags.left, if flags.zero then '0' else ' ', n) + prefix + run + Fill(flags.left, ' ', n)
  }

  // ----- reading back ------------------------------------------------------

  /** The number a most-significant-first digit string denotes. */
  function ValueOf(s: string, base: nat): (v: nat)
  {
    if s == "" then 0 else base * ValueOf(s[..|s| - 1], base) + DigitValue(s[|s| - 1])
  }

  lemma {:induction false} ReadDigits(v: nat, base: nat, upper: bool)
    requires 2 <= base <= 16
    ensures ValueOf(Reversed(Digits(v, base, upper)), base) == v
    decreases v
  {
    if v > 0 {
      SmallerQuotient(v, base);
      ReadDigits(v / base, base, upper);
      var ds := Digits(v, base, upper);
      var r := Reversed(ds);
      assert ds[1..] == Digits(v / base, base, upper);
      assert r[..|r| - 1] == Reversed(ds[1..]) && r[|r| - 1] == ds[0];
      DigitRoundTrip(v % base, upper);
    }
  }

  lemma {:induction false} LeadingZeros(n: int, s: string, base: nat)
    ensures ValueOf(Repeat('0', n) + s, base) == ValueOf(s, base)
    decreases |s|, n
  {
    var z := Repeat('0', n);
    if s == "" {
      assert z + s == z;
      if n > 0 {
        assert z[..n - 1] == Repeat('0', n - 1);
        LeadingZeros(n - 1, "", base);
        assert Repeat('0', n - 1) + "" == Repeat('0', n - 1);
      }
    } else {
      assert (z + s)[..|z + s| - 1] == z + s[..|s| - 1];
      LeadingZeros(n, s[..|s| - 1], base);
    }
  }

  /** The printed run reads back to the value, for every value, base and precision. */
  lemma RunReadsBack(v: nat, base: nat, precision: int, upper: bool)
    requires 2 <= base <= 16
    ensures ValueOf(Run(v, base, precision, upper), base) == v
    ensures |Run(v, base, precision, upper)| == Max(precision, |Collected(v, base, precision, upper)|)
  {
    hide Digits, Reversed, ValueOf;
    var ds := Collected(v, base, precision, upper);
    LeadingZeros(precision - |ds|, Reversed(ds), base);
    ReadZero(base);
    ReadDigits(v, base, upper);
  }

  lemma ReadZero(base: nat)
    ensures ValueOf(Reversed("0"), base) == 0
  {
    assert Reversed("0") == "0";
    assert ValueOf("0"[..0], base) == 0;
  }

  /** Exactly the requested width, unless the digits and prefix need more. */
  lemma UintLength(v: nat, base: nat, width: int, precision: int, flags: Flags, upper: bool)
    requires 2 <= base <= 16
    ensures |UintText(v, base, width, precision, flags, upper)|
            == Max(width, |Prefix(base, flags, upper)| + Max(precision, |Collected(v, base, precision, upper)|))
  {
    RunReadsBack(v, base, precision, upper);
  }

  function Power(base: nat, k: nat): (p: nat) { if k == 0 then 1 else base * Power(base, k - 1) }

  lemma {:induction false} DigitsBound(v: nat, base: nat, upper: bool, k: nat)
    requires 2 <= base <= 16 && v < Power(base, k)
    ensures |Digits(v, base, upper)| <= k
    decreases k
  {
    if v > 0 {
      SmallerQuotient(v, base);
      QuotientBound(v, base, Power(base, k - 1));
      DigitsBound(v / base, base, upper, k - 1);
    }
  }

  lemma QuotientBound(v: nat, base: nat, m: nat)
    requires base >= 2 && v < base * m
    ensures v / base < m
  {
    var q := v / base;
    assert v == base * q + v % base;
    if m <= q {
      MulMono(m, q, base);
    }
  }

  lemma {:induction false} PowerMonotone(a: nat, b: nat, k: nat)
    requires a <= b
    ensures Power(a, k) <= Power(b, k)
  {
    if k > 0 {
      PowerMonotone(a, b, k - 1);
      MulMono(Power(a, k - 1), Power(b, k - 1), a);
      MulMono(a, b, Power(b, k - 1));
    }
  }

  /** A 64-bit value in base 8 or more needs at most 22 of the 64 bytes of the digit buffer. */
  lemma BufferSuffices(v: nat, base: nat, precision: int, upper: bool)
    requires 8 <= base <= 16 && v < U64
    ensures |Collected(v, base, precision, upper)| <= 22
  {
    PowerMonotone(8, base, 22);
    assert Power(8, 22) >= U64 by { EightTo22(); }
    DigitsBound(v, base, upper, 22);
  }

  lemma EightTo22()
    ensures Power(8, 22) == 0x4_0000_0000_0000_0000
  {
    assert Power(8, 4) == 4096;
    assert Power(8, 8) == 4096 * Power(8, 4);
    assert Power(8, 12) == 4096 * Power(8, 8);
    assert Power(8, 16) == 4096 * Power(8, 12);
    assert Power(8, 20) == 4096 * Power(8, 16);
    assert Power(8, 22) == 64 * Power(8, 20);
  }

  // ----- which characters stand where --------------------------------------

  predicate AllIn(s: string, alphabet: string) { forall k :: 0 <= k < |s| ==> s[k] in alphabet }
  predicate AllAre(s: string, c: char) { forall k :: 0 <= k < |s| ==> s[k] == c }

  function Alphabet(base: nat, upper: bool): (s: string)
    requires base <= 16
  {
    (if upper then "0123456789ABCDEF" else "0123456789abcdef")[..base]
  }

  lemma {:induction false} DigitsIn(v: nat, base: nat, upper: bool)
    requires 2 <= base <= 16
    ensures AllIn(Digits(v, base, upper), Alphabet(base, upper))
    ensures v > 0 ==> Digits(v, base, upper) != "" && Digits(v, base, upper)[|Digits(v, base, upper)| - 1] != '0'
    decreases v
  {
    hide Alphabet;
    if v > 0 {
      SmallerQuotient(v, base);
      DigitsIn(v / base, base, upper);
      DigitInAlphabet(v % base, base, upper);
    }
  }

  lemma DigitInAlphabet(d: nat, base: nat, upper: bool)
    requires d < base <= 16
    ensures DigitChar(d, upper) in Alphabet(base, upper)
    ensures d > 0 ==> DigitChar(d, upper) != '0'
    ensures base >= 2 ==> '0' in Alphabet(base, upper)
  {
    assert Alphabet(base, upper)[d] == DigitChar(d, upper);
    assert Alphabet(base, upper)[0] == '0';
  }

  /** No more digits than needed: zero has one, or as many as a precision asks for, even none; any other value
      has leading zeros only as far as the precision asks for them. */
  predicate Shortest(digits: string, v: nat, precision: int) {
    if v == 0 then |digits| == (if precision < 0 then 1 else precision)
    else digits != "" && |digits| >= precision && (|digits| > precision ==> digits[0] != '0')
  }

  /** The digits collected, least significant first. */
  lemma CollectedFacts(v: nat, base: nat, precision: int, upper: bool)
    requires 2 <= base <= 16
    ensures var ds := Collected(v, base, precision, upper);
            && AllIn(ds, Alphabet(base, upper)) && '0' in Alphabet(base, upper)
            && (v > 0 ==> ds != "" && ds[|ds| - 1] != '0')
            && (v == 0 ==> ds == if precision == 0 then "" else "0")
  {
    hide Alphabet;
    DigitsIn(v, base, upper);
    DigitInAlphabet(0, base, upper);
  }

  /** Zeros in front of reversed digits, seen from the left. */
  lemma Laid(ds: string, n: int, alphabet: string)
    requires AllIn(ds, alphabet) && '0' in alphabet
    ensures var run := Repeat('0', n) + Reversed(ds);
            && AllIn(run, alphabet) && |run| == Max(n, 0) + |ds|
            && (n <= 0 && ds != "" ==> run[0] == ds[|ds| - 1])
            && (n <= 0 && ds == "0" ==> run == "0")
  {
    hide Reversed, Repeat;
    var z, r := Repeat('0', n), Reversed(ds);
    forall k | 0 <= k < |r|
      ensures r[k] in alphabet
    {
      assert r[k] == ds[|ds| - 1 - k];
    }
    RepeatIs('0', n);
  }

  lemma RepeatIs(c: char, n: int)
    ensures AllAre(Repeat(c, n), c)
  {
  }

  /** The printed run has digits of its base only, as many as needed and no more. */
  lemma RunIn(v: nat, base: nat, precision: int, upper: bool)
    requires 2 <= base <= 16
    ensures var run := Run(v, base, precision, upper);
            && AllIn(run, Alphabet(base, upper)) && Shortest(run, v, precision)
            && (precision < 0 && v == 0 ==> run == "0")
  {
    hide Alphabet, Collected, Reversed, Repeat, AllIn;
    var ds := Collected(v, base, precision, upper);
    CollectedFacts(v, base, precision, upper);
    Laid(ds, precision - |ds|, Alphabet(base, upper));
  }

  lemma FillAre(on: bool, c: char, n: int)
    ensures AllAre(Fill(on, c, n), c)
    ensures !on ==> Fill(on, c, n) == ""
    ensures on ==> |Fill(on, c, n)| == Max(0, n)
  {
  }

  /** Everything `sprint_uint` prints: the prefix and the digits stay together; zeros or spaces stand before
      them, or spaces after them with the `-` flag. */
  lemma UintLayout(v: nat, base: nat, width: int, precision: int, flags: Flags, upper: bool) returns (pad: string, digits: string)
    requires 2 <= base <= 16
    ensures AllIn(digits, Alphabet(base, upper)) && ValueOf(digits, base) == v && Shortest(digits, v, precision)
    ensures var prefix := if flags.alt && base == 16 then (if upper then "0X" else "0x") else if flags.alt && base == 8 then "0" else "";
            var text := UintText(v, base, width, precision, flags, upper);
            && |pad| == Max(0, width - |prefix| - |digits|)
            && AllAre(pad, if flags.zero && !flags.left then '0' else ' ')
            && text == if flags.left then prefix + digits + pad else pad + prefix + digits
  {
    hide Run, Fill, ValueOf, Alphabet, Shortest, AllIn, AllAre;
    RunReadsBack(v, base, precision, upper);
    RunIn(v, base, precision, upper);
    digits := Run(v, base, precision, upper);
    var prefix := Prefix(base, flags, upper);
    var n := width - |prefix| - |digits|;
    var before, after := Fill(!flags.left, if flags.zero then '0' else ' ', n), Fill(flags.left, ' ', n);
    FillAre(!flags.left, if flags.zero then '0' else ' ', n);
    FillAre(flags.left, ' ', n);
    pad := if flags.left then after else before;
    assert "" + prefix == prefix && prefix + digits + "" == prefix + digits;
    assert before + prefix + digits + "" == before + prefix + digits;
  }

  // ----- the conversion and printing loops ---------------------------------

  lemma RepeatStep(c: char, n: int)
    requires n > 0
    ensures Repeat(c, n) == [c] + Repeat(c, n - 1)
  {
  }

  /** `while (width > count) { putchar(pad); width--; }`, when `on`. */
  method Pad(on: bool, pad: char, width: int, count: int) returns (out: string)
    ensures out == Fill(on, pad, width - count)
  {
    out := "";
    if on {
      var w := width;
      while w > count
        invariant out + Repeat(pad, w - count) == Repeat(pad, width - count)
        decreases w - count
      {
        RepeatStep(pad, w - count);
        assert out + Repeat(pad, w - count) == (out + [pad]) + Repeat(pad, w - 1 - count);
        out := out + [pad];
        w := w - 1;
      }
      assert out + Repeat(pad, w - count) == out;
    }
  }

  /** The conversion loop: digits into the buffer, least significant first. */
  method ConvertLoop(value: nat, base: nat, upper: bool, buf: array<char>) returns (i: nat)
    requires 2 <= base <= 16 && |Digits(value, base, upper)| <= buf.Length
    modifies buf
    ensures i <= buf.Length && buf[..i] == Digits(value, base, upper)
  {
    i := 0;
    var v: nat := value;
    ghost var ds := Digits(value, base, upper);
    assert buf[..0] + Digits(v, base, upper) == ds;
    while v > 0
      invariant i <= |ds| && buf[..i] + Digits(v, base, upper) == ds
      decreases v
    {
      SmallerQuotient(v, base);
      var q: nat := v / base;
      var c := DigitChar(v % base, upper);
      ghost var before, rest := buf[..i], Digits(q, base, upper);
      assert Digits(v, base, upper) == [c] + rest;
      assert before + ([c] + rest) == (before + [c]) + rest;
      buf[i] := c;
      assert buf[..i + 1] == before + [c];
      i := i + 1;
      v := q;
    }
    assert buf[..i] + "" == buf[..i];
  }

  /** The digits collected in the 64-byte buffer, of which at most 22 bytes are used. */
  method CollectDigits(value: nat, base: nat, precision: int, upper: bool) returns (buf: array<char>, i: nat)
    requires 8 <= base <= 16 && value < U64
    ensures buf.Length == 64 && i <= 22 && fresh(buf)
    ensures buf[..i] == Collected(value, base, precision, upper)
  {
    hide Digits;
    buf := new char[64];
    BufferSuffices(value, base, precision, upper);
    if value == 0 && precision != 0 {
      buf[0] := '0';
      i := 1;
      assert buf[..1] == "0";
    } else {
      i := ConvertLoop(value, base, upper, buf);
      assert |buf[..i]| == i;
    }
  }

  /** `sprint_uint`. */
  method SprintUint(value: nat, base: nat, width: int, precision: int, flags: Flags, upper: bool) returns (out: string)
    requires 8 <= base <= 16 && value < U64
    ensures out == UintText(value, base, width, precision, flags, upper)
  {
    hide Collected, Prefix, Fill, Reversed, Repeat, Run, ValueOf;
    var buf, i := CollectDigits(value, base, precision, upper);
    RunReadsBack(value, base, precision, upper);
    var actual := if precision > i then precision else i;
    var prefix := Prefix(base, flags, upper);
    var count := actual + |prefix|;
    var lead := Pad(!flags.left, if flags.zero then '0' else ' ', width, count);
    var zeros := Pad(true, '0', actual, i);
    var digits := PrintBuffer(buf, i);
    RunLayout(value, base, precision, upper, buf[..i]);
    var trail := Pad(flags.left, ' ', width, count);
    out := lead + prefix + (zeros + digits) + trail;
  }

  lemma RunLayout(v: nat, base: nat, precision: int, upper: bool, ds: string)
    requires 2 <= base <= 16 && ds == Collected(v, base, precision, upper)
    ensures Run(v, base, precision, upper) == Fill(true, '0', Max(precision, |ds|) - |ds|) + Reversed(ds)
  {
    hide Collected, Reversed;
    assert Repeat('0', precision - |ds|) == Repeat('0', Max(precision, |ds|) - |ds|);
  }

  /** Prints the buffer backwards. */
  method PrintBuffer(buf: array<char>, n: nat) returns (out: string)
    requires n <= buf.Length
    ensures out == Reversed(buf[..n])
  {
    out := "";
    var j := n;
    while j > 0
      invariant 0 <= j <= n
      invariant out == Reversed(buf[..n])[..n - j]
    {
      j := j - 1;
      out := out + [buf[j]];
    }
  }

  // ----- signed values -----------------------------------------------------

  function Magnitude(v: int): (m: nat) { if v < 0 then -v else v }

  function Sign(v: int, flags: Flags): (s: string)
  {
    if v < 0 then "-" else if flags.plus then "+" else if flags.space then " " else ""
  }

  /** Everything `sprint_int` prints. */
  function IntText(v: int, width: int, precision: int, flags: Flags): (s: string)
  {
    var sign, run := Sign(v, flags), Run(Magnitude(v), 10, precision, false);
    var n := width - |sign| - |run|;
    Fill(!flags.left && !flags.zero, ' ', n) + sign + Fill(!flags.left && flags.zero, '0', n) + run + Fill(flags.left, ' ', n)
  }

  /** Exactly the requested width unless sign and digits need more; and the sign and the printed digits
      read back to the value. */
  lemma IntLength(v: int, width: int, precision: int, flags: Flags)
    ensures |IntText(v, width, precision, flags)| == Max(width, |Sign(v, flags)| + |Run(Magnitude(v), 10, precision, false)|)
    ensures (if v < 0 then -1 else 1) * ValueOf(Run(Magnitude(v), 10, precision, false), 10) == v
  {
    RunReadsBack(Magnitude(v), 10, precision, false);
  }

  /** Everything `sprint_int` prints: the sign, which is `-` exactly for negative values, stands directly
      before the digits or the zeros that pad them; spaces stand outside. */
  lemma IntLayout(v: int, width: int, precision: int, flags: Flags) returns (pad: string, digits: string)
    ensures AllIn(digits, "0123456789") && Shortest(digits, if v < 0 then -v else v, precision)
    ensures ValueOf(digits, 10) == if v < 0 then -v else v
    ensures var sign := if v < 0 then "-" else if flags.plus then "+" else if flags.space then " " else "";
            var text := IntText(v, width, precision, flags);
            && |pad| == Max(0, width - |sign| - |digits|)
            && AllAre(pad, if flags.zero && !flags.left then '0' else ' ')
            && text == if flags.left then sign + digits + pad else if flags.zero then sign + pad + digits else pad + sign + digits
  {
    hide Run, Fill, ValueOf, Shortest, AllIn, AllAre;
    RunReadsBack(Magnitude(v), 10, precision, false);
    RunIn(Magnitude(v), 10, precision, false);
    assert Alphabet(10, false) == "0123456789";
    digits := Run(Magnitude(v), 10, precision, false);
    var sign := Sign(v, flags);
    var n := width - |sign| - |digits|;
    FillAre(!flags.left && !flags.zero, ' ', n);
    FillAre(!flags.left && flags.zero, '0', n);
    FillAre(flags.left, ' ', n);
    pad := if flags.left then Fill(flags.left, ' ', n)
           else if flags.zero then Fill(!flags.left && flags.zero, '0', n)
           else Fill(!flags.left && !flags.zero, ' ', n);
    Nothings(sign, digits, pad);
  }

  lemma Nothings(a: string, b: string, p: string)
    ensures "" + a + "" + b + p == a + b + p
    ensures "" + a + p + b + "" == a + p + b
    ensures p + a + "" + b + "" == p + a + b
  {
  }

  lemma PlainUint(v: nat, precision: int)
    ensures UintText(v, 10, 0, precision, PLAIN, false) == Run(v, 10, precision, false)
  {
    hide Run;
    assert Prefix(10, PLAIN, false) == "";
  }

  /** The digit count that `sprint_int` computes by dividing, without printing. */
  method CountDigits(value: nat, precision: int) returns (count: nat)
    ensures count == |Collected(value, 10, precision, false)|
  {
    count := 0;
    var temp := value;
    if temp == 0 && precision != 0 {
      count := 1;
    }
    while temp > 0
      invariant temp >= 0
      invariant count + |Digits(temp, 10, false)| == |Collected(value, 10, precision, false)|
      decreases temp
    {
      SmallerQuotient(temp, 10);
      count := count + 1;
      temp := temp / 10;
    }
  }

  /** `sprint_int`, for every 64-bit value but the minimum, whose negation C leaves undefined: the
      separately computed count is the number of characters that then appear. */
  method SprintInt(value: int, width: int, precision: int, flags: Flags) returns (out: string)
    requires -0x8000_0000_0000_0000 < value < 0x8000_0000_0000_0000
    ensures out == IntText(value, width, precision, flags)
  {
    hide Run, Collected, Fill, UintText, ValueOf;
    var magnitude: nat := if value < 0 then -value else value;
    var count := CountDigits(magnitude, precision);
    RunReadsBack(magnitude, 10, precision, false);
    if precision > count {
      count := precision;
    }
    if value < 0 || flags.plus || flags.space {
      count := count + 1;
    }
    var lead := Pad(!flags.left && !flags.zero, ' ', width, count);
    var zeros := Pad(!flags.left && flags.zero, '0', width, count);
    var digits := SprintUint(magnitude, 10, 0, precision, PLAIN, false);
    PlainUint(magnitude, precision);
    var trail := Pad(flags.left, ' ', width, count);
    out := lead + Sign(value, flags) + zeros + digits + trail;
  }
}
