/** What each conversion prints, said of whole formats and with literal bases, widths and characters. */
module FormatMeaning {
  import opened Bits
  import opened Options
  import opened NumberFormat
  import opened FormatStrings

  /** A format of one directive prints what the directive renders. */
  lemma OneDirective(d: Directive, args: seq<Arg>)
    requires ConvOk(d.conv)
    ensures var r := RenderDirective(d, args);
            Format("%" + Print(d, ""), args) == if r.Some? then Output(r.value.0, Complete) else Output("", BadArgs)
  {
    hide RenderDirective, ConvOk, Print, ParseDirective;
    var items := [Dir(d)];
    assert items[1..] == [];
    assert Source([]) == "" && Source(items) == "%" + Print(d, "");
    FormatOfSource(items, args);
    if RenderDirective(d, args).Some? {
      var (s, rest) := RenderDirective(d, args).value;
      assert FormatItems([], rest) == Output("", Complete);
      assert s + "" == s;
    }
  }

  /** No flags, width or precision. */
  function Plain(l: Length, conv: char): (d: Directive) { Directive(PLAIN, Columns(0), Unlimited, l, conv) }

  lemma PlainSpelling(l: Length, conv: char)
    ensures Print(Plain(l, conv), "") == PrintLength(l) + [conv]
  {
    assert Decimal(0) == "";
    assert "" + ("" + (PrintLength(l) + ([conv] + ""))) == PrintLength(l) + [conv];
  }

  // ----- unsigned conversions ----------------------------------------------

  /** The output is the numeral of `v` in the given base: digits of the alphabet, no leading zeros. */
  predicate Numeral(s: string, alphabet: string, base: nat, v: nat) {
    && AllIn(s, alphabet) && ValueOf(s, base) == v
    && if v == 0 then s == "0" else s != "" && s[0] != '0'
  }

  predicate Prints(o: Output, alphabet: string, base: nat, v: nat) {
    o.ending == Complete && Numeral(o.s, alphabet, base, v)
  }

  /** One past the largest value of the type a length modifier names. */
  function Modulus(l: Length): (m: nat)
    ensures m > 0
  {
    match l case HH => 0x100 case H => 0x1_0000 case Default => 0x1_0000_0000 case _ => 0x1_0000_0000_0000_0000
  }

  lemma ModulusIsPower(l: Length)
    ensures Pow2(BitsOf(l)) == Modulus(l) && Pow2(BitsOf(l) - 1) == Modulus(l) / 2
  {
    Powers();
    assert Pow2(16) == 0x100 * Pow2(8) by {
      assert Pow2(12) == 0x10 * Pow2(8);
      assert Pow2(16) == 0x10 * Pow2(12);
    }
    assert Pow2(16) == 2 * Pow2(15) && Pow2(64) == 2 * Pow2(63) && Pow2(32) == 2 * Pow2(31);
  }

  /** A plain run is a numeral. */
  lemma PlainRun(v: nat, base: nat, upper: bool)
    requires 2 <= base <= 16
    ensures Numeral(Run(v, base, -1, upper), Alphabet(base, upper), base, v)
  {
    hide Run, Alphabet, ValueOf;
    RunReadsBack(v, base, -1, upper);
    RunIn(v, base, -1, upper);
  }

  lemma PlainUintText(v: nat, base: nat, upper: bool)
    requires 2 <= base <= 16
    ensures UintText(v, base, 0, -1, PLAIN, upper) == Run(v, base, -1, upper)
  {
    hide Run;
    var run := Run(v, base, -1, upper);
    assert "" + "" + run + "" == run;
  }

  lemma RenderPlainUnsigned(l: Length, conv: char, w: nat)
    requires conv == 'u' || conv == 'o' || conv == 'x' || conv == 'X'
    ensures var base := if conv == 'o' then 8 else if conv == 'u' then 10 else 16;
            RenderDirective(Plain(l, conv), [Word(w)]) == Some((Run(w % Modulus(l), base, -1, conv == 'X'), []))
  {
    hide Run, UintText;
    ModulusIsPower(l);
    assert [Word(w)][1..] == [];
    PlainUintText(w % Modulus(l), if conv == 'o' then 8 else if conv == 'u' then 10 else 16, conv == 'X');
  }

  /** `%u`, `%o`, `%x` and `%X` with any length modifier print the numeral of the word, reduced to the type
      named, in base 10, 8 and 16. */
  lemma UnsignedMeaning(l: Length, w: nat)
    ensures var v := w % Modulus(l);
            && Prints(Format("%" + (PrintLength(l) + "u"), [Word(w)]), "0123456789", 10, v)
            && Prints(Format("%" + (PrintLength(l) + "o"), [Word(w)]), "01234567", 8, v)
            && Prints(Format("%" + (PrintLength(l) + "x"), [Word(w)]), "0123456789abcdef", 16, v)
            && Prints(Format("%" + (PrintLength(l) + "X"), [Word(w)]), "0123456789ABCDEF", 16, v)
  {
    hide Format, PrintLength, Modulus, Numeral;
    var v := w % Modulus(l);
    Alphabets();
    OneUnsigned(l, 'u', 10, w);
    OneUnsigned(l, 'o', 8, w);
    OneUnsigned(l, 'x', 16, w);
    OneUnsigned(l, 'X', 16, w);
  }

  lemma Alphabets()
    ensures Alphabet(10, false) == "0123456789" && Alphabet(8, false) == "01234567"
    ensures Alphabet(16, false) == "0123456789abcdef" && Alphabet(16, true) == "0123456789ABCDEF"
  {
  }

  lemma OneUnsigned(l: Length, conv: char, base: nat, w: nat)
    requires (conv == 'u' && base == 10) || (conv == 'o' && base == 8) || ((conv == 'x' || conv == 'X') && base == 16)
    ensures Prints(Format("%" + (PrintLength(l) + [conv]), [Word(w)]), Alphabet(base, conv == 'X'), base, w % Modulus(l))
  {
    hide Format, PrintLength, Modulus, Numeral, Alphabet, RenderDirective, Print;
    PlainSpelling(l, conv);
    OneDirective(Plain(l, conv), [Word(w)]);
    RenderPlainUnsigned(l, conv, w);
    PlainRun(w % Modulus(l), base, conv == 'X');
  }

  /** The spellings in literal characters. */
  lemma HexMeaning(w: nat)
    ensures Prints(Format("%x", [Word(w)]), "0123456789abcdef", 16, w % 0x1_0000_0000)
    ensures Prints(Format("%X", [Word(w)]), "0123456789ABCDEF", 16, w % 0x1_0000_0000)
    ensures Prints(Format("%o", [Word(w)]), "01234567", 8, w % 0x1_0000_0000)
    ensures Prints(Format("%u", [Word(w)]), "0123456789", 10, w % 0x1_0000_0000)
    ensures Prints(Format("%hhx", [Word(w)]), "0123456789abcdef", 16, w % 0x100)
    ensures Prints(Format("%hx", [Word(w)]), "0123456789abcdef", 16, w % 0x1_0000)
    ensures Prints(Format("%lx", [Word(w)]), "0123456789abcdef", 16, w % 0x1_0000_0000_0000_0000)
    ensures Prints(Format("%llx", [Word(w)]), "0123456789abcdef", 16, w % 0x1_0000_0000_0000_0000)
    ensures Prints(Format("%zx", [Word(w)]), "0123456789abcdef", 16, w % 0x1_0000_0000_0000_0000)
  {
    hide Format, Prints;
    Spellings();
    UnsignedMeaning(Default, w);
    UnsignedMeaning(HH, w);
    UnsignedMeaning(H, w);
    UnsignedMeaning(L, w);
    UnsignedMeaning(LL, w);
    UnsignedMeaning(Z, w);
  }

  lemma Spellings()
    ensures "%" + (PrintLength(Default) + "x") == "%x" && "%" + (PrintLength(Default) + "X") == "%X"
    ensures "%" + (PrintLength(Default) + "o") == "%o" && "%" + (PrintLength(Default) + "u") == "%u"
    ensures "%" + (PrintLength(HH) + "x") == "%hhx" && "%" + (PrintLength(H) + "x") == "%hx"
    ensures "%" + (PrintLength(L) + "x") == "%lx" && "%" + (PrintLength(LL) + "x") == "%llx"
    ensures "%" + (PrintLength(Z) + "x") == "%zx"
  {
  }

  // ----- signed conversions ------------------------------------------------

  /** A word as a signed number of the type a length modifier names. */
  function AsSigned(l: Length, w: nat): (v: int)
  {
    var u := w % Modulus(l);
    if u < Modulus(l) / 2 then u else u - Modulus(l)
  }

  lemma AsSignedIs(l: Length, w: nat)
    ensures AsSigned(l, w) == Signed(w, BitsOf(l))
  {
    ModulusIsPower(l);
  }

  /** A minus sign exactly for negative values, then the numeral of the magnitude. */
  predicate PrintsSigned(o: Output, v: int) {
    && o.ending == Complete
    && if v < 0 then o.s != "" && o.s[0] == '-' && Numeral(o.s[1..], "0123456789", 10, -v) else Numeral(o.s, "0123456789", 10, v)
  }

  lemma PlainIntText(v: int)
    ensures IntText(v, 0, -1, PLAIN) == (if v < 0 then "-" else "") + Run(Magnitude(v), 10, -1, false)
  {
    hide Run;
    var sign, run := Sign(v, PLAIN), Run(Magnitude(v), 10, -1, false);
    assert "" + sign + "" + run + "" == sign + run;
  }

  lemma RenderPlainSigned(l: Length, conv: char, w: nat)
    requires conv == 'd' || conv == 'i'
    ensures RenderDirective(Plain(l, conv), [Word(w)]) == Some((IntText(AsSigned(l, w), 0, -1, PLAIN), []))
  {
    hide IntText, Signed, AsSigned;
    AsSignedIs(l, w);
    assert [Word(w)][1..] == [];
  }

  /** `%d` and `%i` with any length modifier. */
  lemma SignedMeaning(l: Length, conv: char, w: nat)
    requires conv == 'd' || conv == 'i'
    ensures PrintsSigned(Format("%" + (PrintLength(l) + [conv]), [Word(w)]), AsSigned(l, w))
  {
    hide Format, PrintLength, Numeral, RenderDirective, AsSigned, Run, IntText, Print;
    var v := AsSigned(l, w);
    PlainSpelling(l, conv);
    OneDirective(Plain(l, conv), [Word(w)]);
    RenderPlainSigned(l, conv, w);
    PlainIntText(v);
    Alphabets();
    PlainRun(Magnitude(v), 10, false);
    var run := Run(Magnitude(v), 10, -1, false);
    assert ("-" + run)[1..] == run && "" + run == run;
  }

  lemma DecimalMeaning(w: nat)
    ensures PrintsSigned(Format("%d", [Word(w)]), if w % 0x1_0000_0000 < 0x8000_0000 then w % 0x1_0000_0000 else w % 0x1_0000_0000 - 0x1_0000_0000)
    ensures PrintsSigned(Format("%hhd", [Word(w)]), if w % 0x100 < 0x80 then w % 0x100 else w % 0x100 - 0x100)
    ensures PrintsSigned(Format("%hd", [Word(w)]), if w % 0x1_0000 < 0x8000 then w % 0x1_0000 else w % 0x1_0000 - 0x1_0000)
    ensures PrintsSigned(Format("%ld", [Word(w)]),
              if w % U64 < 0x8000_0000_0000_0000 then w % U64 else w % U64 - 0x1_0000_0000_0000_0000)
  {
    hide Format, PrintsSigned;
    assert "%" + (PrintLength(Default) + "d") == "%d" && "%" + (PrintLength(HH) + "d") == "%hhd";
    assert "%" + (PrintLength(H) + "d") == "%hd" && "%" + (PrintLength(L) + "d") == "%ld";
    SignedMeaning(Default, 'd', w);
    SignedMeaning(HH, 'd', w);
    SignedMeaning(H, 'd', w);
    SignedMeaning(L, 'd', w);
  }

  // ----- flags, width and precision ----------------------------------------

  function PrecisionOf(p: Precision): (n: int) { if p.Exact? then p.n else -1 }

  /** An unsigned conversion with flags, width and precision: digits of at least the precision, a prefix with
      `#`, and padding up to the width, before both or, with `-`, after them. */
  lemma UnsignedLayout(d: Directive, w: nat) returns (pad: string, digits: string)
    requires (d.conv == 'u' || d.conv == 'o' || d.conv == 'x' || d.conv == 'X') && d.width.Columns? && !d.precision.StarPrecision?
    ensures var base := if d.conv == 'o' then 8 else if d.conv == 'u' then 10 else 16;
            var prefix := if !d.flags.alt || d.conv == 'u' then "" else if d.conv == 'o' then "0" else if d.conv == 'x' then "0x" else "0X";
            && ValueOf(digits, base) == w % Modulus(d.length) && Shortest(digits, w % Modulus(d.length), PrecisionOf(d.precision))
            && AllIn(digits, Alphabet(base, d.conv == 'X'))
            && |pad| == Max(0, d.width.n - |prefix| - |digits|) && AllAre(pad, if d.flags.zero && !d.flags.left then '0' else ' ')
            && Format("%" + Print(d, ""), [Word(w)]) ==
               Output(if d.flags.left then prefix + digits + pad else pad + prefix + digits, Complete)
  {
    hide Format, Print, UintText, Alphabet, ValueOf;
    var base := if d.conv == 'o' then 8 else if d.conv == 'u' then 10 else 16;
    var precision := PrecisionOf(d.precision);
    ModulusIsPower(d.length);
    OneDirective(d, [Word(w)]);
    pad, digits := UintLayout(w % Modulus(d.length), base, d.width.n, precision, d.flags, d.conv == 'X');
  }

  /** The same for a signed conversion, with its sign directly before the digits or the zeros that pad them. */
  lemma SignedLayout(d: Directive, w: nat) returns (pad: string, digits: string)
    requires (d.conv == 'd' || d.conv == 'i') && d.width.Columns? && !d.precision.StarPrecision?
    ensures var v := AsSigned(d.length, w);
            var sign := if v < 0 then "-" else if d.flags.plus then "+" else if d.flags.space then " " else "";
            && ValueOf(digits, 10) == (if v < 0 then -v else v) && AllIn(digits, "0123456789")
            && Shortest(digits, if v < 0 then -v else v, PrecisionOf(d.precision))
            && |pad| == Max(0, d.width.n - |sign| - |digits|) && AllAre(pad, if d.flags.zero && !d.flags.left then '0' else ' ')
            && Format("%" + Print(d, ""), [Word(w)]) ==
               Output(if d.flags.left then sign + digits + pad else if d.flags.zero then sign + pad + digits else pad + sign + digits, Complete)
  {
    hide Format, Print, IntText, ValueOf, Signed, AsSigned;
    AsSignedIs(d.length, w);
    OneDirective(d, [Word(w)]);
    pad, digits := IntLayout(AsSigned(d.length, w), d.width.n, PrecisionOf(d.precision), d.flags);
  }

  // ----- the other conversions ---------------------------------------------

  /** `%p`: `0x` and the hexadecimal numeral of all 64 bits. */
  lemma PointerMeaning(w: nat)
    ensures var o := Format("%p", [Word(w)]);
            && o.ending == Complete && |o.s| >= 2 && o.s[..2] == "0x"
            && Numeral(o.s[2..], "0123456789abcdef", 16, w % 0x1_0000_0000_0000_0000)
  {
    hide Format, Numeral, Run, Print;
    PlainSpelling(Default, 'p');
    assert PrintLength(Default) + ['p'] == "p" && "%" + "p" == "%p";
    OneDirective(Plain(Default, 'p'), [Word(w)]);
    ModulusIsPower(LL);
    Alphabets();
    var v := w % 0x1_0000_0000_0000_0000;
    PlainRun(v, 16, false);
    var run := Run(v, 16, -1, false);
    assert UintText(v, 16, 0, -1, PLAIN.(alt := true), false) == "0x" + run by {
      assert "" + "0x" + run + "" == "0x" + run;
    }
    assert ("0x" + run)[..2] == "0x" && ("0x" + run)[2..] == run;
  }

  /** `%c` prints the low byte. */
  lemma CharMeaning(w: nat)
    ensures Format("%c", [Word(w)]) == Output([(w % 256) as char], Complete)
  {
    hide Format, Print;
    PlainSpelling(Default, 'c');
    assert "" + "c" == "c" && "%" + "c" == "%c";
    OneDirective(Plain(Default, 'c'), [Word(w)]);
    var one := [(w % 256) as char];
    assert "" + one + "" == one;
  }

  /** `%%` prints one percent sign, and an unknown conversion itself after a percent sign. */
  lemma PercentMeaning(c: char, args: seq<Arg>)
    requires ConvOk(c) && c !in "csdiuoxXp"
    ensures Format("%" + [c], args) == Output(if c == '%' then "%" else "%" + [c], Complete)
  {
    hide Format, Print;
    PlainSpelling(Default, c);
    assert "" + [c] == [c];
    OneDirective(Plain(Default, c), args);
  }

  /** `%c` with a width: spaces before the character, or after it with the `-` flag. */
  lemma CharLayout(d: Directive, w: nat)
    requires d.conv == 'c' && d.width.Columns? && !d.precision.StarPrecision?
    ensures var c := [(w % 256) as char];
            var pad := seq(if d.width.n > 1 then d.width.n - 1 else 0, _ => ' ');
            Format("%" + Print(d, ""), [Word(w)]) == Output(if d.flags.left then c + pad else pad + c, Complete)
  {
    hide Format, Print, Repeat;
    OneDirective(d, [Word(w)]);
    var c, n := [(w % 256) as char], d.width.n - 1;
    Spaces(n);
    assert "" + c + Repeat(' ', n) == c + Repeat(' ', n);
    assert Repeat(' ', n) + c + "" == Repeat(' ', n) + c;
  }

  /** `%s`: the characters before the terminator, at most as many as the precision, and spaces up to the
      width, after them with the `-` flag and otherwise before; a null pointer prints as `(null)`. */
  lemma StringMeaning(d: Directive, str: string)
    requires d.conv == 's' && d.width.Columns? && !d.precision.StarPrecision?
    ensures var full := Terminated(str);
            var cut := if d.precision.Exact? && d.precision.n < |full| then full[..d.precision.n] else full;
            var pad := seq(if d.width.n > |cut| then d.width.n - |cut| else 0, _ => ' ');
            Format("%" + Print(d, ""), [Str(str)]) == Output(if d.flags.left then cut + pad else pad + cut, Complete)
    ensures Format("%" + Print(d, ""), [NullStr]) == Format("%" + Print(d, ""), [Str("(null)")])
  {
    hide Format, Print, Terminated, StringText;
    OneDirective(d, [Str(str)]);
    OneDirective(d, [NullStr]);
    OneDirective(d, [Str("(null)")]);
    StringLayout(str, d.width.n, d.precision, d.flags.left);
  }

  lemma StringLayout(str: string, width: nat, p: Precision, left: bool)
    requires !p.StarPrecision?
    ensures var full := Terminated(str);
            var cut := if p.Exact? && p.n < |full| then full[..p.n] else full;
            var pad := seq(if width > |cut| then width - |cut| else 0, _ => ' ');
            StringText(str, width, PrecisionOf(p), left) == if left then cut + pad else pad + cut
  {
    hide Terminated, Repeat;
    var cut := Cut(Terminated(str), PrecisionOf(p));
    var n := width - |cut|;
    Spaces(n);
    assert "" + cut + Repeat(' ', n) == cut + Repeat(' ', n);
    assert Repeat(' ', n) + cut + "" == Repeat(' ', n) + cut;
  }

  lemma Spaces(n: int)
    ensures Repeat(' ', n) == seq(if n > 0 then n else 0, _ => ' ')
  {
  }

  // ----- stars -------------------------------------------------------------

  /** A width taken from an argument: its magnitude, and left-justified if it is negative. */
  lemma StarWidthMeaning(d: Directive, w: nat, args: seq<Arg>)
    requires ConvOk(d.conv)
    ensures var v := AsSigned(Default, w);
            var fixed := if v < 0 then d.(width := Columns(-v), flags := d.flags.(left := true)) else d.(width := Columns(v));
            Format("%" + Print(d.(width := StarWidth), ""), [Word(w)] + args) == Format("%" + Print(fixed, ""), args)
  {
    hide Format, Print, Render, AsSigned, Signed, ConvOk;
    AsSignedIs(Default, w);
    var v := AsSigned(Default, w);
    var fixed := if v < 0 then d.(width := Columns(-v), flags := d.flags.(left := true)) else d.(width := Columns(v));
    OneDirective(d.(width := StarWidth), [Word(w)] + args);
    OneDirective(fixed, args);
    assert ([Word(w)] + args)[1..] == args;
  }

  /** A precision taken from an argument: none if it is negative. */
  lemma StarPrecisionMeaning(d: Directive, w: nat, args: seq<Arg>)
    requires ConvOk(d.conv) && d.width.Columns?
    ensures var v := AsSigned(Default, w);
            var fixed := d.(precision := if v < 0 then Unlimited else Exact(v));
            Format("%" + Print(d.(precision := StarPrecision), ""), [Word(w)] + args) == Format("%" + Print(fixed, ""), args)
  {
    hide Format, Print, Render, AsSigned, Signed, ConvOk;
    AsSignedIs(Default, w);
    var v := AsSigned(Default, w);
    var fixed := d.(precision := if v < 0 then Unlimited else Exact(v));
    OneDirective(d.(precision := StarPrecision), [Word(w)] + args);
    OneDirective(fixed, args);
    assert ([Word(w)] + args)[1..] == args;
    if v < 0 {
      NegativePrecision(Field(d.flags, d.width.n, v, d.length, d.conv), args);
    }
  }

  lemma NegativeRun(v: nat, base: nat, precision: int, upper: bool)
    requires 2 <= base <= 16 && precision < 0
    ensures Run(v, base, precision, upper) == Run(v, base, -1, upper)
  {
    hide Digits, Reversed;
  }

  lemma NegativeUint(v: nat, base: nat, width: int, precision: int, flags: Flags, upper: bool)
    requires 2 <= base <= 16 && precision < 0
    ensures UintText(v, base, width, precision, flags, upper) == UintText(v, base, width, -1, flags, upper)
  {
    hide Run, Fill;
    NegativeRun(v, base, precision, upper);
  }

  lemma NegativeInt(v: int, width: int, precision: int, flags: Flags)
    requires precision < 0
    ensures IntText(v, width, precision, flags) == IntText(v, width, -1, flags)
  {
    hide Run, Fill;
    NegativeRun(Magnitude(v), 10, precision, false);
  }

  lemma NegativePrecision(f: Field, args: seq<Arg>)
    requires f.precision < 0
    ensures Render(f, args) == Render(f.(precision := -1), args)
  {
    hide UintText, IntText, Terminated, Fill, Signed, Unsigned, CharText;
    if args != [] && args[0].Word? {
      var w, bits := args[0].w, BitsOf(f.length);
      NegativeUint(Unsigned(w, bits), BaseOf(f.conv), f.width, f.precision, f.flags, f.conv == 'X');
      NegativeUint(Unsigned(w, 64), 16, f.width, f.precision, f.flags.(alt := true), false);
      NegativeInt(Signed(w, bits), f.width, f.precision, f.flags);
    }
  }
}
