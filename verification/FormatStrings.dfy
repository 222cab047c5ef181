/** Format strings: `svprintf` (and `cvprintf`, the same code over another sink) as a parser of directives
    and a renderer, and the canonical spelling of a directive that the parser undoes. */
module FormatStrings {
  import opened Bits
  import opened Options
  import opened NumberFormat

  datatype Width = Columns(n: nat) | StarWidth
  datatype Precision = Unlimited | Exact(n: nat) | StarPrecision
  datatype Length = Default | H | HH | L | LL | Z | J | T

  datatype Directive = Directive(flags: Flags, width: Width, precision: Precision, length: Length, conv: char)

  // ----- parsing -----------------------------------------------------------

  /** Functions take what is left of the format, which ends at its first terminator or with the string. */
  function Head(s: string): (c: char) { if s == "" then '\0' else s[0] }

  function SetFlag(c: char, f: Flags): (r: Option<Flags>)
  {
    match c
    case '#' => Some(f.(alt := true))
    case '-' => Some(f.(left := true))
    case '0' => Some(f.(zero := true))
    case '+' => Some(f.(plus := true))
    case ' ' => Some(f.(space := true))
    case _ => None
  }

  function ParseFlags(s: string, f: Flags): (r: (Flags, string))
    decreases |s|
  {
    if s == "" then (f, s)
    else match SetFlag(s[0], f)
      case None => (f, s)
      case Some(f') => ParseFlags(s[1..], f')
  }

  predicate IsDigit(c: char) { '0' <= c <= '9' }

  function ParseNumber(s: string, n: nat): (r: (nat, string))
    decreases |s|
  {
    if s != "" && IsDigit(s[0]) then ParseNumber(s[1..], n * 10 + DigitValue(s[0])) else (n, s)
  }

  function ParseWidth(s: string): (r: (Width, string))
  {
    if Head(s) == '*' then (StarWidth, s[1..])
    else var (n, t) := ParseNumber(s, 0); (Columns(n), t)
  }

  function ParsePrecision(s: string): (r: (Precision, string))
  {
    if Head(s) != '.' then (Unlimited, s)
    else if Head(s[1..]) == '*' then (StarPrecision, s[2..])
    else var (n, t) := ParseNumber(s[1..], 0); (Exact(n), t)
  }

  function ParseLength(s: string): (r: (Length, string))
  {
    match Head(s)
    case 'h' => if Head(s[1..]) == 'h' then (HH, s[2..]) else (H, s[1..])
    case 'l' => if Head(s[1..]) == 'l' then (LL, s[2..]) else (L, s[1..])
    case 'z' => (Z, s[1..])
    case 'j' => (J, s[1..])
    case 't' => (T, s[1..])
    case _ => (Default, s)
  }

  /** The directive after a `%`, and what follows its conversion character; `None` if the format ends
      inside the directive, where the source steps past the terminator. */
  function ParseDirective(s: string): (r: Option<(Directive, string)>)
  {
    var (flags, s1) := ParseFlags(s, PLAIN);
    var (width, s2) := ParseWidth(s1);
    var (precision, s3) := ParsePrecision(s2);
    var (length, s4) := ParseLength(s3);
    if Head(s4) == '\0' then None else Some((Directive(flags, width, precision, length, s4[0]), s4[1..]))
  }

  // ----- the canonical spelling --------------------------------------------

  function Opt(on: bool, c: char, t: string): (s: string) { if on then [c] + t else t }

  /** The flags, in one fixed order, followed by `t`. */
  function PrintFlags(f: Flags, t: string): (s: string)
  {
    Opt(f.alt, '#', Opt(f.left, '-', Opt(f.zero, '0', Opt(f.plus, '+', Opt(f.space, ' ', t)))))
  }

  /** Decimal digits without leading zeros; empty for 0. */
  function Decimal(n: nat): (s: string) { Reversed(Digits(n, 10, false)) }

  function PrintWidth(w: Width): (s: string) { match w case StarWidth => "*" case Columns(n) => Decimal(n) }

  function PrintPrecision(p: Precision): (s: string)
  {
    match p case Unlimited => "" case StarPrecision => ".*" case Exact(n) => "." + Decimal(n)
  }

  function PrintLength(l: Length): (s: string)
  {
    match l
    case Default => "" case H => "h" case HH => "hh" case L => "l" case LL => "ll"
    case Z => "z" case J => "j" case T => "t"
  }

  /** A directive in canonical form, followed by `rest`. */
  function Print(d: Directive, rest: string): (s: string)
  {
    PrintFlags(d.flags, PrintWidth(d.width) + (PrintPrecision(d.precision) + (PrintLength(d.length) + ([d.conv] + rest))))
  }

  /** A conversion character that cannot be taken for an earlier part of the directive. */
  predicate ConvOk(c: char) {
    && !IsDigit(c) && c != '#' && c != '-' && c != '+' && c != ' ' && c != '.' && c != '*'
    && c != 'h' && c != 'l' && c != 'z' && c != 'j' && c != 't' && c != '\0'
  }

  // ----- parsing undoes printing -------------------------------------------

  lemma OptionalFlag(on: bool, c: char, t: string, f: Flags)
    requires SetFlag(c, f).Some?
    ensures ParseFlags(Opt(on, c, t), f) == ParseFlags(t, if on then SetFlag(c, f).value else f)
  {
    if on {
      assert ([c] + t)[1..] == t;
    }
  }

  lemma FlagsUndone(f: Flags, t: string)
    requires t != "" && SetFlag(t[0], PLAIN).None?
    ensures ParseFlags(PrintFlags(f, t), PLAIN) == (f, t)
  {
    hide ParseFlags, Opt;
    var p4 := Opt(f.space, ' ', t);
    var p3 := Opt(f.plus, '+', p4);
    var p2 := Opt(f.zero, '0', p3);
    var p1 := Opt(f.left, '-', p2);
    var f1 := PLAIN.(alt := f.alt);
    var f2 := f1.(left := f.left);
    var f3 := f2.(zero := f.zero);
    var f4 := f3.(plus := f.plus);
    OptionalFlag(f.alt, '#', p1, PLAIN);
    OptionalFlag(f.left, '-', p2, f1);
    OptionalFlag(f.zero, '0', p3, f2);
    OptionalFlag(f.plus, '+', p4, f3);
    OptionalFlag(f.space, ' ', t, f4);
    NoFlag(t, f);
  }

  lemma NoFlag(t: string, f: Flags)
    requires t != "" && SetFlag(t[0], PLAIN).None?
    ensures ParseFlags(t, f) == (f, t)
  {
  }

  predicate AllDigits(s: string) { forall k :: 0 <= k < |s| ==> IsDigit(s[k]) }

  /** Reading a digit string from the left, continuing from `n`. */
  function ReadOn(n: nat, ds: string): (v: nat)
    decreases |ds|
  {
    if ds == "" then n else ReadOn(n * 10 + DigitValue(ds[0]), ds[1..])
  }

  lemma {:induction false} NumberUndone(ds: string, t: string, n: nat)
    requires AllDigits(ds) && !IsDigit(Head(t))
    ensures ParseNumber(ds + t, n) == (ReadOn(n, ds), t)
    decreases |ds|
  {
    if ds == "" {
      assert ds + t == t;
    } else {
      assert (ds + t)[1..] == ds[1..] + t;
      NumberUndone(ds[1..], t, n * 10 + DigitValue(ds[0]));
    }
  }

  lemma {:induction false} ReadOnSnoc(n: nat, ds: string, c: char)
    ensures ReadOn(n, ds + [c]) == 10 * ReadOn(n, ds) + DigitValue(c)
    decreases |ds|
  {
    hide DigitValue;
    if ds == "" {
      assert ds + [c] == [c];
      assert [c][1..] == "";
      assert ReadOn(n * 10 + DigitValue(c), "") == n * 10 + DigitValue(c);
    } else {
      assert (ds + [c])[1..] == ds[1..] + [c];
      ReadOnSnoc(n * 10 + DigitValue(ds[0]), ds[1..], c);
    }
  }

  lemma {:induction false} ReadOnIsValue(ds: string)
    ensures ReadOn(0, ds) == ValueOf(ds, 10)
    decreases |ds|
  {
    if ds != "" {
      var init, c := ds[..|ds| - 1], ds[|ds| - 1];
      assert ds == init + [c];
      ReadOnIsValue(init);
      ReadOnSnoc(0, init, c);
    }
  }

  lemma {:induction false} DigitsAreDigits(n: nat)
    ensures AllDigits(Digits(n, 10, false))
    ensures n > 0 ==> Digits(n, 10, false) != "" && Digits(n, 10, false)[|Digits(n, 10, false)| - 1] != '0'
    decreases n
  {
    if n > 0 {
      SmallerQuotient(n, 10);
      DigitsAreDigits(n / 10);
    }
  }

  lemma DecimalFacts(n: nat)
    ensures AllDigits(Decimal(n)) && ValueOf(Decimal(n), 10) == n
    ensures n > 0 ==> Decimal(n) != "" && IsDigit(Decimal(n)[0]) && Decimal(n)[0] != '0'
    ensures n == 0 ==> Decimal(n) == ""
  {
    hide ValueOf, DigitValue, DigitChar;
    DigitsAreDigits(n);
    ReadDigits(n, 10, false);
  }

  lemma DecimalUndone(n: nat, t: string)
    requires !IsDigit(Head(t))
    ensures ParseNumber(Decimal(n) + t, 0) == (n, t)
  {
    hide Decimal, ParseNumber, ValueOf, ReadOn;
    DecimalFacts(n);
    NumberUndone(Decimal(n), t, 0);
    ReadOnIsValue(Decimal(n));
  }

  lemma WidthUndone(w: Width, t: string)
    requires !IsDigit(Head(t)) && Head(t) != '*'
    ensures ParseWidth(PrintWidth(w) + t) == (w, t)
  {
    hide Decimal, ParseNumber;
    match w
    case StarWidth => assert ("*" + t)[1..] == t;
    case Columns(n) =>
      DecimalUndone(n, t);
      DecimalHead(n, t);
  }

  /** The first character of a printed number is a non-zero digit, or what follows if there is none. */
  lemma DecimalHead(n: nat, t: string)
    ensures n > 0 ==> IsDigit(Head(Decimal(n) + t)) && Head(Decimal(n) + t) != '0'
    ensures n == 0 ==> Decimal(n) + t == t
  {
    DecimalFacts(n);
  }

  lemma PrecisionUndone(p: Precision, t: string)
    requires !IsDigit(Head(t)) && Head(t) != '*' && Head(t) != '.'
    ensures ParsePrecision(PrintPrecision(p) + t) == (p, t)
  {
    hide Decimal, ParseNumber;
    match p
    case Unlimited => assert "" + t == t;
    case StarPrecision =>
      assert (".*" + t)[1..] == "*" + t && (".*" + t)[2..] == t;
    case Exact(n) =>
      var s := ("." + Decimal(n)) + t;
      assert s[1..] == Decimal(n) + t;
      DecimalUndone(n, t);
      DecimalHead(n, t);
  }

  lemma LengthUndone(l: Length, t: string)
    requires t != "" && ConvOk(t[0])
    ensures ParseLength(PrintLength(l) + t) == (l, t)
  {
    var s := PrintLength(l) + t;
    match l
    case Default => assert s == t;
    case HH => assert s[1..] == "h" + t && s[2..] == t;
    case LL => assert s[1..] == "l" + t && s[2..] == t;
    case _ => assert s[1..] == t;
  }

  /** The part of a directive from the width on never starts with a flag character. */
  lemma TailHeads(d: Directive, rest: string)
    requires ConvOk(d.conv)
    ensures var t1 := [d.conv] + rest;
            var t2 := PrintLength(d.length) + t1;
            var t3 := PrintPrecision(d.precision) + t2;
            var t4 := PrintWidth(d.width) + t3;
            && !IsDigit(Head(t2)) && Head(t2) != '*' && Head(t2) != '.'
            && !IsDigit(Head(t3)) && Head(t3) != '*'
            && t4 != "" && SetFlag(t4[0], PLAIN).None? && d.conv != '\0'
  {
    hide Decimal;
    var t1 := [d.conv] + rest;
    var t2 := PrintLength(d.length) + t1;
    var t3 := PrintPrecision(d.precision) + t2;
    assert t2 != "" && (t2[0] == d.conv || t2[0] in "hlzjt");
    assert t3 != "" && (t3[0] == t2[0] || t3[0] == '.');
    if d.width.Columns? {
      DecimalHead(d.width.n, t3);
    }
  }

  /** Directive parsing undoes directive printing: every field is recovered and the parser stops right
      after the conversion character. */
  lemma DirectiveUndone(d: Directive, rest: string)
    requires ConvOk(d.conv)
    ensures ParseDirective(Print(d, rest)) == Some((d, rest))
  {
    hide ParseFlags, ParseWidth, ParsePrecision, ParseLength, PrintFlags, PrintWidth, PrintPrecision, PrintLength, ConvOk, SetFlag, IsDigit;
    var t1 := [d.conv] + rest;
    var t2 := PrintLength(d.length) + t1;
    var t3 := PrintPrecision(d.precision) + t2;
    var t4 := PrintWidth(d.width) + t3;
    TailHeads(d, rest);
    FlagsUndone(d.flags, t4);
    WidthUndone(d.width, t3);
    PrecisionUndone(d.precision, t2);
    LengthUndone(d.length, t1);
    assert t1[1..] == rest;
  }

  // ----- rendering ---------------------------------------------------------

  /** Variadic arguments: 64-bit words and strings. */
  datatype Arg = Word(w: nat) | Str(s: string) | NullStr

  /** The low `bits` bits of a word, and the same read as a signed number. */
  function Unsigned(w: nat, bits: nat): (v: nat) { w % Pow2(bits) }

  function Signed(w: nat, bits: nat): (v: int)
    requires bits > 0
  {
    var u := w % Pow2(bits);
    if u >= Pow2(bits - 1) then u - Pow2(bits) else u
  }

  function BitsOf(l: Length): (n: nat)
    ensures n > 0
  {
    match l case HH => 8 case H => 16 case Default => 32 case _ => 64
  }

  /** `va_arg` for a word; anything else there is outside the model. */
  function WordArg(args: seq<Arg>): (r: Option<(nat, seq<Arg>)>)
  {
    if args != [] && args[0].Word? then Some((args[0].w, args[1..])) else None
  }

  /** A directive with `*` replaced by the arguments it takes; a negative width means left-justified. */
  datatype Field = Field(flags: Flags, width: int, precision: int, length: Length, conv: char)

  function TakeWidth(d: Directive, args: seq<Arg>): (r: Option<(Flags, int, seq<Arg>)>)
  {
    match d.width
    case Columns(n) => Some((d.flags, n, args))
    case StarWidth =>
      match WordArg(args)
      case None => None
      case Some((w, rest)) =>
        var v := Signed(w, 32);
        if v < 0 then Some((d.flags.(left := true), -v, rest)) else Some((d.flags, v, rest))
  }

  function TakePrecision(p: Precision, args: seq<Arg>): (r: Option<(int, seq<Arg>)>)
  {
    match p
    case Unlimited => Some((-1, args))
    case Exact(n) => Some((n, args))
    case StarPrecision =>
      match WordArg(args) case None => None case Some((w, rest)) => Some((Signed(w, 32), rest))
  }

  function TakeStars(d: Directive, args: seq<Arg>): (r: Option<(Field, seq<Arg>)>)
  {
    match TakeWidth(d, args)
    case None => None
    case Some((flags, width, rest)) =>
      match TakePrecision(d.precision, rest)
      case None => None
      case Some((precision, rest')) => Some((Field(flags, width, precision, d.length, d.conv), rest'))
  }

  function CharText(c: char, width: int, left: bool): (s: string)
  {
    Fill(!left, ' ', width - 1) + [c] + Fill(left, ' ', width - 1)
  }

  /** What a C string holds: the characters before its terminator. */
  function Terminated(s: string): (r: string)
    ensures r <= s && '\0' !in r
  {
    if Head(s) == '\0' then "" else [s[0]] + Terminated(s[1..])
  }

  function Cut(s: string, precision: int): (r: string)
    ensures precision >= 0 ==> |r| <= precision
    ensures r <= s
  {
    if 0 <= precision < |s| then s[..precision] else s
  }

  function StringText(s: string, width: int, precision: int, left: bool): (r: string)
  {
    var t := Cut(Terminated(s), precision);
    Fill(!left, ' ', width - |t|) + t + Fill(left, ' ', width - |t|)
  }

  function BaseOf(conv: char): (b: nat)
    ensures 8 <= b <= 16
  {
    if conv == 'o' then 8 else if conv == 'x' || conv == 'X' then 16 else 10
  }

  function Render(f: Field, args: seq<Arg>): (r: Option<(string, seq<Arg>)>)
  {
    match f.conv
    case 'c' =>
      (match WordArg(args) case None => None
       case Some((w, rest)) => Some((CharText((w % 256) as char, f.width, f.flags.left), rest)))
    case 's' =>
      if args == [] || args[0].Word? then None
      else
        var str := if args[0].Str? then args[0].s else "(null)";
        Some((StringText(str, f.width, f.precision, f.flags.left), args[1..]))
    case 'd' | 'i' =>
      (match WordArg(args) case None => None
       case Some((w, rest)) => Some((IntText(Signed(w, BitsOf(f.length)), f.width, f.precision, f.flags), rest)))
    case 'u' | 'o' | 'x' | 'X' =>
      (match WordArg(args) case None => None
       case Some((w, rest)) =>
         Some((UintText(Unsigned(w, BitsOf(f.length)), BaseOf(f.conv), f.width, f.precision, f.flags, f.conv == 'X'), rest)))
    case 'p' =>
      (match WordArg(args) case None => None
       case Some((w, rest)) =>
         Some((UintText(Unsigned(w, 64), 16, f.width, f.precision, f.flags.(alt := true), false), rest)))
    case '%' => Some(("%", args))
    case c => Some(("%" + [c], args))
  }

  function RenderDirective(d: Directive, args: seq<Arg>): (r: Option<(string, seq<Arg>)>)
  {
    match TakeStars(d, args)
    case None => None
    case Some((f, rest)) => Render(f, rest)
  }

  /** `Overrun`: the format ended inside a directive, and the source reads on behind its terminator.
      `BadArgs`: an argument was missing or of the wrong kind. */
  datatype Ending = Complete | Overrun | BadArgs

  /** The characters emitted, up to where the model ends. */
  datatype Output = Output(s: string, ending: Ending)

  function Prepend(s: string, o: Output): (r: Output) { o.(s := s + o.s) }

  /** `svprintf`. */
  function Format(fmt: string, args: seq<Arg>): (o: Output)
    decreases |fmt|
  {
    if Head(fmt) == '\0' then Output("", Complete)
    else if fmt[0] != '%' then Prepend([fmt[0]], Format(fmt[1..], args))
    else
      match ParseDirective(fmt[1..])
      case None => Output("%", Overrun)
      case Some((d, rest)) =>
        ParseShortens(fmt[1..]);
        match RenderDirective(d, args)
        case None => Output("", BadArgs)
        case Some((s, args')) => Prepend(s, Format(rest, args'))
  }

  lemma {:induction false} FlagsShorten(s: string, f: Flags)
    ensures |ParseFlags(s, f).1| <= |s|
    decreases |s|
  {
    if s != "" && SetFlag(s[0], f).Some? {
      FlagsShorten(s[1..], SetFlag(s[0], f).value);
    }
  }

  lemma {:induction false} NumberShortens(s: string, n: nat)
    ensures |ParseNumber(s, n).1| <= |s|
    decreases |s|
  {
    if s != "" && IsDigit(s[0]) {
      NumberShortens(s[1..], n * 10 + DigitValue(s[0]));
    }
  }

  lemma ParseShortens(s: string)
    ensures ParseDirective(s).Some? ==> |ParseDirective(s).value.1| < |s|
  {
    hide ParseFlags, ParseNumber;
    var (flags, s1) := ParseFlags(s, PLAIN);
    FlagsShorten(s, PLAIN);
    var (width, s2) := ParseWidth(s1);
    NumberShortens(s1, 0);
    if Head(s2) == '.' {
      NumberShortens(s2[1..], 0);
    }
  }

  // ----- whole formats -----------------------------------------------------

  datatype Item = Lit(c: char) | Dir(d: Directive)

  predicate ItemOk(i: Item) { match i case Lit(c) => c != '%' && c != '\0' case Dir(d) => ConvOk(d.conv) }

  /** A format written from its items. */
  function Source(items: seq<Item>): (s: string)
  {
    if items == [] then ""
    else match items[0]
      case Lit(c) => [c] + Source(items[1..])
      case Dir(d) => "%" + Print(d, Source(items[1..]))
  }

  function FormatItems(items: seq<Item>, args: seq<Arg>): (o: Output)
    decreases |items|
  {
    if items == [] then Output("", Complete)
    else match items[0]
      case Lit(c) => Prepend([c], FormatItems(items[1..], args))
      case Dir(d) =>
        match RenderDirective(d, args)
        case None => Output("", BadArgs)
        case Some((s, args')) => Prepend(s, FormatItems(items[1..], args'))
  }

  /** For every list of literal characters and directives in canonical form, `svprintf` prints the
      literals and the rendered directives in order, taking arguments from left to right. */
  lemma {:induction false} FormatOfSource(items: seq<Item>, args: seq<Arg>)
    requires forall k :: 0 <= k < |items| ==> ItemOk(items[k])
    ensures Format(Source(items), args) == FormatItems(items, args)
    decreases |items|
  {
    hide ParseDirective, Print, RenderDirective, ConvOk;
    if items != [] {
      var rest := items[1..];
      match items[0] {
        case Lit(c) =>
          assert ([c] + Source(rest))[1..] == Source(rest);
          FormatOfSource(rest, args);
        case Dir(d) =>
          var s := Print(d, Source(rest));
          assert ("%" + s)[1..] == s;
          DirectiveUndone(d, Source(rest));
          if RenderDirective(d, args).Some? {
            FormatOfSource(rest, RenderDirective(d, args).value.1);
          }
      }
    }
  }

  // ----- when a format is unfinished ---------------------------------------

  /** Where a reader of a format is, character by character: in literal text, or inside a directive
      after the part named. */
  datatype Scan = Literal | Flagged | WidthDigits | WidthStar | Dotted | PrecisionDigits | PrecisionStar | OneH | OneL | Modified

  predicate IsFlag(c: char) { c == '#' || c == '-' || c == '0' || c == '+' || c == ' ' }

  /** From the length modifier on: anything that is none is the conversion, which ends the directive. */
  function AtLength(c: char): (q: Scan)
  {
    if c == 'h' then OneH else if c == 'l' then OneL else if c == 'z' || c == 'j' || c == 't' then Modified else Literal
  }

  function AtPrecision(c: char): (q: Scan) { if c == '.' then Dotted else AtLength(c) }

  function Reading(q: Scan, c: char): (q': Scan)
  {
    match q
    case Literal => if c == '%' then Flagged else Literal
    case Flagged =>
      if IsFlag(c) then Flagged else if c == '*' then WidthStar else if IsDigit(c) then WidthDigits else AtPrecision(c)
    case WidthDigits => if IsDigit(c) then WidthDigits else AtPrecision(c)
    case WidthStar => AtPrecision(c)
    case Dotted => if c == '*' then PrecisionStar else if IsDigit(c) then PrecisionDigits else AtLength(c)
    case PrecisionDigits => if IsDigit(c) then PrecisionDigits else AtLength(c)
    case PrecisionStar => AtLength(c)
    case OneH => if c == 'h' then Modified else Literal
    case OneL => if c == 'l' then Modified else Literal
    case Modified => Literal
  }

  function ReadFrom(q: Scan, s: string): (q': Scan)
    decreases |s|
  {
    if Head(s) == '\0' then q else ReadFrom(Reading(q, s[0]), s[1..])
  }

  /** The text ends inside the flags, width, precision or length of a directive. */
  predicate Unfinished(fmt: string) { ReadFrom(Literal, fmt) != Literal }

  lemma {:induction false} ReadFlags(s: string, f: Flags)
    ensures var t := ParseFlags(s, f).1;
            ReadFrom(Flagged, s) == ReadFrom(Flagged, t) && !IsFlag(Head(t))
    decreases |s|
  {
    if s != "" && SetFlag(s[0], f).Some? {
      ReadFlags(s[1..], SetFlag(s[0], f).value);
    }
  }

  lemma {:induction false} ScanDigits(q: Scan, s: string, n: nat)
    requires q.WidthDigits? || q.PrecisionDigits?
    ensures var t := ParseNumber(s, n).1;
            ReadFrom(q, s) == ReadFrom(q, t) && !IsDigit(Head(t))
    decreases |s|
  {
    if s != "" && IsDigit(s[0]) {
      ScanDigits(q, s[1..], n * 10 + DigitValue(s[0]));
    }
  }

  lemma ReadWidth(s: string) returns (q: Scan)
    requires !IsFlag(Head(s))
    ensures var t := ParseWidth(s).1;
            && ReadFrom(Flagged, s) == ReadFrom(q, t) && !q.Literal?
            && (Head(t) != '\0' ==> Reading(q, Head(t)) == AtPrecision(Head(t)))
  {
    hide ParseNumber;
    ScanDigits(WidthDigits, s, 0);
    q := if Head(s) == '*' then WidthStar else if IsDigit(Head(s)) then WidthDigits else Flagged;
    if IsDigit(Head(s)) {
      assert ReadFrom(Flagged, s) == ReadFrom(WidthDigits, s[1..]) == ReadFrom(WidthDigits, s);
    } else if Head(s) != '*' {
      NoDigits(s);
    }
  }

  lemma NoDigits(s: string)
    requires !IsDigit(Head(s))
    ensures ParseNumber(s, 0) == (0, s)
  {
  }

  lemma ReadPrecision(q: Scan, s: string) returns (q': Scan)
    requires !q.Literal? && (Head(s) != '\0' ==> Reading(q, Head(s)) == AtPrecision(Head(s)))
    ensures var t := ParsePrecision(s).1;
            && ReadFrom(q, s) == ReadFrom(q', t) && !q'.Literal?
            && (Head(t) != '\0' ==> Reading(q', Head(t)) == AtLength(Head(t)))
  {
    hide ParseNumber;
    q' := q;
    if Head(s) == '.' {
      var u := s[1..];
      assert ReadFrom(q, s) == ReadFrom(Dotted, u);
      ScanDigits(PrecisionDigits, u, 0);
      q' := if Head(u) == '*' then PrecisionStar else if IsDigit(Head(u)) then PrecisionDigits else Dotted;
      if IsDigit(Head(u)) {
        assert ReadFrom(Dotted, u) == ReadFrom(PrecisionDigits, u[1..]) == ReadFrom(PrecisionDigits, u);
      } else if Head(u) == '*' {
        assert ReadFrom(Dotted, u) == ReadFrom(PrecisionStar, u[1..]);
        assert u[1..] == s[2..];
      } else {
        NoDigits(u);
      }
    }
  }

  lemma ReadLength(q: Scan, s: string) returns (q': Scan)
    requires !q.Literal? && (Head(s) != '\0' ==> Reading(q, Head(s)) == AtLength(Head(s)))
    ensures var t := ParseLength(s).1;
            && ReadFrom(q, s) == ReadFrom(q', t) && !q'.Literal?
            && (Head(t) != '\0' ==> Reading(q', Head(t)) == Literal)
  {
    q' := if Head(s) == '\0' || AtLength(Head(s)).Literal? then q else AtLength(Head(s));
    if Head(s) == 'h' || Head(s) == 'l' {
      var u := s[1..];
      assert ReadFrom(q, s) == ReadFrom(q', u);
      if Head(u) == Head(s) {
        assert ReadFrom(q', u) == ReadFrom(Modified, u[1..]);
        assert u[1..] == s[2..];
        q' := Modified;
      }
    }
  }

  /** Reading character by character goes through a directive as the parser does. */
  lemma ReadDirective(s: string)
    ensures var r := ParseDirective(s);
            if r.Some? then ReadFrom(Flagged, s) == ReadFrom(Literal, r.value.1) else !ReadFrom(Flagged, s).Literal?
  {
    hide ParseFlags, ParseWidth, ParsePrecision, ParseLength;
    ReadFlags(s, PLAIN);
    var s1 := ParseFlags(s, PLAIN).1;
    var q1 := ReadWidth(s1);
    var s2 := ParseWidth(s1).1;
    var q2 := ReadPrecision(q1, s2);
    var s3 := ParsePrecision(s2).1;
    var q3 := ReadLength(q2, s3);
  }

  /** What kind of argument is taken. */
  datatype Kind = AnyWord | AnyString

  predicate Suits(k: Kind, a: Arg) { k.AnyWord? <==> a.Word? }

  predicate Suffice(ks: seq<Kind>, args: seq<Arg>) {
    |ks| <= |args| && forall i :: 0 <= i < |ks| ==> Suits(ks[i], args[i])
  }

  function StarNeeds(star: bool): (ks: seq<Kind>) { if star then [AnyWord] else [] }

  function ConversionNeeds(c: char): (ks: seq<Kind>)
  {
    if c == 's' then [AnyString] else if c in "cdiuoxXp" then [AnyWord] else []
  }

  /** The arguments a directive takes, in order. */
  function Needs(d: Directive): (ks: seq<Kind>)
  {
    StarNeeds(d.width.StarWidth?) + (StarNeeds(d.precision.StarPrecision?) + ConversionNeeds(d.conv))
  }

  /** The arguments the complete directives of a format take. */
  function Demands(fmt: string): (ks: seq<Kind>)
    decreases |fmt|
  {
    if Head(fmt) == '\0' then []
    else if fmt[0] != '%' then Demands(fmt[1..])
    else
      match ParseDirective(fmt[1..])
      case None => []
      case Some((d, rest)) =>
        ParseShortens(fmt[1..]);
        Needs(d) + Demands(rest)
  }

  lemma SufficeAppend(a: seq<Kind>, b: seq<Kind>, args: seq<Arg>)
    ensures Suffice(a + b, args) <==> Suffice(a, args) && Suffice(b, args[|a|..])
  {
    var ks := a + b;
    if Suffice(ks, args) {
      forall i | 0 <= i < |a|
        ensures Suits(a[i], args[i])
      {
        assert Suits(ks[i], args[i]);
      }
      forall i | 0 <= i < |b|
        ensures Suits(b[i], args[|a|..][i])
      {
        assert Suits(ks[|a| + i], args[|a| + i]);
      }
    }
    if Suffice(a, args) && Suffice(b, args[|a|..]) {
      forall i | 0 <= i < |ks|
        ensures Suits(ks[i], args[i])
      {
        if i >= |a| {
          assert Suits(b[i - |a|], args[|a|..][i - |a|]);
        }
      }
    }
  }

  /** A directive renders if and only if its arguments are there, and leaves the rest. */
  lemma RenderNeeds(d: Directive, args: seq<Arg>)
    ensures RenderDirective(d, args).Some? <==> Suffice(Needs(d), args)
    ensures RenderDirective(d, args).Some? ==> RenderDirective(d, args).value.1 == args[|Needs(d)|..]
  {
    hide Render, Suffice, ConversionNeeds;
    var w, p, c := StarNeeds(d.width.StarWidth?), StarNeeds(d.precision.StarPrecision?), ConversionNeeds(d.conv);
    WidthNeeds(d, args);
    SufficeAppend(w, p + c, args);
    if Suffice(w, args) {
      SufficeLength(w, args);
      var rest := args[|w|..];
      PrecisionNeeds(d.precision, rest);
      SufficeAppend(p, c, rest);
      if Suffice(p, rest) {
        SufficeLength(p, rest);
        var f := TakeStars(d, args).value.0;
        assert TakeStars(d, args) == Some((f, rest[|p|..]));
        FieldNeeds(f, rest[|p|..]);
        if Suffice(c, rest[|p|..]) {
          SufficeLength(c, rest[|p|..]);
          assert rest[|p|..][|c|..] == args[|Needs(d)|..];
        }
      }
    }
  }

  lemma SufficeLength(ks: seq<Kind>, args: seq<Arg>)
    requires Suffice(ks, args)
    ensures |ks| <= |args|
  {
  }

  lemma WidthNeeds(d: Directive, args: seq<Arg>)
    ensures var w := StarNeeds(d.width.StarWidth?);
            && (TakeWidth(d, args).Some? <==> Suffice(w, args))
            && (TakeWidth(d, args).Some? ==> TakeWidth(d, args).value.2 == args[|w|..])
  {
    hide Signed;
  }

  lemma PrecisionNeeds(p: Precision, args: seq<Arg>)
    ensures var w := StarNeeds(p.StarPrecision?);
            && (TakePrecision(p, args).Some? <==> Suffice(w, args))
            && (TakePrecision(p, args).Some? ==> TakePrecision(p, args).value.1 == args[|w|..])
  {
    hide Signed;
  }

  lemma FieldNeeds(f: Field, args: seq<Arg>)
    ensures var c := ConversionNeeds(f.conv);
            && (Render(f, args).Some? <==> Suffice(c, args))
            && (Render(f, args).Some? ==> Render(f, args).value.1 == args[|c|..])
  {
    hide Signed, Unsigned, UintText, IntText, StringText, CharText;
  }

  /** How formatting ends, for every format and every list of arguments, told from the two alone: an
      argument is missing or of the wrong kind, or the source runs past the terminator, exactly when all
      arguments suffice and the text is unfinished, or it is complete. */
  lemma {:induction false} EndingIff(fmt: string, args: seq<Arg>)
    ensures Format(fmt, args).ending ==
            if !Suffice(Demands(fmt), args) then BadArgs else if Unfinished(fmt) then Overrun else Complete
    decreases |fmt|
  {
    hide ParseDirective, RenderDirective, Needs, Suffice;
    NothingNeeded(args);
    if Head(fmt) == '\0' {
    } else if fmt[0] != '%' {
      EndingIff(fmt[1..], args);
    } else {
      ReadDirective(fmt[1..]);
      ParseShortens(fmt[1..]);
      var r := ParseDirective(fmt[1..]);
      if r.Some? {
        var (d, rest) := r.value;
        RenderNeeds(d, args);
        SufficeAppend(Needs(d), Demands(rest), args);
        if Suffice(Needs(d), args) {
          EndingIff(rest, RenderDirective(d, args).value.1);
        }
      }
    }
  }

  lemma NothingNeeded(args: seq<Arg>)
    ensures Suffice([], args)
  {
  }

  /** An input that overruns: a lone `%`, whatever the arguments. */
  lemma LonePercentOverruns(args: seq<Arg>)
    ensures Unfinished("%") && Demands("%") == [] && Format("%", args) == Output("%", Overrun)
  {
    assert "%"[1..] == "" && ParseDirective("").None?;
  }

  // ----- the scanning loops ------------------------------------------------

  /** The flag loop. */
  method ScanFlags(s: string, start: nat) returns (f: Flags, p: nat)
    requires start <= |s|
    ensures start <= p <= |s| && ParseFlags(s[start..], PLAIN) == (f, s[p..])
  {
    f, p := PLAIN, start;
    var scanning := p < |s|;
    while scanning
      invariant start <= p <= |s| && (scanning ==> p < |s|)
      invariant ParseFlags(s[start..], PLAIN) == ParseFlags(s[p..], f)
      invariant !scanning ==> ParseFlags(s[p..], f) == (f, s[p..])
      decreases |s| - p, scanning
    {
      assert s[p..][0] == s[p] && s[p..][1..] == s[p + 1..];
      var next := SetFlag(s[p], f);
      if next.Some? {
        f, p := next.value, p + 1;
        scanning := p < |s|;
      } else {
        scanning := false;
      }
    }
  }

  /** The digit loops of width and precision. */
  method ScanNumber(s: string, start: nat) returns (n: nat, p: nat)
    requires start <= |s|
    ensures start <= p <= |s| && ParseNumber(s[start..], 0) == (n, s[p..])
  {
    n, p := 0, start;
    while p < |s| && IsDigit(s[p])
      invariant start <= p <= |s|
      invariant ParseNumber(s[start..], 0) == ParseNumber(s[p..], n)
    {
      assert s[p..][0] == s[p] && s[p..][1..] == s[p + 1..];
      n := n * 10 + DigitValue(s[p]);
      p := p + 1;
    }
  }

  method ScanWidth(s: string, start: nat) returns (w: Width, p: nat)
    requires start <= |s|
    ensures start <= p <= |s| && ParseWidth(s[start..]) == (w, s[p..])
  {
    hide ParseNumber;
    p := start;
    if p < |s| && s[p] == '*' {
      w, p := StarWidth, p + 1;
    } else {
      var n;
      n, p := ScanNumber(s, p);
      w := Columns(n);
    }
  }

  method ScanPrecision(s: string, start: nat) returns (r: Precision, p: nat)
    requires start <= |s|
    ensures start <= p <= |s| && ParsePrecision(s[start..]) == (r, s[p..])
  {
    hide ParseNumber;
    r, p := Unlimited, start;
    if p < |s| && s[p] == '.' {
      p := p + 1;
      assert s[start..][1..] == s[p..];
      if p < |s| && s[p] == '*' {
        assert s[start..][2..] == s[p + 1..];
        r, p := StarPrecision, p + 1;
      } else {
        var n;
        n, p := ScanNumber(s, p);
        r := Exact(n);
      }
    }
  }

  /** One directive, scanned in place from just after its `%`; `ok` is false if the format ends inside it. */
  method ScanDirective(s: string, start: nat) returns (ok: bool, d: Directive, p: nat)
    requires start <= |s|
    ensures ok == ParseDirective(s[start..]).Some?
    ensures ok ==> start < p <= |s| && ParseDirective(s[start..]) == Some((d, s[p..]))
  {
    hide ParseFlags, ParseWidth, ParsePrecision, ParseLength;
    var flags;
    flags, p := ScanFlags(s, start);
    var width, precision;
    width, p := ScanWidth(s, p);
    precision, p := ScanPrecision(s, p);
    var length;
    length, p := ScanLength(s, p);
    ok := p < |s| && s[p] != '\0';
    d := Directive(flags, width, precision, length, if ok then s[p] else '\0');
    if ok {
      assert s[p..][1..] == s[p + 1..];
      p := p + 1;
    }
  }

  method ScanLength(s: string, start: nat) returns (l: Length, p: nat)
    requires start <= |s|
    ensures start <= p <= |s| && ParseLength(s[start..]) == (l, s[p..])
  {
    l, p := Default, start;
    if p < |s| {
      ghost var t := s[p..];
      assert t[0] == s[p] && t[1..] == s[p + 1..] && (p + 1 < |s| ==> t[2..] == s[p + 2..]);
      match s[p] {
        case 'h' =>
          if p + 1 < |s| && s[p + 1] == 'h' { l, p := HH, p + 2; } else { l, p := H, p + 1; }
        case 'l' =>
          if p + 1 < |s| && s[p + 1] == 'l' { l, p := LL, p + 2; } else { l, p := L, p + 1; }
        case 'z' => l, p := Z, p + 1;
        case 'j' => l, p := J, p + 1;
        case 't' => l, p := T, p + 1;
        case _ =>
      }
    }
  }

  /** `svprintf`: the main loop. */
  method Svprintf(fmt: string, args: seq<Arg>) returns (o: Output)
    ensures o == Format(fmt, args)
  {
    hide ParseDirective, RenderDirective;
    var p: nat := 0;
    var out := "";
    var left := args;
    assert fmt[0..] == fmt;
    while p < |fmt| && fmt[p] != '\0'
      invariant p <= |fmt|
      invariant Format(fmt, args) == Prepend(out, Format(fmt[p..], left))
      decreases |fmt| - p
    {
      ghost var t := fmt[p..];
      assert t[0] == fmt[p] && t[1..] == fmt[p + 1..];
      if fmt[p] != '%' {
        PrependPrepend(out, [fmt[p]], Format(fmt[p + 1..], left));
        out := out + [fmt[p]];
        p := p + 1;
      } else {
        var ok, d, q := ScanDirective(fmt, p + 1);
        if !ok {
          return Output(out + "%", Overrun);
        }
        var r := RenderDirective(d, left);
        if r.None? {
          return Output(out + "", BadArgs);
        }
        PrependPrepend(out, r.value.0, Format(fmt[q..], r.value.1));
        out := out + r.value.0;
        left := r.value.1;
        p := q;
      }
    }
    assert out + "" == out;
    o := Output(out, Complete);
  }

  lemma PrependPrepend(a: string, b: string, o: Output)
    ensures Prepend(a, Prepend(b, o)) == Prepend(a + b, o)
  {
    assert a + (b + o.s) == (a + b) + o.s;
  }
}
