/** The d3-format specifier `[[fill]align][sign][symbol][0][width][,][.precision][~][type]`
    as the chart configuration panel reads and writes it: `compileD3Format` parses a
    specifier into options and `stringifyD3Format` prints options back.

    The parser is a regular expression made of a lazy `[\s\S]*?` fill group followed by
    optional single components, applied with `String.prototype.match` (not anchored,
    case-insensitive). Because every component is optional and the fill group is lazy,
    the first match always starts at offset 0 with an empty fill and takes each later
    component greedily when the next character allows it; that is the scanner below.
    Such a match always exists, so the parser's error branch is never taken. */
module D3Format {
  import opened Wrappers
  import opened Text

  /** `D3FormatAlign` */
  datatype Align = Right | Left | Center | Between

  function AlignChar(a: Align): char {
    match a
    case Right => '>'
    case Left => '<'
    case Center => '^'
    case Between => '='
  }

  /** `[<>^=]` */
  predicate IsAlignChar(c: char) {
    c == '<' || c == '>' || c == '^' || c == '='
  }

  function AlignOf(c: char): (a: Align)
    requires IsAlignChar(c)
    ensures AlignChar(a) == c
  {
    if c == '>' then Right else if c == '<' then Left else if c == '^' then Center else Between
  }

  lemma AlignOfAlignChar(a: Align)
    ensures AlignOf(AlignChar(a)) == a
  {
  }

  /** `D3FormatSign` */
  datatype Sign = Minus | Plus | Parentheses | Space

  function SignChar(s: Sign): char {
    match s
    case Minus => '-'
    case Plus => '+'
    case Parentheses => '('
    case Space => ' '
  }

  /** `[-+ ]`: the parser's sign class, which leaves out `(`. */
  predicate IsSignChar(c: char) {
    c == '-' || c == '+' || c == ' '
  }

  function SignOf(c: char): (s: Sign)
    requires IsSignChar(c)
    ensures SignChar(s) == c && s != Parentheses
  {
    if c == '-' then Minus else if c == '+' then Plus else Space
  }

  /** `D3FormatSymbol` (`$` and `#b`), plus `Hash`: the bare `#` that the parser's
      class `[$#]` yields, which is not a member of the enumeration. */
  datatype Symbol = Currency | Binary | Hash

  function SymbolString(s: Symbol): string {
    match s
    case Currency => "$"
    case Binary => "#b"
    case Hash => "#"
  }

  /** `[$#]` */
  predicate IsSymbolChar(c: char) {
    c == '$' || c == '#'
  }

  function SymbolOf(c: char): (s: Symbol)
    requires IsSymbolChar(c)
    ensures SymbolString(s) == [c]
  {
    if c == '$' then Currency else Hash
  }

  /** `D3FormatType`; `NoneType` is the member `None` (the empty string), and
      `Other(c)` is any other letter that the case-insensitive class `[a-z%]`
      accepts and the source casts to the enumeration unchecked. */
  datatype FormatType =
    | NoneType | Nice | Exponent | FixedPoint | DecimalOrExponent | Decimal
    | DecimalWithSIPrefix | Percent | PercentWithSignificantDigits | Binary | Octal
    | Decimal2 | Hexadecimal | Hexadecimal2 | Character | Other(c: char)

  function TypeString(t: FormatType): string {
    match t
    case NoneType => ""
    case Nice => "n"
    case Exponent => "e"
    case FixedPoint => "f"
    case DecimalOrExponent => "g"
    case Decimal => "r"
    case DecimalWithSIPrefix => "s"
    case Percent => "%"
    case PercentWithSignificantDigits => "p"
    case Binary => "b"
    case Octal => "o"
    case Decimal2 => "d"
    case Hexadecimal => "x"
    case Hexadecimal2 => "X"
    case Character => "c"
    case Other(c) => [c]
  }

  /** `[a-z%]` under the `i` flag */
  predicate IsTypeChar(c: char) {
    IsAsciiLetter(c) || c == '%'
  }

  /** The `type as D3FormatType` cast of a matched type character. */
  function TypeOf(c: char): (t: FormatType)
    ensures TypeString(t) == [c]
  {
    if c == 'n' then Nice
    else if c == 'e' then Exponent
    else if c == 'f' then FixedPoint
    else if c == 'g' then DecimalOrExponent
    else if c == 'r' then Decimal
    else if c == 's' then DecimalWithSIPrefix
    else if c == '%' then Percent
    else if c == 'p' then PercentWithSignificantDigits
    else if c == 'b' then FormatType.Binary
    else if c == 'o' then Octal
    else if c == 'd' then Decimal2
    else if c == 'x' then Hexadecimal
    else if c == 'X' then Hexadecimal2
    else if c == 'c' then Character
    else Other(c)
  }

  /** A type the parser can produce: an `Other` letter is one outside the enumeration. */
  predicate ValidType(t: FormatType) {
    t.Other? ==> IsTypeChar(t.c) && TypeOf(t.c) == t
  }

  /** The `fill` object of `D3FormatOptions`; an absent `fillString` prints as "". */
  datatype Fill = Fill(fillString: string, align: Align)

  /** `D3FormatOptions`; an absent `groupSeparator` or `trimTrailingZero` prints like
      `false`, and precision is a whole number of digits. */
  datatype FormatOptions = FormatOptions(
    fill: Option<Fill>,
    sign: Option<Sign>,
    symbol: Option<Symbol>,
    precision: Option<nat>,
    groupSeparator: bool,
    trimTrailingZero: bool,
    formatType: FormatType)

  /** The printed type is empty for `NoneType` and otherwise the one character the
      parser maps back to the same type. */
  lemma TypeStringShape(t: FormatType)
    requires ValidType(t)
    ensures t == NoneType <==> TypeString(t) == ""
    ensures t != NoneType ==> |TypeString(t)| == 1 && IsTypeChar(TypeString(t)[0]) && TypeOf(TypeString(t)[0]) == t
  {
  }

  // ---------------------------------------------------------------- stringify

  function FillString(o: FormatOptions): string {
    if o.fill.Some? then o.fill.value.fillString else ""
  }

  function AlignString(o: FormatOptions): string {
    if o.fill.Some? then [AlignChar(o.fill.value.align)] else ""
  }

  function SignString(o: FormatOptions): string {
    if o.sign.Some? then [SignChar(o.sign.value)] else ""
  }

  function SymbolStringOf(o: FormatOptions): string {
    if o.symbol.Some? then SymbolString(o.symbol.value) else ""
  }

  function GroupSeparatorString(o: FormatOptions): string {
    if o.groupSeparator then "," else ""
  }

  function PrecisionString(o: FormatOptions): string {
    if o.precision.Some? then "." + NatToString(o.precision.value) else ""
  }

  function TrimString(o: FormatOptions): string {
    if o.trimTrailingZero then "~" else ""
  }

  /** The printed components from `~` on, from `.precision` on, and so forth: each
      suffix of the printed tail. The zero and width components are always empty. */
  function FromTrim(o: FormatOptions): string {
    TrimString(o) + TypeString(o.formatType)
  }

  function FromPrecision(o: FormatOptions): string {
    PrecisionString(o) + FromTrim(o)
  }

  function FromGroupSeparator(o: FormatOptions): string {
    GroupSeparatorString(o) + FromPrecision(o)
  }

  function FromSymbol(o: FormatOptions): string {
    SymbolStringOf(o) + FromGroupSeparator(o)
  }

  /** Everything after fill and align. */
  function TailString(o: FormatOptions): string {
    SignString(o) + FromSymbol(o)
  }

  /** `stringifyD3Format` */
  function StringifyD3Format(o: FormatOptions): string {
    FillString(o) + AlignString(o) + TailString(o)
  }

  /** The characters a printed tail is made of. */
  predicate TailChar(c: char) {
    IsSignChar(c) || IsSymbolChar(c) || c == ',' || c == '.' || IsDigit(c) || c == '~' || IsTypeChar(c)
  }

  predicate TailChars(s: string) {
    forall i :: 0 <= i < |s| ==> TailChar(s[i])
  }

  lemma TailCharsAppend(a: string, b: string)
    requires TailChars(a) && TailChars(b)
    ensures TailChars(a + b)
  {
    forall i | 0 <= i < |a + b|
      ensures TailChar((a + b)[i])
    {
      if i >= |a| {
        assert (a + b)[i] == b[i - |a|];
      }
    }
  }

  /** No character of a printed tail can be taken for an align character. */
  lemma TailStringChars(o: FormatOptions)
    requires o.sign != Some(Parentheses) && o.symbol != Some(Symbol.Binary) && ValidType(o.formatType)
    ensures TailChars(TailString(o))
  {
    TypeStringShape(o.formatType);
    TailCharsAppend(TrimString(o), TypeString(o.formatType));
    TailCharsAppend(PrecisionString(o), FromTrim(o));
    TailCharsAppend(GroupSeparatorString(o), FromPrecision(o));
    TailCharsAppend(SymbolStringOf(o), FromGroupSeparator(o));
    TailCharsAppend(SignString(o), FromSymbol(o));
  }

  /** Which flags the printed text shows: with a fill string that does not use the
      character itself, `,` appears exactly when digit grouping is on, `~` exactly when
      trailing zeros are trimmed and `.` exactly when a precision is set. */
  lemma StringifyShowsFlags(o: FormatOptions)
    requires ValidType(o.formatType)
    ensures ',' !in FillString(o) ==> (',' in StringifyD3Format(o) <==> o.groupSeparator)
    ensures '~' !in FillString(o) ==> ('~' in StringifyD3Format(o) <==> o.trimTrailingZero)
    ensures '.' !in FillString(o) ==> ('.' in StringifyD3Format(o) <==> o.precision.Some?)
  {
    TypeStringShape(o.formatType);
    var digits := NatToString(if o.precision.Some? then o.precision.value else 0);
    assert forall c :: c in digits ==> IsDigit(c);
    assert ',' !in AlignString(o) && '~' !in AlignString(o) && '.' !in AlignString(o);
    assert ',' !in SignString(o) && '~' !in SignString(o) && '.' !in SignString(o);
    assert ',' !in SymbolStringOf(o) && '~' !in SymbolStringOf(o) && '.' !in SymbolStringOf(o);
    assert ',' !in TypeString(o.formatType) && '~' !in TypeString(o.formatType) && '.' !in TypeString(o.formatType);
    assert ',' !in PrecisionString(o) && '~' !in PrecisionString(o);
    assert '.' in PrecisionString(o) <==> o.precision.Some?;
  }

  // ---------------------------------------------------------------- the scanner

  /** One optional single-character component `(x)?` at the front of `s`. */
  function TakeOne(s: string, p: char -> bool): (Option<char>, string) {
    if |s| > 0 && p(s[0]) then (Some(s[0]), s[1..]) else (None, s)
  }

  /** The longest run of digits at the front of `s`: a greedy `\d+`, or nothing. */
  function DigitRun(s: string): (d: string)
    ensures AllDigits(d) && d <= s
    ensures |d| < |s| ==> !IsDigit(s[|d|])
  {
    if |s| > 0 && IsDigit(s[0]) then [s[0]] + DigitRun(s[1..]) else ""
  }

  predicate IsZeroChar(c: char) { c == '0' }
  predicate IsCommaChar(c: char) { c == ',' }
  predicate IsTildeChar(c: char) { c == '~' }

  /** The groups after fill and align; `precision` holds the digits after the `.`. */
  datatype Tail = Tail(
    sign: Option<char>,
    symbol: Option<char>,
    zero: bool,
    width: string,
    groupSeparator: bool,
    precision: Option<string>,
    trimTrailingZero: bool,
    typeChar: Option<char>)

  predicate ValidTail(t: Tail) {
    && (t.sign.Some? ==> IsSignChar(t.sign.value))
    && (t.symbol.Some? ==> IsSymbolChar(t.symbol.value))
    && (t.precision.Some? ==> |t.precision.value| > 0 && AllDigits(t.precision.value))
    && (t.typeChar.Some? ==> IsTypeChar(t.typeChar.value))
  }

  /** `(?<trimTrailingZero>~)?(?<type>[a-z%])?` */
  function ScanTrim(s: string): (t: Tail)
    ensures ValidTail(t)
    ensures t.trimTrailingZero <==> |s| > 0 && s[0] == '~'
    ensures var s1 := if t.trimTrailingZero then s[1..] else s;
      t.typeChar == if |s1| > 0 && IsTypeChar(s1[0]) then Some(s1[0]) else None
  {
    var (tilde, s1) := TakeOne(s, IsTildeChar);
    var (typeChar, _) := TakeOne(s1, IsTypeChar);
    Tail(None, None, false, "", false, None, tilde.Some?, typeChar)
  }

  /** `(?<precision>\.\d+)?` and on */
  function ScanPrecision(s: string): (t: Tail)
    ensures ValidTail(t)
    ensures t.precision.Some? <==> |s| >= 2 && s[0] == '.' && IsDigit(s[1])
    ensures t.precision.Some? ==> t.precision.value == DigitRun(s[1..])
  {
    if |s| >= 2 && s[0] == '.' && IsDigit(s[1]) then
      var d := DigitRun(s[1..]);
      ScanTrim(s[1 + |d|..]).(precision := Some(d))
    else
      ScanTrim(s)
  }

  /** `(?<groupSeparator>,)?` and on */
  function ScanGroupSeparator(s: string): (t: Tail)
    ensures ValidTail(t)
    ensures t.groupSeparator <==> |s| > 0 && s[0] == ','
  {
    var (comma, s1) := TakeOne(s, IsCommaChar);
    ScanPrecision(s1).(groupSeparator := comma.Some?)
  }

  /** `(?<zero>0)?(?<width>\d+)?` and on */
  function ScanZero(s: string): (t: Tail)
    ensures ValidTail(t)
    ensures t.zero <==> |s| > 0 && s[0] == '0'
    ensures t.width == DigitRun(if t.zero then s[1..] else s)
  {
    var (zero, s1) := TakeOne(s, IsZeroChar);
    var width := DigitRun(s1);
    ScanGroupSeparator(s1[|width|..]).(zero := zero.Some?, width := width)
  }

  /** `(?<sign>[-+ ])?(?<symbol>[$#])?` and on: every group after fill and align. */
  function ScanTail(s: string): (t: Tail)
    ensures ValidTail(t)
    ensures t.sign == if |s| > 0 && IsSignChar(s[0]) then Some(s[0]) else None
  {
    var (sign, s1) := TakeOne(s, IsSignChar);
    var (symbol, s2) := TakeOne(s1, IsSymbolChar);
    ScanZero(s2).(sign := sign, symbol := symbol)
  }

  /** The named groups of the match. */
  datatype Groups = Groups(fill: string, align: Option<char>, tail: Tail)

  predicate ValidGroups(g: Groups) {
    (g.align.Some? ==> IsAlignChar(g.align.value)) && ValidTail(g.tail)
  }

  /** The match of the source's pattern: the lazy fill group stays empty, so an
      align character is recognised only as the very first character. */
  function ScanD3Format(raw: string): (g: Groups)
    ensures ValidGroups(g) && g.fill == ""
    ensures g.align.Some? <==> |raw| > 0 && IsAlignChar(raw[0])
  {
    var (align, rest) := TakeOne(raw, IsAlignChar);
    Groups("", align, ScanTail(rest))
  }

  /** The object that `compileD3Format` builds from the groups. */
  function OptionsOf(g: Groups): FormatOptions
    requires ValidGroups(g)
  {
    var t := g.tail;
    FormatOptions(
      if g.align.Some? then Some(Fill(g.fill, AlignOf(g.align.value))) else None,
      if t.sign.Some? then Some(SignOf(t.sign.value)) else None,
      if t.symbol.Some? then Some(SymbolOf(t.symbol.value)) else None,
      if t.precision.Some? then Some(DigitsValue(t.precision.value)) else None,
      t.groupSeparator,
      t.trimTrailingZero,
      if t.typeChar.Some? then TypeOf(t.typeChar.value) else NoneType)
  }

  /** The options built from any match: the fill carries the fill group, and the
      sign, symbol and type are ones the parser can yield. */
  lemma OptionsOfShape(g: Groups)
    requires ValidGroups(g)
    ensures var o := OptionsOf(g);
      && (o.fill.Some? <==> g.align.Some?)
      && (o.fill.Some? ==> o.fill.value == Fill(g.fill, AlignOf(g.align.value)))
      && o.sign != Some(Parentheses) && o.symbol != Some(Symbol.Binary) && ValidType(o.formatType)
  {
  }

  /** Options that print and parse back unchanged: no fill string, a sign the parser's
      class accepts, no two-character `#b` symbol, a type the parser can produce. */
  predicate Canonical(o: FormatOptions) {
    && (o.fill.Some? ==> o.fill.value.fillString == "")
    && o.sign != Some(Parentheses)
    && o.symbol != Some(Symbol.Binary)
    && ValidType(o.formatType)
  }

  /** `compileD3Format`, as written. */
  function CompileD3Format(raw: string): (o: FormatOptions)
    ensures o.fill.Some? <==> |raw| > 0 && IsAlignChar(raw[0])
    ensures o.fill.Some? ==> o.fill.value == Fill("", AlignOf(raw[0]))
    ensures Canonical(o)
  {
    var g := ScanD3Format(raw);
    OptionsOfShape(g);
    OptionsOf(g)
  }

  // ---------------------------------------------------------------- round trip

  lemma {:induction false} DigitRunOfDigits(d: string, rest: string)
    requires AllDigits(d)
    requires |rest| == 0 || !IsDigit(rest[0])
    ensures DigitRun(d + rest) == d
    decreases |d|
  {
    if |d| > 0 {
      assert (d + rest)[1..] == d[1..] + rest;
      DigitRunOfDigits(d[1..], rest);
      assert [d[0]] + d[1..] == d;
    } else {
      assert d + rest == rest;
    }
  }

  /** The type a set of options prints, as the scanner's `type` group. */
  function TypeGroup(o: FormatOptions): Option<char>
    requires ValidType(o.formatType)
  {
    TypeStringShape(o.formatType);
    if o.formatType == NoneType then None else Some(TypeString(o.formatType)[0])
  }

  lemma ScanFromTrim(o: FormatOptions)
    requires ValidType(o.formatType)
    ensures ScanTrim(FromTrim(o)) == Tail(None, None, false, "", false, None, o.trimTrailingZero, TypeGroup(o))
  {
    TypeStringShape(o.formatType);
    var s := FromTrim(o);
    if o.trimTrailingZero {
      assert s[1..] == TypeString(o.formatType);
    }
  }

  lemma ScanFromPrecision(o: FormatOptions)
    requires ValidType(o.formatType)
    ensures ScanPrecision(FromPrecision(o)) == Tail(None, None, false, "", false,
      if o.precision.Some? then Some(NatToString(o.precision.value)) else None,
      o.trimTrailingZero, TypeGroup(o))
  {
    TypeStringShape(o.formatType);
    ScanFromTrim(o);
    var s := FromPrecision(o);
    var rest := FromTrim(o);
    assert |rest| > 0 ==> rest[0] == '~' || IsTypeChar(rest[0]);
    if o.precision.Some? {
      var d := NatToString(o.precision.value);
      assert s == "." + (d + rest);
      assert s[1..] == d + rest;
      DigitRunOfDigits(d, rest);
      assert s[1 + |d|..] == rest;
    }
  }

  lemma ScanFromGroupSeparator(o: FormatOptions)
    requires ValidType(o.formatType)
    ensures ScanGroupSeparator(FromGroupSeparator(o)) == Tail(None, None, false, "", o.groupSeparator,
      if o.precision.Some? then Some(NatToString(o.precision.value)) else None,
      o.trimTrailingZero, TypeGroup(o))
  {
    TypeStringShape(o.formatType);
    ScanFromPrecision(o);
    var s := FromGroupSeparator(o);
    var rest := FromPrecision(o);
    assert |rest| > 0 ==> rest[0] == '.' || rest[0] == '~' || IsTypeChar(rest[0]);
    assert TakeOne(s, IsCommaChar) == (if o.groupSeparator then Some(',') else None, rest) by {
      if o.groupSeparator {
        assert s[1..] == rest;
      } else {
        assert s == rest;
      }
    }
  }

  lemma ScanZeroOfFromGroupSeparator(o: FormatOptions)
    requires ValidType(o.formatType)
    ensures ScanZero(FromGroupSeparator(o)) == ScanGroupSeparator(FromGroupSeparator(o))
  {
    FirstOfFromGroupSeparator(o);
    ScanZeroWithoutDigit(FromGroupSeparator(o));
  }

  /** Without a leading digit there is no zero flag and no width. */
  lemma ScanZeroWithoutDigit(s: string)
    requires |s| == 0 || !IsDigit(s[0])
    ensures ScanZero(s) == ScanGroupSeparator(s)
  {
    assert TakeOne(s, IsZeroChar) == (None, s);
    assert DigitRun(s) == "";
    assert s[0..] == s;
    var t := ScanGroupSeparator(s);
    assert !t.zero && t.width == "" by {
      var (comma, s1) := TakeOne(s, IsCommaChar);
      var p := ScanPrecision(s1);
      assert !p.zero && p.width == "";
    }
  }

  /** The groups that the printed tail of `o` consists of. */
  function PrintedTail(o: FormatOptions): Tail
    requires ValidType(o.formatType)
  {
    Tail(
      if o.sign.Some? then Some(SignChar(o.sign.value)) else None,
      if o.symbol.Some? then Some(SymbolString(o.symbol.value)[0]) else None,
      false, "",
      o.groupSeparator,
      if o.precision.Some? then Some(NatToString(o.precision.value)) else None,
      o.trimTrailingZero,
      TypeGroup(o))
  }

  /** The scanner reads the printed tail back group by group; in particular it
      finds no zero flag and no width. */
  lemma ScanTailOfTailString(o: FormatOptions)
    requires o.sign != Some(Parentheses) && o.symbol != Some(Symbol.Binary) && ValidType(o.formatType)
    ensures ScanTail(TailString(o)) == PrintedTail(o)
  {
    var sign := if o.sign.Some? then Some(SignChar(o.sign.value)) else None;
    var symbol := if o.symbol.Some? then Some(SymbolString(o.symbol.value)[0]) else None;
    TakeSign(o);
    TakeSymbol(o);
    assert ScanTail(TailString(o)) == ScanZero(FromGroupSeparator(o)).(sign := sign, symbol := symbol);
    ScanFromGroupSeparator(o);
    ScanZeroOfFromGroupSeparator(o);
  }

  /** The sign group takes the printed sign, if any. */
  lemma TakeSign(o: FormatOptions)
    requires o.sign != Some(Parentheses) && o.symbol != Some(Symbol.Binary) && ValidType(o.formatType)
    ensures TakeOne(TailString(o), IsSignChar)
      == (if o.sign.Some? then Some(SignChar(o.sign.value)) else None, FromSymbol(o))
  {
    FirstOfFromSymbol(o);
    var s0 := TailString(o);
    if o.sign.Some? {
      assert s0[0] == SignChar(o.sign.value) && s0[1..] == FromSymbol(o);
    } else {
      assert s0 == FromSymbol(o);
    }
  }

  /** The symbol group takes the first character of the printed symbol, if any. */
  lemma TakeSymbol(o: FormatOptions)
    requires o.symbol != Some(Symbol.Binary) && ValidType(o.formatType)
    ensures TakeOne(FromSymbol(o), IsSymbolChar)
      == (if o.symbol.Some? then Some(SymbolString(o.symbol.value)[0]) else None, FromGroupSeparator(o))
  {
    FirstOfFromGroupSeparator(o);
    var s1 := FromSymbol(o);
    if o.symbol.Some? {
      assert s1[1..] == FromGroupSeparator(o);
    } else {
      assert s1 == FromGroupSeparator(o);
    }
  }

  lemma FirstOfFromGroupSeparator(o: FormatOptions)
    requires ValidType(o.formatType)
    ensures var s := FromGroupSeparator(o);
      |s| > 0 ==> s[0] == ',' || s[0] == '.' || s[0] == '~' || IsTypeChar(s[0])
  {
    TypeStringShape(o.formatType);
  }

  lemma FirstOfFromSymbol(o: FormatOptions)
    requires o.symbol != Some(Symbol.Binary) && ValidType(o.formatType)
    ensures var s := FromSymbol(o);
      |s| > 0 ==> IsSymbolChar(s[0]) || s[0] == ',' || s[0] == '.' || s[0] == '~' || IsTypeChar(s[0])
  {
    FirstOfFromGroupSeparator(o);
  }

  /** The type group of a printed type reads back as that type. */
  lemma TypeOfTypeGroup(o: FormatOptions)
    requires ValidType(o.formatType)
    ensures (if TypeGroup(o).Some? then TypeOf(TypeGroup(o).value) else NoneType) == o.formatType
  {
    TypeStringShape(o.formatType);
  }

  /** Parsing the printed tail recovers the tail's options. */
  lemma OptionsOfTail(o: FormatOptions, fill: string, align: Option<char>)
    requires o.sign != Some(Parentheses) && o.symbol != Some(Symbol.Binary) && ValidType(o.formatType)
    requires align.Some? ==> IsAlignChar(align.value)
    ensures OptionsOf(Groups(fill, align, ScanTail(TailString(o))))
      == o.(fill := if align.Some? then Some(Fill(fill, AlignOf(align.value))) else None)
  {
    ScanTailOfTailString(o);
    OptionsOfPrintedTail(o, fill, align);
  }

  lemma OptionsOfPrintedTail(o: FormatOptions, fill: string, align: Option<char>)
    requires o.sign != Some(Parentheses) && o.symbol != Some(Symbol.Binary) && ValidType(o.formatType)
    requires align.Some? ==> IsAlignChar(align.value)
    ensures ValidGroups(Groups(fill, align, PrintedTail(o)))
    ensures OptionsOf(Groups(fill, align, PrintedTail(o)))
      == o.(fill := if align.Some? then Some(Fill(fill, AlignOf(align.value))) else None)
  {
    var t := PrintedTail(o);
    assert ValidTail(t) by {
      TypeStringShape(o.formatType);
    }
    var r := OptionsOf(Groups(fill, align, t));
    assert r.sign == o.sign;
    assert r.symbol == o.symbol by {
      if o.symbol.Some? {
        assert SymbolOf(SymbolString(o.symbol.value)[0]) == o.symbol.value;
      }
    }
    assert r.precision == o.precision by {
      if o.precision.Some? {
        DigitsValueOfNatToString(o.precision.value);
      }
    }
    assert r.formatType == o.formatType by {
      TypeOfTypeGroup(o);
    }
  }

  /** Neither of the first two characters of a printed tail is an align character. */
  lemma TailStartsWithoutAlign(o: FormatOptions)
    requires o.sign != Some(Parentheses) && o.symbol != Some(Symbol.Binary) && ValidType(o.formatType)
    ensures var t := TailString(o);
      (|t| == 0 || !IsAlignChar(t[0])) && (|t| <= 1 || !IsAlignChar(t[1]))
  {
    TailStringChars(o);
    var t := TailString(o);
    assert |t| > 0 ==> TailChar(t[0]);
    assert |t| > 1 ==> TailChar(t[1]);
  }

  lemma ScanWithoutAlign(fill: string, align: string, tail: string)
    requires fill == "" && align == ""
    requires |tail| == 0 || !IsAlignChar(tail[0])
    ensures ScanD3Format(fill + align + tail) == Groups("", None, ScanTail(tail))
  {
    assert fill + align + tail == tail;
  }

  lemma ScanWithAlign(fill: string, align: string, tail: string)
    requires fill == "" && |align| == 1 && IsAlignChar(align[0])
    ensures ScanD3Format(fill + align + tail) == Groups("", Some(align[0]), ScanTail(tail))
  {
    var raw := fill + align + tail;
    assert raw[0] == align[0] && raw[1..] == tail;
  }

  /** The round trip for options without alignment. */
  lemma RoundTripUnaligned(o: FormatOptions)
    requires Canonical(o) && o.fill.None?
    ensures CompileD3Format(StringifyD3Format(o)) == o
  {
    TailStartsWithoutAlign(o);
    ScanWithoutAlign(FillString(o), AlignString(o), TailString(o));
    OptionsOfTail(o, "", None);
  }

  /** The round trip for aligned options, whose fill string is empty. */
  lemma RoundTripAligned(o: FormatOptions)
    requires Canonical(o) && o.fill.Some?
    ensures CompileD3Format(StringifyD3Format(o)) == o
  {
    var fl := o.fill.value;
    var a := AlignChar(fl.align);
    ScanWithAlign(FillString(o), AlignString(o), TailString(o));
    OptionsOfTail(o, "", Some(a));
    AlignOfAlignChar(fl.align);
    assert Fill("", AlignOf(a)) == fl;
  }

  /** The parse/print round trip: printing canonical options and parsing the text
      gives the same options back. */
  lemma CompileStringifyRoundTrip(o: FormatOptions)
    requires Canonical(o)
    ensures CompileD3Format(StringifyD3Format(o)) == o
  {
    if o.fill.Some? {
      RoundTripAligned(o);
    } else {
      RoundTripUnaligned(o);
    }
  }

  /** Printing then parsing is a normalisation: parsing what a parse prints gives the
      same options again. */
  lemma CompileIsStable(raw: string)
    ensures CompileD3Format(StringifyD3Format(CompileD3Format(raw))) == CompileD3Format(raw)
  {
    CompileStringifyRoundTrip(CompileD3Format(raw));
  }

  // ---------------------------------------------------------------- groups in the text

  /** The flag and type groups of `t` are characters of `s`, and its precision is the
      digit run after some `.` of `s`. */
  predicate GroupsIn(t: Tail, s: string) {
    && (t.groupSeparator ==> ',' in s)
    && (t.trimTrailingZero ==> '~' in s)
    && (t.typeChar.Some? ==> t.typeChar.value in s)
    && (t.precision.Some? ==> exists i :: 0 <= i < |s| && s[i] == '.' && DigitRun(s[i + 1..]) == t.precision.value)
  }

  /** What a suffix of `s` holds, `s` holds. */
  lemma GroupsInSuffix(t: Tail, s: string, k: nat)
    requires k <= |s| && GroupsIn(t, s[k..])
    ensures GroupsIn(t, s)
  {
    var r := s[k..];
    forall c | c in r ensures c in s {
      var j :| 0 <= j < |r| && r[j] == c;
      assert s[k + j] == c;
    }
    if t.precision.Some? {
      var i :| 0 <= i < |r| && r[i] == '.' && DigitRun(r[i + 1..]) == t.precision.value;
      assert r[i + 1..] == s[k + i + 1..];
      assert s[k + i] == '.';
    }
  }

  lemma ScanTrimIn(s: string)
    ensures GroupsIn(ScanTrim(s), s)
  {
    var t := ScanTrim(s);
    if t.typeChar.Some? && t.trimTrailingZero {
      assert s[1] in s;
    }
  }

  lemma ScanPrecisionIn(s: string)
    ensures GroupsIn(ScanPrecision(s), s)
  {
    if |s| >= 2 && s[0] == '.' && IsDigit(s[1]) {
      var d := DigitRun(s[1..]);
      var rest := s[1 + |d|..];
      ScanTrimIn(rest);
      GroupsInSuffix(ScanTrim(rest), s, 1 + |d|);
      assert s[0 + 1..] == s[1..];
    } else {
      ScanTrimIn(s);
    }
  }

  lemma ScanGroupSeparatorIn(s: string)
    ensures GroupsIn(ScanGroupSeparator(s), s)
  {
    var (comma, s1) := TakeOne(s, IsCommaChar);
    ScanPrecisionIn(s1);
    GroupsInSuffix(ScanPrecision(s1), s, |s| - |s1|);
    assert s[|s| - |s1|..] == s1;
  }

  lemma ScanZeroIn(s: string)
    ensures GroupsIn(ScanZero(s), s)
  {
    var (zero, s1) := TakeOne(s, IsZeroChar);
    var s2 := s1[|DigitRun(s1)|..];
    var g := ScanGroupSeparator(s2);
    var t := ScanZero(s);
    assert t == g.(zero := zero.Some?, width := DigitRun(s1));
    assert GroupsIn(g, s) by {
      ScanGroupSeparatorIn(s2);
      assert s[|s| - |s2|..] == s2;
      GroupsInSuffix(g, s, |s| - |s2|);
    }
  }

  lemma ScanTailIn(s: string)
    ensures GroupsIn(ScanTail(s), s)
  {
    var (sign, s1) := TakeOne(s, IsSignChar);
    var (symbol, s2) := TakeOne(s1, IsSymbolChar);
    ScanZeroIn(s2);
    assert s[|s| - |s2|..] == s2;
    GroupsInSuffix(ScanZero(s2), s, |s| - |s2|);
  }

  /** What `compileD3Format` reads comes from the specifier: grouping needs a `,`,
      trimming a `~`, a type its letter, and the precision is the number the digits
      after some `.` spell. */
  lemma CompileReadsGroups(raw: string)
    ensures var o := CompileD3Format(raw);
      && (o.groupSeparator ==> ',' in raw)
      && (o.trimTrailingZero ==> '~' in raw)
      && (o.formatType != NoneType ==> exists i :: 0 <= i < |raw| && IsTypeChar(raw[i]) && TypeOf(raw[i]) == o.formatType)
      && (o.precision.Some? ==>
            exists i :: 0 <= i < |raw| && raw[i] == '.' && |DigitRun(raw[i + 1..])| > 0 && DigitsValue(DigitRun(raw[i + 1..])) == o.precision.value)
  {
    var (align, rest) := TakeOne(raw, IsAlignChar);
    var t := ScanTail(rest);
    ScanTailIn(rest);
    assert rest == raw[|raw| - |rest|..];
    GroupsInSuffix(t, raw, |raw| - |rest|);
    if t.typeChar.Some? {
      var i :| 0 <= i < |raw| && raw[i] == t.typeChar.value;
    }
    if t.precision.Some? {
      var i :| 0 <= i < |raw| && raw[i] == '.' && DigitRun(raw[i + 1..]) == t.precision.value;
    }
  }

  // ---------------------------------------------------------------- the fill character

  /** The reading intended by the group named `fill`, as in d3-format's own pattern
      `(?:(.)?([<>=^]))?`: one optional fill character before the align character. */
  function ScanD3FormatFixed(raw: string): (g: Groups)
    ensures ValidGroups(g) && |g.fill| <= 1
    ensures |raw| >= 2 && IsAlignChar(raw[1]) ==> g.fill == raw[..1] && g.align == Some(raw[1])
    ensures !(|raw| >= 2 && IsAlignChar(raw[1])) ==>
      g.fill == "" && g.align == if |raw| > 0 && IsAlignChar(raw[0]) then Some(raw[0]) else None
  {
    if |raw| >= 2 && IsAlignChar(raw[1]) then Groups(raw[..1], Some(raw[1]), ScanTail(raw[2..]))
    else if |raw| >= 1 && IsAlignChar(raw[0]) then Groups("", Some(raw[0]), ScanTail(raw[1..]))
    else Groups("", None, ScanTail(raw))
  }

  predicate CanonicalFixed(o: FormatOptions) {
    && (o.fill.Some? ==> |o.fill.value.fillString| <= 1)
    && o.sign != Some(Parentheses)
    && o.symbol != Some(Symbol.Binary)
    && ValidType(o.formatType)
  }

  /** `compileD3Format` with the fill character read as intended. */
  function CompileD3FormatFixed(raw: string): (o: FormatOptions)
    ensures CanonicalFixed(o)
    ensures |raw| >= 2 && IsAlignChar(raw[1]) ==> o.fill == Some(Fill(raw[..1], AlignOf(raw[1])))
    ensures !(|raw| >= 2 && IsAlignChar(raw[1])) ==>
      (o.fill.Some? <==> |raw| > 0 && IsAlignChar(raw[0])) && (o.fill.Some? ==> o.fill.value.fillString == "")
  {
    var g := ScanD3FormatFixed(raw);
    OptionsOfShape(g);
    OptionsOf(g)
  }

  /** The options of the empty specifier. */
  const Default := FormatOptions(None, None, None, None, false, false, NoneType)

  /** A character that no group after fill and align accepts. */
  predicate Stray(c: char) {
    !IsAlignChar(c) && !IsSignChar(c) && !IsSymbolChar(c) && !IsDigit(c)
    && c != ',' && c != '.' && c != '~' && !IsTypeChar(c)
  }

  /** As written, the match stops at offset 0 once the first character fits no
      group, so everything after it is ignored. */
  lemma StrayFirstCharacterGivesDefault(raw: string)
    requires |raw| > 0 && Stray(raw[0])
    ensures CompileD3Format(raw) == Default
  {
    assert TakeOne(raw, IsAlignChar) == (None, raw);
    assert TakeOne(raw, IsSignChar) == (None, raw);
    assert TakeOne(raw, IsSymbolChar) == (None, raw);
    ScanZeroWithoutDigit(raw);
    assert ScanGroupSeparator(raw) == ScanTrim(raw) by {
      assert TakeOne(raw, IsCommaChar) == (None, raw);
    }
    assert ScanTrim(raw) == Tail(None, None, false, "", false, None, false, None) by {
      assert TakeOne(raw, IsTildeChar) == (None, raw);
      assert TakeOne(raw, IsTypeChar) == (None, raw);
    }
  }

  /** As written, a specifier that starts with a fill character is read as the empty
      specifier, so "*<,.2f" loses its fill, alignment, separator, precision and
      type, and options with fill "*" do not survive printing and parsing. */
  lemma FillCharacterIsLost()
    ensures CompileD3Format("*<,.2f") == Default
    ensures var o := FormatOptions(Some(Fill("*", Left)), None, None, Some(2), true, false, FixedPoint);
            StringifyD3Format(o) == "*<,.2f" && CompileD3Format(StringifyD3Format(o)) != o
  {
    var raw := "*<,.2f";
    StrayFirstCharacterGivesDefault(raw);
    var o := FormatOptions(Some(Fill("*", Left)), None, None, Some(2), true, false, FixedPoint);
    assert NatToString(2) == "2";
    assert StringifyD3Format(o) == raw;
  }

  /** With the intended reading the same specifier keeps every component. */
  lemma FillCharacterIsKept()
    ensures CompileD3FormatFixed("*<,.2f") == FormatOptions(Some(Fill("*", Left)), None, None, Some(2), true, false, FixedPoint)
  {
    var o := FormatOptions(Some(Fill("*", Left)), None, None, Some(2), true, false, FixedPoint);
    assert NatToString(2) == "2";
    assert StringifyD3Format(o) == "*<,.2f";
    CompileFixedStringifyRoundTrip(o);
  }

  lemma ScanFixedWithoutAlign(fill: string, align: string, tail: string)
    requires fill == "" && align == ""
    requires |tail| == 0 || !IsAlignChar(tail[0])
    requires |tail| <= 1 || !IsAlignChar(tail[1])
    ensures ScanD3FormatFixed(fill + align + tail) == Groups("", None, ScanTail(tail))
  {
    assert fill + align + tail == tail;
  }

  lemma ScanFixedWithAlign(fill: string, align: string, tail: string)
    requires fill == "" && |align| == 1 && IsAlignChar(align[0])
    requires |tail| == 0 || !IsAlignChar(tail[0])
    ensures ScanD3FormatFixed(fill + align + tail) == Groups("", Some(align[0]), ScanTail(tail))
  {
    var raw := fill + align + tail;
    assert raw[0] == align[0] && raw[1..] == tail;
    assert |raw| >= 2 ==> raw[1] == tail[0];
  }

  lemma ScanFixedWithFill(fill: string, align: string, tail: string)
    requires |fill| == 1 && |align| == 1 && IsAlignChar(align[0])
    ensures ScanD3FormatFixed(fill + align + tail) == Groups(fill, Some(align[0]), ScanTail(tail))
  {
    var raw := fill + align + tail;
    assert raw[1] == align[0] && raw[..1] == fill && raw[2..] == tail;
  }

  lemma FixedRoundTripUnaligned(o: FormatOptions)
    requires CanonicalFixed(o) && o.fill.None?
    ensures CompileD3FormatFixed(StringifyD3Format(o)) == o
  {
    TailStartsWithoutAlign(o);
    ScanFixedWithoutAlign(FillString(o), AlignString(o), TailString(o));
    OptionsOfTail(o, "", None);
  }

  lemma FixedRoundTripAligned(o: FormatOptions)
    requires CanonicalFixed(o) && o.fill.Some? && o.fill.value.fillString == ""
    ensures CompileD3FormatFixed(StringifyD3Format(o)) == o
  {
    var fl := o.fill.value;
    var a := AlignChar(fl.align);
    TailStartsWithoutAlign(o);
    ScanFixedWithAlign(FillString(o), AlignString(o), TailString(o));
    OptionsOfTail(o, "", Some(a));
    AlignOfAlignChar(fl.align);
    assert Fill("", AlignOf(a)) == fl;
  }

  lemma FixedRoundTripFilled(o: FormatOptions)
    requires CanonicalFixed(o) && o.fill.Some? && |o.fill.value.fillString| == 1
    ensures CompileD3FormatFixed(StringifyD3Format(o)) == o
  {
    var fl := o.fill.value;
    var a := AlignChar(fl.align);
    ScanFixedWithFill(FillString(o), AlignString(o), TailString(o));
    OptionsOfTail(o, fl.fillString, Some(a));
    AlignOfAlignChar(fl.align);
    assert Fill(fl.fillString, AlignOf(a)) == fl;
  }

  /** With the intended reading, options with at most one fill character survive
      printing and parsing. */
  lemma CompileFixedStringifyRoundTrip(o: FormatOptions)
    requires CanonicalFixed(o)
    ensures CompileD3FormatFixed(StringifyD3Format(o)) == o
  {
    if o.fill.None? {
      FixedRoundTripUnaligned(o);
    } else if o.fill.value.fillString == "" {
      FixedRoundTripAligned(o);
    } else {
      FixedRoundTripFilled(o);
    }
  }
}
