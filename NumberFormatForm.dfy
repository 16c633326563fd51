/** The number-format editor of the configuration panel. It parses the current
    specifier, overrides the options that one control changes and prints the result:
    `stringify({...compile(value), ...next})`. */
module NumberFormatForm {
  import opened Wrappers
  import opened Text
  import opened D3Format

  /** The entries of the type dropdown. */
  predicate IsTypeOption(t: FormatType) {
    t == NoneType || t == Nice || t == Percent || t == Exponent || t == DecimalOrExponent || t == Character
  }

  /** The sign dropdown offers minus, plus and space; the parentheses entry is disabled. */
  predicate IsSignOption(s: Sign) {
    s != Parentheses
  }

  /** The precision field and the separator checkbox are hidden for the text type. */
  predicate ShowsNumberControls(o: FormatOptions) {
    o.formatType != Character
  }

  /** One user action on the form. */
  datatype NumberEdit =
    | ChooseType(choice: FormatType)
    | ChooseSign(sign: Sign)
    | EnterPrecision(input: string)
    | CheckGroupSeparator(checked: bool)

  /** The options the type dropdown sets: currency gets two decimals and the `$`
      symbol, percent two decimals, every other entry drops the symbol; a type that is
      not an entry changes nothing (`None`). */
  function ApplyTypeChoice(o: FormatOptions, t: FormatType): (r: Option<FormatOptions>)
    ensures r.Some? <==> IsTypeOption(t)
    ensures r.Some? ==> r.value.formatType == t
    ensures r.Some? ==> (r.value.symbol.Some? <==> t == Nice) && (t == Nice ==> r.value.symbol == Some(Currency))
    ensures r.Some? ==> r.value.precision == (if t == Nice || t == Percent then Some(2) else o.precision)
    ensures r.Some? ==> r.value.(formatType := o.formatType, symbol := o.symbol, precision := o.precision) == o
  {
    if t == NoneType || t == Exponent || t == DecimalOrExponent || t == Character then
      Some(o.(formatType := t, symbol := None))
    else if t == Nice then
      Some(o.(formatType := t, precision := Some(2), symbol := Some(Currency)))
    else if t == Percent then
      Some(o.(formatType := t, precision := Some(2), symbol := None))
    else
      None
  }

  /** The precision field keeps only the digits typed; no digits clears the precision. */
  function ApplyPrecisionInput(o: FormatOptions, input: string): (r: FormatOptions)
    ensures r.precision.None? <==> forall i :: 0 <= i < |input| ==> !IsDigit(input[i])
    ensures r.precision.Some? ==> r.precision.value == DigitsValue(KeepDigits(input))
    ensures r.(precision := o.precision) == o
  {
    var digits := KeepDigits(input);
    if digits == "" then o.(precision := None) else o.(precision := Some(DigitsValue(digits)))
  }

  /** Typing a numeral sets exactly that precision. */
  lemma PrecisionOfNumeral(o: FormatOptions, n: nat)
    ensures ApplyPrecisionInput(o, NatToString(n)).precision == Some(n)
  {
    DigitsValueOfNatToString(n);
  }

  /** The options after one action, or `None` when the action is not offered. */
  function EditOptions(o: FormatOptions, e: NumberEdit): (r: Option<FormatOptions>)
    ensures r.Some? ==> r.value.fill == o.fill && r.value.trimTrailingZero == o.trimTrailingZero
    ensures Canonical(o) && r.Some? ==> Canonical(r.value)
    ensures CanonicalFixed(o) && r.Some? ==> CanonicalFixed(r.value)
    ensures e.ChooseType? ==> r == ApplyTypeChoice(o, e.choice)
    ensures e.ChooseSign? ==> (r.Some? <==> IsSignOption(e.sign)) && (r.Some? ==> r.value == o.(sign := Some(e.sign)))
    ensures e.EnterPrecision? && r.Some? ==> r.value == ApplyPrecisionInput(o, e.input)
    ensures (e.EnterPrecision? || e.CheckGroupSeparator?) ==> (r.Some? <==> ShowsNumberControls(o))
    ensures e.CheckGroupSeparator? && r.Some? ==> r.value == o.(groupSeparator := e.checked)
  {
    match e
    case ChooseType(t) => ApplyTypeChoice(o, t)
    case ChooseSign(s) => if IsSignOption(s) then Some(o.(sign := Some(s))) else None
    case EnterPrecision(input) =>
      if ShowsNumberControls(o) then Some(ApplyPrecisionInput(o, input)) else None
    case CheckGroupSeparator(b) =>
      if ShowsNumberControls(o) then Some(o.(groupSeparator := b)) else None
  }

  /** The controls an action needs are shown: a type entry of the dropdown, a sign
      other than parentheses, and the precision field or the separator box only for a
      number type. */
  predicate Offered(o: FormatOptions, e: NumberEdit) {
    match e
    case ChooseType(t) => IsTypeOption(t)
    case ChooseSign(s) => IsSignOption(s)
    case EnterPrecision(_) => ShowsNumberControls(o)
    case CheckGroupSeparator(_) => ShowsNumberControls(o)
  }

  /** `handleChange` as written: the specifier after one action (`None`: `onChange`
      is not called), the current specifier read with `compileD3Format`. */
  function EditNumberFormatAsWritten(value: string, e: NumberEdit): (r: Option<string>)
    ensures r.Some? <==> Offered(CompileD3Format(value), e)
  {
    var r := EditOptions(CompileD3Format(value), e);
    if r.Some? then Some(StringifyD3Format(r.value)) else None
  }

  /** `handleChange` with the fill character read as intended. */
  function EditNumberFormat(value: string, e: NumberEdit): (r: Option<string>)
    ensures r.Some? <==> Offered(CompileD3FormatFixed(value), e)
  {
    var r := EditOptions(CompileD3FormatFixed(value), e);
    if r.Some? then Some(StringifyD3Format(r.value)) else None
  }

  /** As written, what the form writes reads back as exactly the options it set from
      the options `compileD3Format` read, since those are canonical. */
  lemma EditIsReadBackAsWritten(value: string, e: NumberEdit)
    ensures var r := EditNumberFormatAsWritten(value, e);
      r.Some? ==> CompileD3Format(r.value) == EditOptions(CompileD3Format(value), e).value
  {
    var r := EditOptions(CompileD3Format(value), e);
    if r.Some? {
      CompileStringifyRoundTrip(r.value);
    }
  }

  /** What the form writes reads back as exactly the options it set, so the controls
      show the chosen type, sign, precision and separator after the change. */
  lemma EditIsReadBack(value: string, e: NumberEdit)
    ensures var r := EditNumberFormat(value, e);
      r.Some? ==> CompileD3FormatFixed(r.value) == EditOptions(CompileD3FormatFixed(value), e).value
  {
    var r := EditOptions(CompileD3FormatFixed(value), e);
    if r.Some? {
      CompileFixedStringifyRoundTrip(r.value);
    }
  }

  /** Editing never disturbs the fill, alignment or trimming of a specifier. */
  lemma EditKeepsFill(value: string, e: NumberEdit)
    ensures var r := EditNumberFormat(value, e);
      r.Some? ==> CompileD3FormatFixed(r.value).fill == CompileD3FormatFixed(value).fill
  {
    EditIsReadBack(value, e);
  }

  /** With the parser as written the form drops a specifier that starts with a fill
      character whatever the control: ticking the separator on "*<" writes ",". */
  lemma FormDropsFillAsWritten()
    ensures StringifyD3Format(EditOptions(CompileD3Format("*<"), CheckGroupSeparator(true)).value) == ","
  {
    StrayFirstCharacterGivesDefault("*<");
    assert StringifyD3Format(Default.(groupSeparator := true)) == ",";
  }

  /** With the corrected parser, the form writes "*<," there. */
  lemma FormKeepsFill()
    ensures EditNumberFormat("*<", CheckGroupSeparator(true)) == Some("*<,")
  {
    var f := CompileD3FormatFixed("*<");
    assert f == FormatOptions(Some(Fill("*", Left)), None, None, None, false, false, NoneType) by {
      assert "*<"[..1] == "*" && "*<"[2..] == "";
      assert ScanTail("") == Tail(None, None, false, "", false, None, false, None);
    }
    assert StringifyD3Format(f.(groupSeparator := true)) == "*<,";
  }
}
