/** The time-format editor of the configuration panel: buttons add a part for every
    key not yet used, a cross removes a part, and the separator field and time-zone
    box change the other two options. Every change is printed with
    `stringifyTimeFormat` and read back on the next render. */
module TimeFormatForm {
  import opened Wrappers
  import opened Text
  import opened TimeFormat

  // ---------------------------------------------------------------- keys in use

  /** No two parts share a key, which is what the editor keeps by only offering
      unused keys. */
  predicate DistinctKeys(ps: seq<Part>) {
    forall i, j :: 0 <= i < j < |ps| ==> ps[i].key != ps[j].key
  }

  /** `option.parts.map(part => part.key)` */
  function UsedKeys(ps: seq<Part>): (r: seq<TimeKey>)
    ensures |r| == |ps| && forall i :: 0 <= i < |ps| ==> r[i] == ps[i].key
  {
    if |ps| == 0 then [] else [ps[0].key] + UsedKeys(ps[1..])
  }

  /** Keys listed in increasing `KeyRank`, as `AllTimeFormatKeys` is. */
  predicate RankOrdered(keys: seq<TimeKey>) {
    forall i, j :: 0 <= i < j < |keys| ==> KeyRank(keys[i]) < KeyRank(keys[j])
  }

  /** `keys.filter(key => !used.includes(key))` */
  function UnusedAmong(keys: seq<TimeKey>, used: seq<TimeKey>): (r: seq<TimeKey>)
    requires RankOrdered(keys)
    ensures forall k :: k in r <==> k in keys && k !in used
    ensures RankOrdered(r)
  {
    if |keys| == 0 then []
    else
      RankOrderedTail(keys);
      var rest := UnusedAmong(keys[1..], used);
      RankOrderedCons(keys[0], keys[1..], rest);
      (if keys[0] in used then [] else [keys[0]]) + rest
  }

  lemma RankOrderedTail(keys: seq<TimeKey>)
    requires RankOrdered(keys) && |keys| > 0
    ensures RankOrdered(keys[1..])
    ensures forall k :: k in keys[1..] ==> KeyRank(keys[0]) < KeyRank(k)
  {
    var tail := keys[1..];
    forall i, j | 0 <= i < j < |tail| ensures KeyRank(tail[i]) < KeyRank(tail[j]) {
      assert tail[i] == keys[i + 1] && tail[j] == keys[j + 1];
    }
    forall k | k in tail ensures KeyRank(keys[0]) < KeyRank(k) {
      var m :| 0 <= m < |tail| && tail[m] == k;
      assert keys[m + 1] == k;
    }
  }

  lemma RankOrderedCons(x: TimeKey, keys: seq<TimeKey>, rest: seq<TimeKey>)
    requires RankOrdered(rest)
    requires forall k :: k in keys ==> KeyRank(x) < KeyRank(k)
    requires forall k :: k in rest ==> k in keys
    ensures RankOrdered([x] + rest)
  {
    var r := [x] + rest;
    forall i, j | 0 <= i < j < |r| ensures KeyRank(r[i]) < KeyRank(r[j]) {
      assert r[j] == rest[j - 1];
      if i > 0 {
        assert r[i] == rest[i - 1];
      } else {
        assert rest[j - 1] in rest;
      }
    }
  }

  /** `allTimeFormatKeys` lists every key once, in rank order. */
  lemma AllKeysListed()
    ensures RankOrdered(AllTimeFormatKeys)
    ensures forall k :: k in AllTimeFormatKeys
  {
    forall i | 0 <= i < |AllTimeFormatKeys| ensures KeyRank(AllTimeFormatKeys[i]) == i {
      RankOfListed(i);
    }
    forall k ensures k in AllTimeFormatKeys {
      assert AllTimeFormatKeys[KeyRank(k)] == k;
    }
  }

  lemma RankOfListed(i: nat)
    requires i < |AllTimeFormatKeys|
    ensures KeyRank(AllTimeFormatKeys[i]) == i
  {
    if i == 0 {
    } else if i == 1 {
    } else if i == 2 {
    } else if i == 3 {
    } else if i == 4 {
    } else if i == 5 {
    } else {
      assert i == 6;
    }
  }

  /** A key is used exactly when some part has it. */
  lemma UsedKeysMembers(ps: seq<Part>)
    ensures forall k :: k in UsedKeys(ps) <==> exists i :: 0 <= i < |ps| && ps[i].key == k
  {
    var used := UsedKeys(ps);
    forall k | k in used ensures exists i :: 0 <= i < |ps| && ps[i].key == k {
      var i :| 0 <= i < |used| && used[i] == k;
    }
    forall k | exists i :: 0 <= i < |ps| && ps[i].key == k ensures k in used {
      var i :| 0 <= i < |ps| && ps[i].key == k;
      assert used[i] == k;
    }
  }

  /** `unusedKeys`: the keys no part uses, in the order of `allTimeFormatKeys`. */
  function UnusedKeys(ps: seq<Part>): (r: seq<TimeKey>)
    ensures forall k :: k in r <==> forall i :: 0 <= i < |ps| ==> ps[i].key != k
    ensures RankOrdered(r)
  {
    AllKeysListed();
    UsedKeysMembers(ps);
    UnusedAmong(AllTimeFormatKeys, UsedKeys(ps))
  }

  // ---------------------------------------------------------------- adding a part

  /** The pattern each add button uses; the weekday button writes the long name. */
  function DefaultPattern(k: TimeKey): (pattern: string)
    ensures Recognise(pattern) == Some(Part(k, pattern))
    ensures k == Weekday ==> pattern == "%A"
  {
    match k
    case Year => "%Y"
    case Month => "%m"
    case Weekday => "%A"
    case Day => "%d"
    case Hour => "%H"
    case Minute => "%M"
    case Second => "%S"
  }

  /** `addPart`: one part appended after the others, nothing else changed. */
  function AddPart(o: TimeFormatOptions, key: TimeKey, pattern: string): (r: TimeFormatOptions)
    ensures |r.parts| == |o.parts| + 1 && r.parts[|o.parts|] == Part(key, pattern)
    ensures forall i :: 0 <= i < |o.parts| ==> r.parts[i] == o.parts[i]
    ensures r.dateSeparator == o.dateSeparator && r.timeZone == o.timeZone
  {
    o.(parts := o.parts + [Part(key, pattern)])
  }

  /** Adding an offered key keeps the keys distinct and takes exactly that key off
      the offered ones. */
  lemma AddUnusedKey(o: TimeFormatOptions, k: TimeKey, pattern: string)
    requires DistinctKeys(o.parts) && k in UnusedKeys(o.parts)
    ensures var r := AddPart(o, k, pattern);
      && DistinctKeys(r.parts)
      && forall x :: x in UnusedKeys(r.parts) <==> x in UnusedKeys(o.parts) && x != k
  {
    var ps := o.parts;
    var qs := AddPart(o, k, pattern).parts;
    assert qs == ps + [Part(k, pattern)];
    assert forall i :: 0 <= i < |ps| ==> ps[i].key != k;
    forall i, j | 0 <= i < j < |qs| ensures qs[i].key != qs[j].key {
      if j < |ps| {
        assert qs[i] == ps[i] && qs[j] == ps[j];
      } else {
        assert qs[i] == ps[i];
      }
    }
    UnusedAfterAppend(ps, Part(k, pattern));
  }

  /** Appending a part takes its key, and only its key, off the unused ones. */
  lemma UnusedAfterAppend(ps: seq<Part>, p: Part)
    ensures forall x :: x in UnusedKeys(ps + [p]) <==> x in UnusedKeys(ps) && x != p.key
  {
    var qs := ps + [p];
    forall x ensures x in UnusedKeys(qs) <==> x in UnusedKeys(ps) && x != p.key {
      if x in UnusedKeys(ps) && x != p.key {
        forall i | 0 <= i < |qs| ensures qs[i].key != x {
          if i < |ps| {
            assert qs[i] == ps[i];
          }
        }
      }
      if x in UnusedKeys(qs) {
        assert qs[|ps|] == p;
        forall i | 0 <= i < |ps| ensures ps[i].key != x {
          assert qs[i] == ps[i];
        }
      }
    }
  }

  // ---------------------------------------------------------------- removing a part

  /** The parts without the one at `index`. */
  function Removed(ps: seq<Part>, index: nat): (r: seq<Part>)
    requires index < |ps|
    ensures |r| == |ps| - 1
    ensures forall i :: 0 <= i < index ==> r[i] == ps[i]
    ensures forall i :: index <= i < |r| ==> r[i] == ps[i + 1]
  {
    ps[..index] + ps[index + 1..]
  }

  /** The remove button: `[...option.parts]` copied, then `splice(index, 1)`. */
  method RemovePart(ps: seq<Part>, index: nat) returns (r: seq<Part>)
    requires index < |ps|
    ensures r == Removed(ps, index)
  {
    var newParts := new Part[|ps|](i requires 0 <= i < |ps| => ps[i]);
    var j := index;
    while j < |ps| - 1
      invariant index <= j <= |ps| - 1
      invariant forall m :: 0 <= m < index ==> newParts[m] == ps[m]
      invariant forall m :: index <= m < j ==> newParts[m] == ps[m + 1]
      invariant forall m :: j <= m < |ps| ==> newParts[m] == ps[m]
    {
      newParts[j] := newParts[j + 1];
      j := j + 1;
    }
    r := newParts[..|ps| - 1];
  }

  /** Removing a part keeps the keys distinct and offers its key again. */
  lemma RemoveFreesKey(ps: seq<Part>, index: nat)
    requires DistinctKeys(ps) && index < |ps|
    ensures var r := Removed(ps, index);
      && DistinctKeys(r)
      && forall x :: x in UnusedKeys(r) <==> x in UnusedKeys(ps) || x == ps[index].key
  {
    var r := Removed(ps, index);
    forall i, j | 0 <= i < j < |r| ensures r[i].key != r[j].key {
      var i' := if i < index then i else i + 1;
      var j' := if j < index then j else j + 1;
      assert r[i] == ps[i'] && r[j] == ps[j'];
    }
    forall x | x in UnusedKeys(r) ensures x in UnusedKeys(ps) || x == ps[index].key {
      forall i | 0 <= i < |ps| && i != index ensures ps[i].key != x {
        if i < index {
          assert r[i] == ps[i];
        } else {
          assert r[i - 1] == ps[i];
        }
      }
    }
    forall x | x == ps[index].key ensures x in UnusedKeys(r) {
      forall i | 0 <= i < |r| ensures r[i].key != x {
        if i < index {
          assert r[i] == ps[i];
        } else {
          assert r[i] == ps[i + 1];
        }
      }
    }
  }

  // ---------------------------------------------------------------- the separator field

  /** `s.trimEnd()` */
  function TrimEnd(s: string): (r: string)
    ensures |r| <= |s| && r == s[..|r|]
    ensures forall i :: |r| <= i < |s| ==> IsWhitespace(s[i])
    ensures |r| > 0 ==> !IsWhitespace(r[|r| - 1])
  {
    if |s| > 0 && IsWhitespace(s[|s| - 1]) then TrimEnd(s[..|s| - 1]) else s
  }

  /** `DropWhitespace` removes exactly the leading whitespace. */
  lemma {:induction false} DropWhitespaceSuffix(s: string)
    ensures var r := DropWhitespace(s);
      && r == s[|s| - |r|..]
      && forall i :: 0 <= i < |s| - |r| ==> IsWhitespace(s[i])
    decreases |s|
  {
    if |s| > 0 && IsWhitespace(s[0]) {
      DropWhitespaceSuffix(s[1..]);
    }
  }

  /** `s.trim()` */
  function Trim(s: string): string {
    TrimEnd(DropWhitespace(s))
  }

  /** `e.target.value.trim().slice(0, 1) || '/'`: the first character that is not
      whitespace, or `/` when there is none. */
  function SeparatorInput(input: string): (sep: string)
    ensures |sep| == 1 && !IsWhitespace(sep[0])
    ensures (forall i :: 0 <= i < |input| ==> IsWhitespace(input[i])) ==> sep == "/"
    ensures forall i :: (0 <= i < |input| && !IsWhitespace(input[i])
      && forall j :: 0 <= j < i ==> IsWhitespace(input[j])) ==> sep == [input[i]]
  {
    DropWhitespaceSuffix(input);
    var t := Trim(input);
    if |t| == 0 then "/" else t[..1]
  }

  // ---------------------------------------------------------------- one action

  /** One user action on the form. */
  datatype TimeEdit =
    | AddKey(key: TimeKey)
    | RemoveAt(index: nat)
    | EnterSeparator(input: string)
    | CheckTimeZone(checked: bool)

  /** The options after one action, or `None` when the control is not shown: add
      buttons exist for unused keys only, a cross for every part, the separator field
      with two or more date parts and the time-zone box with a time part. */
  function EditTimeOptions(o: TimeFormatOptions, e: TimeEdit): (r: Option<TimeFormatOptions>)
    ensures e.AddKey? ==> (r.Some? <==> e.key in UnusedKeys(o.parts))
    ensures e.AddKey? && r.Some? ==> r.value == AddPart(o, e.key, DefaultPattern(e.key))
    ensures e.RemoveAt? ==> (r.Some? <==> e.index < |o.parts|)
    ensures e.RemoveAt? && r.Some? ==>
      r.value.parts == Removed(o.parts, e.index) && r.value.dateSeparator == o.dateSeparator && r.value.timeZone == o.timeZone
    ensures e.EnterSeparator? ==> (r.Some? <==> |DateParts(o.parts)| > 1)
    ensures e.EnterSeparator? && r.Some? ==>
      r.value.parts == o.parts && r.value.dateSeparator == SeparatorInput(e.input) && r.value.timeZone == o.timeZone
    ensures e.CheckTimeZone? ==> (r.Some? <==> |TimeParts(o.parts)| > 0)
    ensures e.CheckTimeZone? && r.Some? ==>
      r.value.parts == o.parts && r.value.dateSeparator == o.dateSeparator && r.value.timeZone == e.checked
  {
    match e
    case AddKey(k) =>
      if k in UnusedKeys(o.parts) then Some(AddPart(o, k, DefaultPattern(k))) else None
    case RemoveAt(i) =>
      if i < |o.parts| then Some(o.(parts := Removed(o.parts, i))) else None
    case EnterSeparator(input) =>
      if |DateParts(o.parts)| > 1 then Some(o.(dateSeparator := SeparatorInput(input))) else None
    case CheckTimeZone(b) =>
      if |TimeParts(o.parts)| > 0 then Some(o.(timeZone := b)) else None
  }

  /** The control an action needs is on the form. */
  predicate Shown(o: TimeFormatOptions, e: TimeEdit) {
    match e
    case AddKey(k) => k in UnusedKeys(o.parts)
    case RemoveAt(i) => i < |o.parts|
    case EnterSeparator(_) => |DateParts(o.parts)| > 1
    case CheckTimeZone(_) => |TimeParts(o.parts)| > 0
  }

  /** `handleChange` as written: the pattern after one action, the current pattern
      read with `compileTimeFormat`. */
  function EditTimeFormatAsWritten(value: string, e: TimeEdit): (r: Option<string>)
    ensures r.Some? <==> Shown(TimeFormatOf(value), e)
  {
    var r := EditTimeOptions(TimeFormatOf(value), e);
    if r.Some? then Some(StringifyTimeFormat(r.value)) else None
  }

  /** `handleChange` with the time segment found after a weekday and the corrected
      separator field. */
  function EditTimeFormat(value: string, e: TimeEdit): (r: Option<string>)
    ensures r.Some? <==> Shown(TimeFormatOfFixed(value), e)
  {
    var r := EditTimeOptionsFixed(TimeFormatOfFixed(value), e);
    if r.Some? then Some(StringifyTimeFormat(r.value)) else None
  }

  /** Every action keeps the keys distinct. */
  lemma EditKeepsDistinct(o: TimeFormatOptions, e: TimeEdit)
    requires DistinctKeys(o.parts)
    ensures var r := EditTimeOptions(o, e); r.Some? ==> DistinctKeys(r.value.parts)
  {
    match e
    case AddKey(k) =>
      if k in UnusedKeys(o.parts) {
        AddUnusedKey(o, k, DefaultPattern(k));
      }
    case RemoveAt(i) =>
      if i < |o.parts| {
        RemoveFreesKey(o.parts, i);
      }
    case EnterSeparator(_) =>
    case CheckTimeZone(_) =>
  }

  /** Every action keeps the options printable and readable, provided a typed
      separator is not a letter, digit or `%`. */
  lemma EditKeepsWellFormed(o: TimeFormatOptions, e: TimeEdit)
    requires WellFormed(o)
    requires e.EnterSeparator? ==> !IsPatternChar(SeparatorInput(e.input)[0])
    ensures var r := EditTimeOptions(o, e); r.Some? ==> WellFormed(r.value)
  {
  }

  /** Every action keeps the options readable: one separator character and parts that
      read back as themselves. */
  lemma EditKeepsReadable(o: TimeFormatOptions, e: TimeEdit)
    requires Readable(o)
    ensures var r := EditTimeOptions(o, e); r.Some? ==> Readable(r.value)
  {
  }

  /** What the form writes, read back with the corrected reading: the edited parts in
      printing order, less the date parts when a typed letter, digit or `%` joins two
      or more of them, with the separator the parser finds. When the options are well
      formed and the typed separator is not a letter, digit or `%`, that is all the
      edited parts and the separator set whenever its field is shown. */
  lemma EditIsReadBack(o: TimeFormatOptions, e: TimeEdit)
    requires Readable(o)
    ensures var r := EditTimeOptions(o, e);
      r.Some? ==> TimeFormatOfFixed(StringifyTimeFormat(r.value)) == TimeFormatOptions(
        DatesReadBack(r.value) + (if HasWeekday(r.value.parts) then [Part(Weekday, "%a")] else []) + TimeParts(r.value.parts),
        SeparatorReadBack(r.value),
        r.value.timeZone && |TimeParts(r.value.parts)| > 0)
    ensures var r := EditTimeOptions(o, e);
      r.Some? && WellFormed(o) && (e.EnterSeparator? ==> !IsPatternChar(SeparatorInput(e.input)[0])) ==>
        TimeFormatOfFixed(StringifyTimeFormat(r.value)) == TimeFormatOptions(
          Normalize(r.value.parts),
          if |DateParts(r.value.parts)| >= 2 then r.value.dateSeparator else " ",
          r.value.timeZone && |TimeParts(r.value.parts)| > 0)
  {
    var r := EditTimeOptions(o, e);
    if r.Some? {
      EditKeepsReadable(o, e);
      RecompileAnySeparatorFixed(r.value);
      if WellFormed(o) && (e.EnterSeparator? ==> !IsPatternChar(SeparatorInput(e.input)[0])) {
        EditKeepsWellFormed(o, e);
        RecompileNormalizes(r.value);
      }
    }
  }

  /** As written, what the form writes reads back as its date parts (none when a typed
      letter, digit or `%` joins two or more of them), then the weekday in place of all
      the time parts whenever it has one. When the options are well formed and the
      typed separator is not a letter, digit or `%`, the date parts all come back. */
  lemma EditIsReadBackAsWritten(o: TimeFormatOptions, e: TimeEdit)
    requires Readable(o)
    ensures var r := EditTimeOptions(o, e);
      r.Some? ==> TimeFormatOf(StringifyTimeFormat(r.value)) == TimeFormatOptions(
        DatesReadBack(r.value) + (if HasWeekday(r.value.parts) then [Part(Weekday, "%a")] else TimeParts(r.value.parts)),
        SeparatorReadBack(r.value),
        r.value.timeZone && |TimeParts(r.value.parts)| > 0)
    ensures var r := EditTimeOptions(o, e);
      r.Some? && WellFormed(o) && (e.EnterSeparator? ==> !IsPatternChar(SeparatorInput(e.input)[0])) ==>
        TimeFormatOf(StringifyTimeFormat(r.value)) == TimeFormatOptions(
          DateParts(r.value.parts) + (if HasWeekday(r.value.parts) then [Part(Weekday, "%a")] else TimeParts(r.value.parts)),
          if |DateParts(r.value.parts)| >= 2 then r.value.dateSeparator else " ",
          r.value.timeZone && |TimeParts(r.value.parts)| > 0)
  {
    var r := EditTimeOptions(o, e);
    if r.Some? {
      EditKeepsReadable(o, e);
      RecompileAnySeparator(r.value);
      if WellFormed(o) && (e.EnterSeparator? ==> !IsPatternChar(SeparatorInput(e.input)[0])) {
        EditKeepsWellFormed(o, e);
        RecompileAsWritten(r.value);
      }
    }
  }

  /** As written, typing a letter, digit or `%` into the separator field while two or
      more date parts are shown writes a pattern that reads back without any date part:
      for instance `x` between a year and a month prints `%Yx%m `, read back as no part
      at all. */
  lemma TypedPatternCharLosesDates(o: TimeFormatOptions, input: string)
    requires Readable(o) && |DateParts(o.parts)| >= 2 && IsPatternChar(SeparatorInput(input)[0])
    ensures var r := EditTimeOptions(o, EnterSeparator(input));
      && r.Some?
      && TimeFormatOf(StringifyTimeFormat(r.value)).parts ==
           (if HasWeekday(o.parts) then [Part(Weekday, "%a")] else TimeParts(o.parts))
      && TimeFormatOfFixed(StringifyTimeFormat(r.value)).parts ==
           (if HasWeekday(o.parts) then [Part(Weekday, "%a")] else []) + TimeParts(o.parts)
  {
    var r := EditTimeOptions(o, EnterSeparator(input));
    UnreadableDates(r.value);
    UnreadableDatesFixed(r.value);
  }

  /** The smallest case: `x` typed between a year and a month is taken as the
      separator ... */
  lemma LetterSeparatorTaken()
    ensures var o := TimeFormatOptions([Part(Year, "%Y"), Part(Month, "%m")], "/", false);
      EditTimeOptions(o, EnterSeparator("x")) == Some(o.(dateSeparator := "x"))
  {
    YearMonth();
    assert SeparatorInput("x") == "x";
  }

  /** ... the pattern written is `%Yx%m ` ... */
  lemma LetterSeparatorPrinted()
    ensures StringifyTimeFormat(TimeFormatOptions([Part(Year, "%Y"), Part(Month, "%m")], "x", false)) == "%Yx%m "
  {
    var ps := [Part(Year, "%Y"), Part(Month, "%m")];
    var x := TimeFormatOptions(ps, "x", false);
    YearMonth();
    assert DatePattern(x) == "%Yx%m" by {
      SafeDateSeparatorChar('x');
      assert Patterns(ps) == ["%Y", "%m"];
    }
    assert TimePattern(x) == "" && ZonePattern(x) == "" && WeekdayPattern(x) == "";
  }

  /** ... and that pattern reads back as no part at all. */
  lemma LetterSeparatorExample()
    ensures var x := TimeFormatOptions([Part(Year, "%Y"), Part(Month, "%m")], "x", false);
      TimeFormatOf(StringifyTimeFormat(x)).parts == []
  {
    var x := TimeFormatOptions([Part(Year, "%Y"), Part(Month, "%m")], "x", false);
    YearMonth();
    assert Readable(x) by {
      assert Recognised(x.parts[0]) && Recognised(x.parts[1]);
    }
    UnreadableDates(x);
  }

  /** A year then a month: two date parts, no time part, no weekday. */
  lemma YearMonth()
    ensures var ps := [Part(Year, "%Y"), Part(Month, "%m")];
      DateParts(ps) == ps && TimeParts(ps) == [] && !HasWeekday(ps)
  {
    var ps := [Part(Year, "%Y"), Part(Month, "%m")];
    assert ps[..1] == [ps[0]] && ps[..1][..0] == [];
  }

  // ---------------------------------------------------------------- corrected field

  /** The separator field as intended: a typed letter, digit or `%`, which the parser
      cannot tell from a pattern, falls back to `/` as an empty field does. */
  function SeparatorInputFixed(input: string): (sep: string)
    ensures ValidSeparator(sep)
    ensures !IsPatternChar(SeparatorInput(input)[0]) ==> sep == SeparatorInput(input)
    ensures IsPatternChar(SeparatorInput(input)[0]) ==> sep == "/"
  {
    if IsPatternChar(SeparatorInput(input)[0]) then "/" else SeparatorInput(input)
  }

  /** One action with the corrected separator field; every other control as written. */
  function EditTimeOptionsFixed(o: TimeFormatOptions, e: TimeEdit): (r: Option<TimeFormatOptions>)
    ensures r.Some? <==> Shown(o, e)
    ensures !e.EnterSeparator? ==> r == EditTimeOptions(o, e)
    ensures e.EnterSeparator? && r.Some? ==>
      r.value.parts == o.parts && r.value.dateSeparator == SeparatorInputFixed(e.input) && r.value.timeZone == o.timeZone
  {
    match e
    case EnterSeparator(input) =>
      if |DateParts(o.parts)| > 1 then Some(o.(dateSeparator := SeparatorInputFixed(input))) else None
    case _ => EditTimeOptions(o, e)
  }

  /** With the corrected field and reading, options read from a pattern stay such
      options after any action, and what the form writes reads back as all the edited
      parts in printing order: no date part is ever lost. */
  lemma EditIsReadBackFixed(o: TimeFormatOptions, e: TimeEdit)
    requires Readable(o) && !IsPatternChar(o.dateSeparator[0])
    ensures var r := EditTimeOptionsFixed(o, e);
      r.Some? ==> Readable(r.value) && !IsPatternChar(r.value.dateSeparator[0])
    ensures var r := EditTimeOptionsFixed(o, e);
      r.Some? ==> TimeFormatOfFixed(StringifyTimeFormat(r.value)) == TimeFormatOptions(
        Normalize(r.value.parts),
        SeparatorReadBack(r.value),
        r.value.timeZone && |TimeParts(r.value.parts)| > 0)
  {
    var r := EditTimeOptionsFixed(o, e);
    if r.Some? {
      if !e.EnterSeparator? {
        EditKeepsReadable(o, e);
      }
      assert Readable(r.value);
      RecompileAnySeparatorFixed(r.value);
    }
  }

  /** Every pattern the corrected form reads gives options it accepts. */
  lemma ReadIsReadable(value: string)
    ensures var o := TimeFormatOfFixed(value); Readable(o) && !IsPatternChar(o.dateSeparator[0])
  {
  }

  /** As written, a pattern with a weekday reads back with no time part, so the form
      no longer shows the time-zone box however many time parts were printed. */
  lemma WeekdayHidesTimeZoneBox(o: TimeFormatOptions, checked: bool)
    requires WellFormed(o) && HasWeekday(o.parts)
    ensures EditTimeFormatAsWritten(StringifyTimeFormat(o), CheckTimeZone(checked)).None?
  {
    var read := TimeFormatOf(StringifyTimeFormat(o));
    WeekdayReadsNoTimePart(o);
    assert !Shown(read, CheckTimeZone(checked));
  }

  lemma WeekdayReadsNoTimePart(o: TimeFormatOptions)
    requires WellFormed(o) && HasWeekday(o.parts)
    ensures TimeParts(TimeFormatOf(StringifyTimeFormat(o)).parts) == []
  {
    assert TimeFormatOf(StringifyTimeFormat(o)).parts == DateParts(o.parts) + [Part(Weekday, "%a")] by {
      RecompileAsWritten(o);
    }
    DateAndWeekdayHaveNoTimePart(o.parts, true);
  }

  /** The date parts, with or without the printed weekday, hold no time part. */
  lemma DateAndWeekdayHaveNoTimePart(ps: seq<Part>, weekday: bool)
    ensures TimeParts(DateParts(ps) + (if weekday then [Part(Weekday, "%a")] else [])) == []
  {
    var d: seq<Part>, w: seq<Part> := DateParts(ps), if weekday then [Part(Weekday, "%a")] else [];
    KeepKeysAppend(d, w, IsTimePart);
    KeepKeysNone(d, IsTimePart);
    KeepKeysNone(w, IsTimePart);
  }

  /** Read as intended, the box stays whenever the options have a time part. */
  lemma TimeZoneBoxStays(o: TimeFormatOptions, checked: bool)
    requires WellFormed(o) && |TimeParts(o.parts)| > 0
    ensures EditTimeFormat(StringifyTimeFormat(o), CheckTimeZone(checked)).Some?
  {
    var read := TimeFormatOfFixed(StringifyTimeFormat(o));
    assert read.parts == Normalize(o.parts) by {
      RecompileNormalizes(o);
    }
    TimePartsOfNormalize(o.parts);
    assert Shown(read, CheckTimeZone(checked));
  }

  /** Putting the parts in printing order keeps the time parts. */
  lemma TimePartsOfNormalize(ps: seq<Part>)
    ensures TimeParts(Normalize(ps)) == TimeParts(ps)
  {
    var dw := DateParts(ps) + (if HasWeekday(ps) then [Part(Weekday, "%a")] else []);
    var t := TimeParts(ps);
    assert TimeParts(dw + t) == t by {
      DateAndWeekdayHaveNoTimePart(ps, HasWeekday(ps));
      TimePartsAfterNone(dw, t);
    }
    assert Normalize(ps) == dw + t;
  }

  /** Parts without a time part, then time parts: the time parts are the latter. */
  lemma TimePartsAfterNone(a: seq<Part>, t: seq<Part>)
    requires TimeParts(a) == []
    requires forall i :: 0 <= i < |t| ==> IsTimePart(t[i].key)
    ensures TimeParts(a + t) == t
  {
    KeepKeysAll(t, IsTimePart);
    KeepKeysAppend(a, t, IsTimePart);
  }

  // ---------------------------------------------------------------- round trip on parts

  /** The first `k` parts are date parts and the others time parts. */
  predicate DateBeforeTime(ps: seq<Part>, k: nat) {
    && k <= |ps|
    && (forall i :: 0 <= i < k ==> IsDatePart(ps[i].key))
    && (forall i :: k <= i < |ps| ==> IsTimePart(ps[i].key))
  }

  lemma DateThenTimeParts(ps: seq<Part>, k: nat)
    requires DateBeforeTime(ps, k)
    ensures DateParts(ps) + TimeParts(ps) == ps
  {
    var d, t := ps[..k], ps[k..];
    assert ps == d + t;
    assert DateParts(ps) == d by {
      KeepKeysAppend(d, t, IsDatePart);
      KeepKeysAll(d, IsDatePart);
      KeepKeysNone(t, IsDatePart);
    }
    assert TimeParts(ps) == t by {
      KeepKeysAppend(d, t, IsTimePart);
      KeepKeysNone(d, IsTimePart);
      KeepKeysAll(t, IsTimePart);
    }
  }

  lemma NoWeekday(ps: seq<Part>, k: nat)
    requires DateBeforeTime(ps, k)
    ensures !HasWeekday(ps)
  {
    forall i | 0 <= i < |ps| ensures ps[i].key != Weekday {
      if i < k {
        assert IsDatePart(ps[i].key);
      } else {
        assert IsTimePart(ps[i].key);
      }
    }
  }

  /** Parts that are date parts followed by time parts, none a weekday, read back as
      exactly themselves. */
  lemma PartsRoundTrip(o: TimeFormatOptions, k: nat)
    requires WellFormed(o) && DateBeforeTime(o.parts, k)
    ensures TimeFormatOf(StringifyTimeFormat(o)).parts == o.parts
  {
    NoWeekday(o.parts, k);
    DateThenTimeParts(o.parts, k);
    RecompileAsWritten(o);
  }

  /** The same holds when the time segment is read after a weekday. */
  lemma PartsRoundTripFixed(o: TimeFormatOptions, k: nat)
    requires WellFormed(o) && DateBeforeTime(o.parts, k)
    ensures TimeFormatOfFixed(StringifyTimeFormat(o)).parts == o.parts
  {
    NoWeekday(o.parts, k);
    DateThenTimeParts(o.parts, k);
    RecompileNormalizes(o);
    assert Normalize(o.parts) == DateParts(o.parts) + [] + TimeParts(o.parts);
    assert DateParts(o.parts) + [] == DateParts(o.parts);
  }
}
