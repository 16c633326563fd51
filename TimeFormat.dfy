/** The d3 time-format specifiers that the configuration panel composes from parts:
    `stringifyTimeFormat` prints `<date parts joined by the separator>[ %a] <time parts
    joined by ':'>[ (%Z)]` and `compileTimeFormat` reads the parts back. */
module TimeFormat {
  import opened Wrappers
  import opened Text

  /** `TimeFormatKey` */
  datatype TimeKey = Year | Month | Weekday | Day | Hour | Minute | Second

  /** `allTimeFormatKeys`, in the order the editor offers them. */
  const AllTimeFormatKeys: seq<TimeKey> := [Year, Month, Weekday, Day, Hour, Minute, Second]

  /** The position of a key in `AllTimeFormatKeys`. */
  function KeyRank(k: TimeKey): (n: nat)
    ensures n < |AllTimeFormatKeys| && AllTimeFormatKeys[n] == k
  {
    match k
    case Year => 0
    case Month => 1
    case Weekday => 2
    case Day => 3
    case Hour => 4
    case Minute => 5
    case Second => 6
  }

  /** `isDatePart` */
  predicate IsDatePart(k: TimeKey) {
    k == Year || k == Month || k == Day
  }

  /** `isTimePart` */
  predicate IsTimePart(k: TimeKey) {
    k == Hour || k == Minute || k == Second
  }

  predicate IsWeekday(k: TimeKey) {
    k == Weekday
  }

  /** Every key is exactly one of a date part, the weekday or a time part. */
  lemma KeyClasses(k: TimeKey)
    ensures IsDatePart(k) <==> !IsTimePart(k) && !IsWeekday(k)
    ensures IsTimePart(k) <==> !IsDatePart(k) && !IsWeekday(k)
  {
  }

  datatype Part = Part(key: TimeKey, pattern: string)

  /** `TimeFormatOptions` */
  datatype TimeFormatOptions = TimeFormatOptions(parts: seq<Part>, dateSeparator: string, timeZone: bool)

  /** `parts.map(part => part.pattern)` */
  function Patterns(ps: seq<Part>): (r: seq<string>)
    ensures |r| == |ps| && forall i :: 0 <= i < |ps| ==> r[i] == ps[i].pattern
  {
    if |ps| == 0 then [] else Patterns(ps[..|ps| - 1]) + [ps[|ps| - 1].pattern]
  }

  /** `parts.filter(part => p(part.key))` */
  function KeepKeys(ps: seq<Part>, p: TimeKey -> bool): (r: seq<Part>)
    ensures |r| <= |ps|
    ensures forall i :: 0 <= i < |r| ==> p(r[i].key) && r[i] in ps
  {
    if |ps| == 0 then [] else KeepKeys(ps[..|ps| - 1], p) + (if p(ps[|ps| - 1].key) then [ps[|ps| - 1]] else [])
  }

  function DateParts(ps: seq<Part>): seq<Part> {
    KeepKeys(ps, IsDatePart)
  }

  function TimeParts(ps: seq<Part>): seq<Part> {
    KeepKeys(ps, IsTimePart)
  }

  /** `parts.some(part => part.key === 'weekday')` */
  predicate HasWeekday(ps: seq<Part>) {
    exists i :: 0 <= i < |ps| && ps[i].key == Weekday
  }

  lemma {:induction false} KeepKeysAppend(a: seq<Part>, b: seq<Part>, p: TimeKey -> bool)
    ensures KeepKeys(a + b, p) == KeepKeys(a, p) + KeepKeys(b, p)
    decreases |b|
  {
    if |b| == 0 {
      assert a + b == a;
    } else {
      var b' := b[..|b| - 1];
      assert (a + b)[..|a + b| - 1] == a + b';
      KeepKeysAppend(a, b', p);
    }
  }

  lemma {:induction false} KeepKeysAll(a: seq<Part>, p: TimeKey -> bool)
    requires forall i :: 0 <= i < |a| ==> p(a[i].key)
    ensures KeepKeys(a, p) == a
    decreases |a|
  {
    if |a| > 0 {
      var init, last := a[..|a| - 1], a[|a| - 1];
      forall i | 0 <= i < |init| ensures p(init[i].key) {
        assert init[i] == a[i];
      }
      KeepKeysAll(init, p);
      assert p(last.key);
      assert a == init + [last];
    }
  }

  lemma {:induction false} KeepKeysNone(a: seq<Part>, p: TimeKey -> bool)
    requires forall i :: 0 <= i < |a| ==> !p(a[i].key)
    ensures KeepKeys(a, p) == []
    decreases |a|
  {
    if |a| > 0 {
      KeepKeysNone(a[..|a| - 1], p);
    }
  }

  /** Keeping some parts keeps them readable. */
  lemma {:induction false} KeepKeysRecognised(ps: seq<Part>, p: TimeKey -> bool)
    requires forall i :: 0 <= i < |ps| ==> Recognised(ps[i])
    ensures forall i :: 0 <= i < |KeepKeys(ps, p)| ==> Recognised(KeepKeys(ps, p)[i])
    decreases |ps|
  {
    if |ps| > 0 {
      var init := ps[..|ps| - 1];
      forall i | 0 <= i < |init| ensures Recognised(init[i]) {
        assert init[i] == ps[i];
      }
      KeepKeysRecognised(init, p);
    }
  }

  // ---------------------------------------------------------------- stringify

  /** `s.replaceAll(/%/g, '%%')` */
  function DoublePercents(s: string): (r: string)
    ensures '%' !in s ==> r == s
    ensures forall c :: c in r ==> c in s
  {
    if |s| == 0 then ""
    else (if s[0] == '%' then "%%" else [s[0]]) + DoublePercents(s[1..])
  }

  lemma DoublePercentsChar(c: char)
    ensures DoublePercents([c]) == if c == '%' then "%%" else [c]
  {
    assert [c][1..] == [];
  }

  /** Escaping works piece by piece: with `DoublePercentsChar`, every `%` becomes `%%`
      and every other character stays, in order. */
  lemma {:induction false} DoublePercentsAppend(a: string, b: string)
    ensures DoublePercents(a + b) == DoublePercents(a) + DoublePercents(b)
    decreases |a|
  {
    if |a| > 0 {
      assert (a + b)[0] == a[0];
      assert (a + b)[1..] == a[1..] + b;
      DoublePercentsAppend(a[1..], b);
    } else {
      assert a + b == b;
    }
  }

  /** The input without its leading whitespace. */
  function DropWhitespace(s: string): (r: string)
    ensures |r| <= |s| && (|r| > 0 ==> !IsWhitespace(r[0]))
    ensures forall c :: c in r ==> c in s
  {
    if |s| > 0 && IsWhitespace(s[0]) then DropWhitespace(s[1..]) else s
  }

  /** `s.replaceAll(/\s+/g, '-')`: each run of whitespace becomes one `-`. */
  function CollapseWhitespace(s: string): (r: string)
    ensures forall c :: c in r ==> !IsWhitespace(c)
    ensures (forall c :: c in s ==> !IsWhitespace(c)) ==> r == s
    ensures forall c :: c in r ==> c in s || c == '-'
    decreases |s|
  {
    if |s| == 0 then ""
    else if IsWhitespace(s[0]) then "-" + CollapseWhitespace(DropWhitespace(s))
    else [s[0]] + CollapseWhitespace(s[1..])
  }

  /** A run of whitespace becomes exactly one `-`, whatever follows it. */
  lemma {:induction false} CollapseRun(w: string, v: string)
    requires |w| > 0 && forall i :: 0 <= i < |w| ==> IsWhitespace(w[i])
    requires |v| == 0 || !IsWhitespace(v[0])
    ensures CollapseWhitespace(w + v) == "-" + CollapseWhitespace(v)
  {
    assert IsWhitespace((w + v)[0]);
    DropWhitespaceRun(w, v);
  }

  lemma {:induction false} DropWhitespaceRun(w: string, v: string)
    requires forall i :: 0 <= i < |w| ==> IsWhitespace(w[i])
    requires |v| == 0 || !IsWhitespace(v[0])
    ensures DropWhitespace(w + v) == v
    decreases |w|
  {
    if |w| > 0 {
      assert (w + v)[1..] == w[1..] + v;
      DropWhitespaceRun(w[1..], v);
    } else {
      assert w + v == v;
    }
  }

  /** Text that ends in a non-space collapses on its own: the runs of `a + b` are
      those of `a` and those of `b`. */
  lemma {:induction false} CollapseAppend(a: string, b: string)
    requires |a| == 0 || !IsWhitespace(a[|a| - 1])
    ensures CollapseWhitespace(a + b) == CollapseWhitespace(a) + CollapseWhitespace(b)
    decreases |a|
  {
    if |a| == 0 {
      assert a + b == b;
    } else if IsWhitespace(a[0]) {
      var k := WhitespacePrefix(a);
      var w, u := a[..k], a[k..];
      assert a == w + u && a + b == w + (u + b);
      CollapseRun(w, u);
      CollapseRun(w, u + b);
      CollapseAppend(u, b);
    } else {
      assert (a + b)[1..] == a[1..] + b;
      CollapseAppend(a[1..], b);
    }
  }

  /** The length of the leading whitespace of a text that ends in a non-space. */
  lemma WhitespacePrefix(a: string) returns (k: nat)
    requires |a| > 0 && !IsWhitespace(a[|a| - 1])
    ensures 0 < k < |a| || (k == 0 && !IsWhitespace(a[0]))
    ensures forall i :: 0 <= i < k ==> IsWhitespace(a[i])
    ensures !IsWhitespace(a[k])
  {
    k := 0;
    while IsWhitespace(a[k])
      invariant k < |a|
      invariant forall i :: 0 <= i < k ==> IsWhitespace(a[i])
      decreases |a| - k
    {
      k := k + 1;
    }
  }

  /** The date separator as printed: `%` escaped, whitespace replaced by `-`. */
  function SafeDateSeparator(sep: string): (r: string)
    ensures forall c :: c in r ==> !IsWhitespace(c)
    ensures (forall c :: c in sep ==> c != '%' && !IsWhitespace(c)) ==> r == sep
  {
    CollapseWhitespace(DoublePercents(sep))
  }

  /** A one-character separator prints as `%%` for `%`, as `-` for whitespace, and
      as itself otherwise. */
  lemma SafeDateSeparatorChar(c: char)
    ensures SafeDateSeparator([c]) == if c == '%' then "%%" else if IsWhitespace(c) then "-" else [c]
  {
    DoublePercentsChar(c);
  }

  function DatePattern(o: TimeFormatOptions): string {
    Join(Patterns(DateParts(o.parts)), SafeDateSeparator(o.dateSeparator))
  }

  function WeekdayPattern(o: TimeFormatOptions): string {
    if HasWeekday(o.parts) then " %a" else ""
  }

  function TimePattern(o: TimeFormatOptions): string {
    Join(Patterns(TimeParts(o.parts)), ":")
  }

  function ZonePattern(o: TimeFormatOptions): string {
    if TimePattern(o) != "" && o.timeZone then " (%Z)" else ""
  }

  /** `stringifyTimeFormat` */
  function StringifyTimeFormat(o: TimeFormatOptions): string {
    DatePattern(o) + WeekdayPattern(o) + " " + TimePattern(o) + ZonePattern(o)
  }

  // ---------------------------------------------------------------- compile

  /** `[%a-zA-Z0-9]` */
  predicate IsPatternChar(c: char) {
    c == '%' || IsAsciiLetter(c) || IsDigit(c)
  }

  /** `raw.match(/[^%a-zA-Z0-9]/)?.[0] ?? '/'` */
  function FirstSeparator(raw: string): (c: char)
    ensures c == '/' || (c in raw && !IsPatternChar(c))
    ensures (forall i :: 0 <= i < |raw| ==> IsPatternChar(raw[i])) ==> c == '/'
    ensures forall i :: 0 <= i < |raw| && !IsPatternChar(raw[i]) && (forall j :: 0 <= j < i ==> IsPatternChar(raw[j])) ==> c == raw[i]
  {
    if |raw| == 0 then '/'
    else if !IsPatternChar(raw[0]) then raw[0]
    else
      var c := FirstSeparator(raw[1..]);
      assert forall i :: 1 <= i < |raw| ==> raw[i] == raw[1..][i - 1];
      c
  }

  /** `raw.includes('%Z')` */
  predicate HasZoneToken(raw: string) {
    exists i :: 0 <= i < |raw| - 1 && raw[i] == '%' && raw[i + 1] == 'Z'
  }

  /** The text of a recognised part: `%` and a letter other than `Z`. */
  predicate PatternToken(s: string) {
    |s| == 2 && s[0] == '%' && IsAsciiLetter(s[1]) && s[1] != 'Z'
  }

  /** One step of the loop: the part a token stands for, if any. The tokens the loop
      compares with are `%` and one letter, so the comparison is made on the letter. */
  function Recognise(token: string): (r: Option<Part>)
    ensures r.Some? ==> r.value.pattern == token && PatternToken(token)
    ensures r.Some? ==> (r.value.key == Weekday <==> token == "%a" || token == "%A")
  {
    if |token| != 2 || token[0] != '%' then None
    else
      var c := token[1];
      if c == 'Y' then Some(Part(Year, token))
      else if c == 'm' then Some(Part(Month, token))
      else if c == 'a' || c == 'A' then Some(Part(Weekday, token))
      else if c == 'd' then Some(Part(Day, token))
      else if c == 'H' then Some(Part(Hour, token))
      else if c == 'M' then Some(Part(Minute, token))
      else if c == 'S' then Some(Part(Second, token))
      else None
  }

  /** Exactly the eight tokens of the loop are recognised, each as its own key. */
  lemma RecogniseTokens(token: string)
    ensures Recognise(token).Some? <==> token in {"%Y", "%m", "%a", "%A", "%d", "%H", "%M", "%S"}
    ensures token == "%Y" ==> Recognise(token) == Some(Part(Year, token))
    ensures token == "%m" ==> Recognise(token) == Some(Part(Month, token))
    ensures token == "%a" || token == "%A" ==> Recognise(token) == Some(Part(Weekday, token))
    ensures token == "%d" ==> Recognise(token) == Some(Part(Day, token))
    ensures token == "%H" ==> Recognise(token) == Some(Part(Hour, token))
    ensures token == "%M" ==> Recognise(token) == Some(Part(Minute, token))
    ensures token == "%S" ==> Recognise(token) == Some(Part(Second, token))
  {
    if |token| == 2 && token[0] == '%' {
      assert token == ['%', token[1]];
    }
  }

  /** A part that reads back as itself. */
  predicate Recognised(p: Part) {
    Recognise(p.pattern) == Some(p)
  }

  /** The parts of all the tokens, in order; unknown tokens are skipped. */
  function RecogniseAll(tokens: seq<string>): (r: seq<Part>)
    ensures |r| <= |tokens|
  {
    if |tokens| == 0 then []
    else
      var last := Recognise(tokens[|tokens| - 1]);
      RecogniseAll(tokens[..|tokens| - 1]) + (if last.Some? then [last.value] else [])
  }

  /** Every part found reads back as itself. */
  lemma {:induction false} RecognisedAll(tokens: seq<string>)
    ensures forall i :: 0 <= i < |RecogniseAll(tokens)| ==> Recognised(RecogniseAll(tokens)[i])
    decreases |tokens|
  {
    if |tokens| > 0 {
      RecognisedAll(tokens[..|tokens| - 1]);
    }
  }

  /** The tokens as written: the first space-separated segment split at the date
      separator, then the second segment (if any) split at `:`. */
  function Tokens(raw: string): seq<string> {
    var segments := Split(raw, ' ');
    Split(segments[0], FirstSeparator(raw)) + (if |segments| > 1 then Split(segments[1], ':') else [])
  }

  /** The options `compileTimeFormat` returns; its error branch cannot be reached. */
  function TimeFormatOf(raw: string): (o: TimeFormatOptions)
    ensures |o.dateSeparator| == 1 && (o.dateSeparator == "/" || !IsPatternChar(o.dateSeparator[0]))
    ensures forall i :: 0 <= i < |o.parts| ==> Recognised(o.parts[i])
  {
    RecognisedAll(Tokens(raw));
    TimeFormatOptions(RecogniseAll(Tokens(raw)), [FirstSeparator(raw)], HasZoneToken(raw))
  }

  /** The `for` loop of `compileTimeFormat`. */
  method CollectParts(tokens: seq<string>) returns (parts: seq<Part>)
    ensures parts == RecogniseAll(tokens)
  {
    parts := [];
    for i := 0 to |tokens|
      invariant parts == RecogniseAll(tokens[..i])
    {
      assert tokens[..i + 1][..i] == tokens[..i];
      var part := Recognise(tokens[i]);
      if part.Some? {
        parts := parts + [part.value];
      }
    }
    assert tokens[..|tokens|] == tokens;
  }

  /** `compileTimeFormat`, as written. */
  method CompileTimeFormat(raw: string) returns (o: TimeFormatOptions)
    ensures o == TimeFormatOf(raw)
  {
    var dateSeparator := FirstSeparator(raw);
    var timeZone := HasZoneToken(raw);
    var segments := Split(raw, ' ');
    var dateParts := Split(segments[0], dateSeparator);
    var timeParts := if |segments| > 1 then Split(segments[1], ':') else [];
    var parts := CollectParts(dateParts + timeParts);
    o := TimeFormatOptions(parts, [dateSeparator], timeZone);
  }

  // ---------------------------------------------------------------- the weekday segment

  /** `xs.flatMap(x => x.split(c))` */
  function SplitEach(xs: seq<string>, c: char): seq<string> {
    if |xs| == 0 then [] else Split(xs[0], c) + SplitEach(xs[1..], c)
  }

  /** The tokens as intended: every segment after the first is split at `:`, so the
      time segment is read also when the weekday segment comes before it. */
  function TokensFixed(raw: string): seq<string> {
    var segments := Split(raw, ' ');
    Split(segments[0], FirstSeparator(raw)) + SplitEach(segments[1..], ':')
  }

  function TimeFormatOfFixed(raw: string): (o: TimeFormatOptions)
    ensures |o.dateSeparator| == 1 && (o.dateSeparator == "/" || !IsPatternChar(o.dateSeparator[0]))
    ensures forall i :: 0 <= i < |o.parts| ==> Recognised(o.parts[i])
  {
    RecognisedAll(TokensFixed(raw));
    TimeFormatOptions(RecogniseAll(TokensFixed(raw)), [FirstSeparator(raw)], HasZoneToken(raw))
  }

  /** The two readings split the same tokens out of a text with at most two
      space-separated segments; they part only when a third segment follows. */
  lemma TokensAgree(raw: string)
    ensures |Split(raw, ' ')| <= 2 ==> TokensFixed(raw) == Tokens(raw)
    ensures |Split(raw, ' ')| > 2 ==> TokensFixed(raw) == Tokens(raw) + SplitEach(Split(raw, ' ')[2..], ':')
  {
    var segments := Split(raw, ' ');
    if |segments| > 1 {
      assert segments[1..] == [segments[1]] + segments[2..];
      assert SplitEach(segments[1..], ':') == Split(segments[1], ':') + SplitEach(segments[2..], ':');
      AppendAssoc(Split(segments[0], FirstSeparator(raw)), Split(segments[1], ':'), SplitEach(segments[2..], ':'));
      if |segments| == 2 {
        assert segments[2..] == [];
      }
    } else {
      assert segments[1..] == [];
    }
  }

  /** `compileTimeFormat` with the time segment read after a weekday. */
  method CompileTimeFormatFixed(raw: string) returns (o: TimeFormatOptions)
    ensures o == TimeFormatOfFixed(raw)
  {
    var dateSeparator := FirstSeparator(raw);
    var timeZone := HasZoneToken(raw);
    var segments := Split(raw, ' ');
    var tokens := Split(segments[0], dateSeparator) + SplitEach(segments[1..], ':');
    var parts := CollectParts(tokens);
    o := TimeFormatOptions(parts, [dateSeparator], timeZone);
  }

  // ---------------------------------------------------------------- round trip

  /** Parts in the order the printer writes them: date parts, one `%a` weekday if any
      part is a weekday, then time parts. */
  function Normalize(ps: seq<Part>): (r: seq<Part>)
    ensures forall i :: 0 <= i < |r| ==> r[i] in ps || r[i] == Part(Weekday, "%a")
  {
    DateParts(ps) + (if HasWeekday(ps) then [Part(Weekday, "%a")] else []) + TimeParts(ps)
  }

  /** A date separator that the printer keeps and the parser finds: one character
      that is not whitespace, `%`, a letter or a digit. */
  predicate ValidSeparator(sep: string) {
    |sep| == 1 && !IsPatternChar(sep[0]) && !IsWhitespace(sep[0])
  }

  /** Options whose parts all read back as themselves. */
  predicate WellFormed(o: TimeFormatOptions) {
    ValidSeparator(o.dateSeparator) && forall i :: 0 <= i < |o.parts| ==> Recognised(o.parts[i])
  }

  predicate PatternTokens(pats: seq<string>) {
    forall i :: 0 <= i < |pats| ==> PatternToken(pats[i])
  }

  lemma RecognisedPatterns(ps: seq<Part>)
    requires forall i :: 0 <= i < |ps| ==> Recognised(ps[i])
    ensures PatternTokens(Patterns(ps))
  {
    forall i | 0 <= i < |ps|
      ensures PatternToken(Patterns(ps)[i])
    {
      assert Recognised(ps[i]);
    }
  }

  lemma {:induction false} RecogniseAllAppend(a: seq<string>, b: seq<string>)
    ensures RecogniseAll(a + b) == RecogniseAll(a) + RecogniseAll(b)
    decreases |b|
  {
    if |b| == 0 {
      assert a + b == a;
    } else {
      var b' := b[..|b| - 1];
      assert (a + b)[..|a + b| - 1] == a + b';
      RecogniseAllAppend(a, b');
    }
  }

  lemma {:induction false} RecognisePatterns(ps: seq<Part>)
    requires forall i :: 0 <= i < |ps| ==> Recognised(ps[i])
    ensures RecogniseAll(Patterns(ps)) == ps
    decreases |ps|
  {
    if |ps| > 0 {
      var init, last := ps[..|ps| - 1], ps[|ps| - 1];
      assert RecogniseAll(Patterns(init)) == init by {
        forall i | 0 <= i < |init| ensures Recognised(init[i]) {
          assert init[i] == ps[i];
        }
        RecognisePatterns(init);
      }
      assert RecogniseAll(Patterns(ps)) == init + [last] by {
        assert Patterns(ps) == Patterns(init) + [last.pattern];
        assert Recognised(last);
        RecogniseAllSnoc(Patterns(ps), init, last);
      }
      assert ps == init + [last];
    }
  }

  lemma RecogniseAllSnoc(tokens: seq<string>, init: seq<Part>, last: Part)
    requires |tokens| > 0 && RecogniseAll(tokens[..|tokens| - 1]) == init
    requires Recognise(tokens[|tokens| - 1]) == Some(last)
    ensures RecogniseAll(tokens) == init + [last]
  {
  }

  lemma RecogniseEmptyToken()
    ensures RecogniseAll([""]) == []
  {
    assert RecogniseAll([""]) == RecogniseAll([]) + [];
  }

  lemma {:induction false} FirstSeparatorSkips(u: string, v: string)
    requires forall i :: 0 <= i < |u| ==> IsPatternChar(u[i])
    ensures FirstSeparator(u + v) == FirstSeparator(v)
    decreases |u|
  {
    if |u| > 0 {
      assert (u + v)[1..] == u[1..] + v;
      FirstSeparatorSkips(u[1..], v);
    } else {
      assert u + v == v;
    }
  }

  /** No character outside `[%a-zA-Y]` occurs in a join of pattern tokens, except in
      the separator. */
  lemma JoinTokensAvoids(pats: seq<string>, sep: string, ch: char)
    requires PatternTokens(pats)
    requires (!IsAsciiLetter(ch) && ch != '%') || ch == 'Z'
    requires ch !in sep
    ensures ch !in Join(pats, sep)
  {
    forall i | 0 <= i < |pats|
      ensures ch !in pats[i]
    {
      assert PatternToken(pats[i]);
    }
    JoinMembers(pats, sep, ch);
  }

  /** The printed date segment, as the parser reads it: the separator when two or more
      tokens use it (otherwise the first space), and the tokens themselves. */
  lemma DateTokens(pats: seq<string>, c: char, rest: string)
    requires PatternTokens(pats)
    requires !IsPatternChar(c) && c != ' '
    ensures var sep := FirstSeparator(Join(pats, [c]) + " " + rest);
      && sep == (if |pats| >= 2 then c else ' ')
      && Split(Join(pats, [c]), sep) == (if |pats| == 0 then [""] else pats)
  {
    if |pats| >= 2 {
      SeveralDateTokens(pats, c, rest);
    } else {
      FewDateTokens(pats, c, rest);
    }
  }

  lemma SeveralDateTokens(pats: seq<string>, c: char, rest: string)
    requires PatternTokens(pats) && |pats| >= 2
    requires !IsPatternChar(c) && c != ' '
    ensures FirstSeparator(Join(pats, [c]) + " " + rest) == c
    ensures Split(Join(pats, [c]), c) == pats
  {
    assert FirstSeparator(Join(pats, [c]) + " " + rest) == c by {
      SeparatorAfterFirstToken(pats, c, rest);
    }
    assert Split(Join(pats, [c]), c) == pats by {
      forall i | 0 <= i < |pats| ensures c !in pats[i] {
        assert PatternToken(pats[i]);
        assert pats[i] == [pats[i][0], pats[i][1]];
      }
      SplitJoin(pats, c);
    }
  }

  lemma SeparatorAfterFirstToken(pats: seq<string>, c: char, rest: string)
    requires |pats| >= 2 && PatternToken(pats[0])
    requires !IsPatternChar(c)
    ensures FirstSeparator(Join(pats, [c]) + " " + rest) == c
  {
    var j := Join(pats[1..], [c]);
    assert Join(pats, [c]) == pats[0] + [c] + j;
    Reassociate(pats[0], [c], j, " ", rest);
    FirstSeparatorSkips(pats[0], [c] + (j + " " + rest));
  }

  lemma Reassociate(a: string, b: string, j: string, s: string, r: string)
    ensures a + b + j + s + r == a + (b + (j + s + r))
  {
  }

  lemma FewDateTokens(pats: seq<string>, c: char, rest: string)
    requires PatternTokens(pats) && |pats| < 2
    ensures FirstSeparator(Join(pats, [c]) + " " + rest) == ' '
    ensures Split(Join(pats, [c]), ' ') == (if |pats| == 0 then [""] else pats)
  {
    var d := Join(pats, [c]);
    assert d == (if |pats| == 0 then "" else pats[0]);
    assert forall i :: 0 <= i < |d| ==> IsPatternChar(d[i]) by {
      if |pats| == 1 {
        assert PatternToken(pats[0]);
      }
    }
    assert d + " " + rest == d + (" " + rest);
    FirstSeparatorSkips(d, " " + rest);
    SplitWithoutSeparator(d, ' ');
  }

  /** The printed time segment splits at `:` into its tokens. */
  lemma TimeTokens(pats: seq<string>)
    requires PatternTokens(pats)
    ensures Split(Join(pats, ":"), ':') == (if |pats| == 0 then [""] else pats)
    ensures Join(pats, ":") == "" <==> |pats| == 0
  {
    if |pats| > 0 {
      forall i | 0 <= i < |pats|
        ensures ':' !in pats[i]
      {
        assert PatternToken(pats[i]);
      }
      SplitJoin(pats, ':');
      assert PatternToken(pats[0]);
      if |pats| > 1 {
        assert Join(pats, ":") == pats[0] + ":" + Join(pats[1..], ":");
      }
    }
  }

  /** The printed text splits at spaces into the date segment, the weekday segment if
      any, the time segment and the zone segment if any. */
  lemma PrintedSegments(d: string, weekday: bool, t: string, zone: bool)
    requires ' ' !in d && ' ' !in t
    ensures Split(d + (if weekday then " %a" else "") + " " + t + (if zone then " (%Z)" else ""), ' ')
      == [d] + (if weekday then ["%a"] else []) + [t] + (if zone then ["(%Z)"] else [])
  {
    var z := if zone then " (%Z)" else "";
    var w := if weekday then " %a" else "";
    var ws: seq<string> := if weekday then ["%a"] else [];
    var zs: seq<string> := if zone then ["(%Z)"] else [];
    assert Split(t + z, ' ') == [t] + zs by {
      ZoneSegment(t, zone);
    }
    assert d + w + " " + t + z == d + w + " " + (t + z) by {
      AppendAssoc(d + w + " ", t, z);
    }
    DateAndWeekdaySegments(d, weekday, t + z);
    AppendAssoc([d] + ws, [t], zs);
  }

  lemma DateAndWeekdaySegments(d: string, weekday: bool, rest: string)
    requires ' ' !in d
    ensures Split(d + (if weekday then " %a" else "") + " " + rest, ' ')
      == [d] + (if weekday then ["%a"] else []) + Split(rest, ' ')
  {
    if weekday {
      WeekdaySegments(d, rest);
    } else {
      assert d + "" == d;
      FirstSegment(d, rest);
    }
  }

  lemma FirstSegment(d: string, rest: string)
    requires ' ' !in d
    ensures Split(d + " " + rest, ' ') == [d] + Split(rest, ' ')
  {
    assert d + " " + rest == d + [' '] + rest;
    SplitAtFirst(d, rest, ' ');
  }

  lemma WeekdaySegments(d: string, rest: string)
    requires ' ' !in d
    ensures Split(d + " %a" + " " + rest, ' ') == [d, "%a"] + Split(rest, ' ')
  {
    var r := "%a" + " " + rest;
    WeekdayRegroup(d, rest);
    FirstSegment(d, r);
    FirstSegment("%a", rest);
  }

  lemma WeekdayRegroup(d: string, rest: string)
    ensures d + " %a" + " " + rest == d + " " + ("%a" + " " + rest)
  {
    assert " %a" == " " + "%a";
  }

  lemma ZoneSegment(t: string, zone: bool)
    requires ' ' !in t
    ensures Split(t + (if zone then " (%Z)" else ""), ' ') == [t] + (if zone then ["(%Z)"] else [])
  {
    if zone {
      assert t + " (%Z)" == t + [' '] + "(%Z)";
      SplitAtFirst(t, "(%Z)", ' ');
      SplitWithoutSeparator("(%Z)", ' ');
    } else {
      assert t + "" == t;
      SplitWithoutSeparator(t, ' ');
    }
  }

  /** `%Z` occurs in the printed text exactly when the zone segment is printed. */
  lemma PrintedZone(u: string, zone: bool)
    requires 'Z' !in u
    ensures HasZoneToken(u + (if zone then " (%Z)" else "")) <==> zone
  {
    var raw := u + (if zone then " (%Z)" else "");
    if zone {
      assert raw[|u| + 2] == '%' && raw[|u| + 3] == 'Z';
    } else {
      assert raw == u;
      forall i | 0 <= i < |raw| - 1
        ensures !(raw[i] == '%' && raw[i + 1] == 'Z')
      {
        assert raw[i + 1] in u;
      }
    }
  }

  lemma WeekdayAndZoneTokens()
    ensures Split("%a", ':') == ["%a"] && RecogniseAll(["%a"]) == [Part(Weekday, "%a")]
    ensures Split("(%Z)", ':') == ["(%Z)"] && RecogniseAll(["(%Z)"]) == []
  {
    SplitWithoutSeparator("%a", ':');
    SplitWithoutSeparator("(%Z)", ':');
    assert RecogniseAll(["%a"]) == RecogniseAll([]) + [Part(Weekday, "%a")];
    assert RecogniseAll(["(%Z)"]) == RecogniseAll([]) + [];
  }

  /** The printed date and time patterns are joins of pattern tokens, without spaces
      and without `Z`. */
  lemma PrintedPatterns(o: TimeFormatOptions)
    requires WellFormed(o)
    ensures PatternTokens(Patterns(DateParts(o.parts))) && PatternTokens(Patterns(TimeParts(o.parts)))
    ensures DatePattern(o) == Join(Patterns(DateParts(o.parts)), o.dateSeparator)
    ensures ' ' !in DatePattern(o) && 'Z' !in DatePattern(o)
    ensures ' ' !in TimePattern(o) && 'Z' !in TimePattern(o)
  {
    var dp := DateParts(o.parts);
    var tp := TimeParts(o.parts);
    var c := o.dateSeparator[0];
    assert SafeDateSeparator(o.dateSeparator) == o.dateSeparator == [c];
    KeepKeysRecognised(o.parts, IsDatePart);
    KeepKeysRecognised(o.parts, IsTimePart);
    RecognisedPatterns(dp);
    RecognisedPatterns(tp);
    JoinTokensAvoids(Patterns(dp), [c], ' ');
    JoinTokensAvoids(Patterns(tp), ":", ' ');
    JoinTokensAvoids(Patterns(dp), [c], 'Z');
    JoinTokensAvoids(Patterns(tp), ":", 'Z');
  }

  /** The printed text splits at spaces into its segments. */
  lemma PrintedTextSegments(o: TimeFormatOptions)
    requires WellFormed(o)
    ensures Split(StringifyTimeFormat(o), ' ') == [DatePattern(o)] + (if HasWeekday(o.parts) then ["%a"] else [])
      + [TimePattern(o)] + (if ZonePattern(o) != "" then ["(%Z)"] else [])
  {
    PrintedPatterns(o);
    PrintedSegments(DatePattern(o), HasWeekday(o.parts), TimePattern(o), ZonePattern(o) != "");
  }

  lemma Regroup(d: string, weekday: bool, t: string, z: string)
    ensures d + (if weekday then " %a" else "") + " " + t + z
      == d + " " + ((if weekday then "%a " else "") + t + z)
  {
  }

  /** The date segment reads back as the date parts; the separator is found when two
      or more date parts use it. */
  lemma PrintedTextDate(o: TimeFormatOptions)
    requires WellFormed(o)
    ensures var raw := StringifyTimeFormat(o);
      && FirstSeparator(raw) == (if |DateParts(o.parts)| >= 2 then o.dateSeparator[0] else ' ')
      && RecogniseAll(Split(DatePattern(o), FirstSeparator(raw))) == DateParts(o.parts)
  {
    var dp := DateParts(o.parts);
    var c := o.dateSeparator[0];
    var d, t, z := DatePattern(o), TimePattern(o), ZonePattern(o);
    var weekday := HasWeekday(o.parts);
    var rest := (if weekday then "%a " else "") + t + z;
    assert StringifyTimeFormat(o) == d + " " + rest by {
      Regroup(d, weekday, t, z);
    }
    assert d == Join(Patterns(dp), [c]) && PatternTokens(Patterns(dp)) by {
      PrintedPatterns(o);
      assert o.dateSeparator == [c];
    }
    DateTokens(Patterns(dp), c, rest);
    assert RecogniseAll(if |dp| == 0 then [""] else Patterns(dp)) == dp by {
      if |dp| == 0 {
        RecogniseEmptyToken();
      } else {
        KeepKeysRecognised(o.parts, IsDatePart);
        RecognisePatterns(dp);
      }
    }
  }

  /** The time segment reads back as the time parts. */
  lemma PrintedTextTime(o: TimeFormatOptions)
    requires WellFormed(o)
    ensures RecogniseAll(Split(TimePattern(o), ':')) == TimeParts(o.parts)
    ensures ZonePattern(o) != "" <==> o.timeZone && |TimeParts(o.parts)| > 0
  {
    var tp := TimeParts(o.parts);
    PrintedPatterns(o);
    TimeTokens(Patterns(tp));
    if |tp| == 0 {
      RecogniseEmptyToken();
    } else {
      KeepKeysRecognised(o.parts, IsTimePart);
      RecognisePatterns(tp);
    }
  }

  /** The zone flag reads back when a time segment is printed. */
  lemma PrintedTextZone(o: TimeFormatOptions)
    requires WellFormed(o)
    ensures HasZoneToken(StringifyTimeFormat(o)) <==> o.timeZone && |TimeParts(o.parts)| > 0
  {
    var u := DatePattern(o) + WeekdayPattern(o) + " " + TimePattern(o);
    var zone := ZonePattern(o) != "";
    assert 'Z' !in u by {
      PrintedPatterns(o);
    }
    assert zone <==> o.timeZone && |TimeParts(o.parts)| > 0 by {
      PrintedTextTime(o);
    }
    assert StringifyTimeFormat(o) == u + (if zone then " (%Z)" else "");
    PrintedZone(u, zone);
  }

  /** The facts both readers rely on. */
  lemma PrintedText(o: TimeFormatOptions)
    requires WellFormed(o)
    ensures var raw := StringifyTimeFormat(o);
      var dp := DateParts(o.parts);
      var tp := TimeParts(o.parts);
      && Split(raw, ' ') == [DatePattern(o)] + (if HasWeekday(o.parts) then ["%a"] else [])
           + [TimePattern(o)] + (if ZonePattern(o) != "" then ["(%Z)"] else [])
      && FirstSeparator(raw) == (if |dp| >= 2 then o.dateSeparator[0] else ' ')
      && RecogniseAll(Split(DatePattern(o), FirstSeparator(raw))) == dp
      && RecogniseAll(Split(TimePattern(o), ':')) == tp
      && (ZonePattern(o) != "" <==> o.timeZone && |tp| > 0)
      && (HasZoneToken(raw) <==> o.timeZone && |tp| > 0)
  {
    PrintedTextSegments(o);
    PrintedTextDate(o);
    PrintedTextTime(o);
    PrintedTextZone(o);
  }

  /** The weekday and zone segments: each is one token. */
  predicate ExtraSegment(w: seq<string>) {
    w == [] || w == ["%a"] || w == ["(%Z)"]
  }

  lemma ExtraSegmentTokens(w: seq<string>)
    requires ExtraSegment(w)
    ensures SplitEach(w, ':') == w
    ensures RecogniseAll(w) == (if w == ["%a"] then [Part(Weekday, "%a")] else [])
  {
    WeekdayAndZoneTokens();
    if w != [] {
      assert SplitEach(w, ':') == Split(w[0], ':') + SplitEach([], ':');
    }
  }

  /** Reading the segments of a printed text, as written and as intended. */
  lemma ReadSegments(raw: string, d: string, w: seq<string>, t: string, zs: seq<string>, dp: seq<Part>, tp: seq<Part>)
    requires w == [] || w == ["%a"]
    requires zs == [] || zs == ["(%Z)"]
    requires Split(raw, ' ') == [d] + w + [t] + zs
    requires RecogniseAll(Split(d, FirstSeparator(raw))) == dp
    requires RecogniseAll(Split(t, ':')) == tp
    ensures RecogniseAll(Tokens(raw)) == dp + (if w != [] then [Part(Weekday, "%a")] else tp)
    ensures RecogniseAll(TokensFixed(raw)) == dp + (if w != [] then [Part(Weekday, "%a")] else []) + tp
  {
    var segments := Split(raw, ' ');
    var dateTokens := Split(d, FirstSeparator(raw));
    var timeTokens := Split(t, ':');
    assert RecogniseAll(Tokens(raw)) == dp + (if w != [] then [Part(Weekday, "%a")] else tp) by {
      assert segments[1] == (if w == [] then t else "%a");
      ReadAsWritten(raw, dateTokens, w, t);
    }
    assert RecogniseAll(TokensFixed(raw)) == dp + (if w != [] then [Part(Weekday, "%a")] else []) + tp by {
      assert segments[1..] == w + [t] + zs by {
        AppendAssoc([d] + w, [t], zs);
        AppendAssoc([d], w, [t] + zs);
        AppendAssoc(w, [t], zs);
        assert ([d] + (w + [t] + zs))[1..] == w + [t] + zs;
      }
      LaterSegments(w, t, zs);
      assert TokensFixed(raw) == dateTokens + (w + timeTokens + zs);
      RecogniseLater(dateTokens, w, timeTokens, zs);
    }
  }

  lemma ReadAsWritten(raw: string, dateTokens: seq<string>, w: seq<string>, t: string)
    requires w == [] || w == ["%a"]
    requires |Split(raw, ' ')| > 1 && Split(raw, ' ')[1] == (if w == [] then t else "%a")
    requires dateTokens == Split(Split(raw, ' ')[0], FirstSeparator(raw))
    ensures RecogniseAll(Tokens(raw)) == RecogniseAll(dateTokens) + (if w != [] then [Part(Weekday, "%a")] else RecogniseAll(Split(t, ':')))
  {
    WeekdayAndZoneTokens();
    var second := Split(Split(raw, ' ')[1], ':');
    assert Tokens(raw) == dateTokens + second;
    RecogniseAllAppend(dateTokens, second);
  }

  lemma LaterSegments(w: seq<string>, t: string, zs: seq<string>)
    requires ExtraSegment(w) && ExtraSegment(zs)
    ensures SplitEach(w + [t] + zs, ':') == w + Split(t, ':') + zs
  {
    var wt := w + [t];
    assert SplitEach(wt + zs, ':') == SplitEach(wt, ':') + zs by {
      SplitEachAppend(wt, zs, ':');
      ExtraSegmentTokens(zs);
    }
    assert SplitEach(wt, ':') == w + Split(t, ':') by {
      SplitEachAppend(w, [t], ':');
      ExtraSegmentTokens(w);
      assert SplitEach([t], ':') == Split(t, ':') + SplitEach([], ':');
      assert Split(t, ':') + [] == Split(t, ':');
    }
  }

  lemma RecogniseLater(dateTokens: seq<string>, w: seq<string>, timeTokens: seq<string>, zs: seq<string>)
    requires w == [] || w == ["%a"]
    requires zs == [] || zs == ["(%Z)"]
    ensures RecogniseAll(dateTokens + (w + timeTokens + zs))
      == RecogniseAll(dateTokens) + (if w != [] then [Part(Weekday, "%a")] else []) + RecogniseAll(timeTokens)
  {
    var a, u, t := RecogniseAll(dateTokens), RecogniseAll(w), RecogniseAll(timeTokens);
    assert u == (if w != [] then [Part(Weekday, "%a")] else []) && RecogniseAll(zs) == [] by {
      ExtraSegmentTokens(w);
      ExtraSegmentTokens(zs);
    }
    assert RecogniseAll(w + timeTokens + zs) == u + t by {
      RecogniseAllAppend(w, timeTokens);
      RecogniseAllAppend(w + timeTokens, zs);
      assert u + t + [] == u + t;
    }
    RecogniseAllAppend(dateTokens, w + timeTokens + zs);
    AppendAssoc(a, u, t);
  }

  /** Printing then reading, as written: the date parts come back, but when a weekday
      is printed its segment is taken for the time segment, so the weekday comes back
      in place of every time part. */
  lemma RecompileAsWritten(o: TimeFormatOptions)
    requires WellFormed(o)
    ensures TimeFormatOf(StringifyTimeFormat(o)) == TimeFormatOptions(
      DateParts(o.parts) + (if HasWeekday(o.parts) then [Part(Weekday, "%a")] else TimeParts(o.parts)),
      if |DateParts(o.parts)| >= 2 then o.dateSeparator else " ",
      o.timeZone && |TimeParts(o.parts)| > 0)
  {
    var raw := StringifyTimeFormat(o);
    PrintedText(o);
    ReadSegments(raw, DatePattern(o), if HasWeekday(o.parts) then ["%a"] else [], TimePattern(o),
      if ZonePattern(o) != "" then ["(%Z)"] else [], DateParts(o.parts), TimeParts(o.parts));
    assert o.dateSeparator == [o.dateSeparator[0]];
  }

  /** A concrete instance: a weekday and an hour print as " %a %H", which reads back
      as the weekday alone. */
  lemma WeekdayHidesTimeParts()
    ensures var o := TimeFormatOptions([Part(Weekday, "%A"), Part(Hour, "%H")], "/", false);
      && StringifyTimeFormat(o) == " %a %H"
      && TimeFormatOf(StringifyTimeFormat(o)).parts == [Part(Weekday, "%a")]
  {
    var o := TimeFormatOptions([Part(Weekday, "%A"), Part(Hour, "%H")], "/", false);
    assert HasWeekday(o.parts) && DateParts(o.parts) == [] && TimeParts(o.parts) == [Part(Hour, "%H")] by {
      WeekdayAndHourParts(o);
    }
    assert StringifyTimeFormat(o) == " %a %H" by {
      WeekdayAndHourText(o);
    }
    WeekdayAndHourWellFormed(o);
    RecompileAsWritten(o);
    assert DateParts(o.parts) + [Part(Weekday, "%a")] == [Part(Weekday, "%a")];
  }

  lemma WeekdayAndHourWellFormed(o: TimeFormatOptions)
    requires o == TimeFormatOptions([Part(Weekday, "%A"), Part(Hour, "%H")], "/", false)
    ensures WellFormed(o)
  {
    assert Recognise("%A") == Some(Part(Weekday, "%A"));
    assert Recognise("%H") == Some(Part(Hour, "%H"));
  }

  lemma WeekdayAndHourParts(o: TimeFormatOptions)
    requires o.parts == [Part(Weekday, "%A"), Part(Hour, "%H")]
    ensures HasWeekday(o.parts) && DateParts(o.parts) == [] && TimeParts(o.parts) == [Part(Hour, "%H")]
  {
    assert o.parts[0].key == Weekday;
    var w, h := Part(Weekday, "%A"), Part(Hour, "%H");
    assert o.parts[..1] == [w];
    assert [w][..0] == [];
    assert KeepKeys([w], IsDatePart) == [] && KeepKeys([w], IsTimePart) == [];
    assert KeepKeys([w, h], IsDatePart) == KeepKeys([w], IsDatePart) + [];
    assert KeepKeys([w, h], IsTimePart) == KeepKeys([w], IsTimePart) + [h];
  }

  lemma WeekdayAndHourText(o: TimeFormatOptions)
    requires HasWeekday(o.parts) && DateParts(o.parts) == [] && TimeParts(o.parts) == [Part(Hour, "%H")]
    requires !o.timeZone
    ensures StringifyTimeFormat(o) == " %a %H"
  {
    assert TimePattern(o) == "%H" by {
      assert Patterns([Part(Hour, "%H")]) == ["%H"];
    }
    assert DatePattern(o) == "" by {
      assert Patterns([]) == [];
    }
    assert ZonePattern(o) == "" && WeekdayPattern(o) == " %a";
    assert " %a" + " " + "%H" == " %a %H";
  }

  lemma {:induction false} SplitEachAppend(a: seq<string>, b: seq<string>, c: char)
    ensures SplitEach(a + b, c) == SplitEach(a, c) + SplitEach(b, c)
    decreases |a|
  {
    if |a| == 0 {
      assert a + b == b;
    } else {
      assert (a + b)[1..] == a[1..] + b;
      SplitEachAppend(a[1..], b, c);
    }
  }

  /** Printing then reading (with the time segment read after a weekday) gives the
      parts in printing order, the separator when two or more date parts use it, and
      the time zone flag when there are time parts. */
  lemma RecompileNormalizes(o: TimeFormatOptions)
    requires WellFormed(o)
    ensures TimeFormatOfFixed(StringifyTimeFormat(o)) == TimeFormatOptions(
      Normalize(o.parts),
      if |DateParts(o.parts)| >= 2 then o.dateSeparator else " ",
      o.timeZone && |TimeParts(o.parts)| > 0)
  {
    var raw := StringifyTimeFormat(o);
    PrintedText(o);
    ReadSegments(raw, DatePattern(o), if HasWeekday(o.parts) then ["%a"] else [], TimePattern(o),
      if ZonePattern(o) != "" then ["(%Z)"] else [], DateParts(o.parts), TimeParts(o.parts));
    assert o.dateSeparator == [o.dateSeparator[0]];
  }

  // ---------------------------------------------------------------- any separator

  /** What the form can hold: parts that read back as themselves and a separator of
      one character, any character. `compileTimeFormat` and the separator field give
      no other. */
  predicate Readable(o: TimeFormatOptions) {
    |o.dateSeparator| == 1 && forall i :: 0 <= i < |o.parts| ==> Recognised(o.parts[i])
  }

  /** The date parts that come back from printed options: none when two or more are
      joined by a letter, a digit or `%`, since the date segment then holds no
      character the parser takes for a separator. */
  function DatesReadBack(o: TimeFormatOptions): seq<Part>
    requires |o.dateSeparator| == 1
  {
    if |DateParts(o.parts)| >= 2 && IsPatternChar(o.dateSeparator[0]) then [] else DateParts(o.parts)
  }

  /** The separator that comes back: the printed one (whitespace is printed as `-`)
      when two or more date parts use it and the parser can find it, else the space
      after the date segment. */
  function SeparatorReadBack(o: TimeFormatOptions): string
    requires |o.dateSeparator| == 1
  {
    if |DateParts(o.parts)| >= 2 && !IsPatternChar(o.dateSeparator[0]) then SafeDateSeparator(o.dateSeparator) else " "
  }

  /** Printing then reading options with any one-character separator, with the parser
      as written. A whitespace separator comes back as `-`; a letter, digit or `%`
      between two or more date parts loses every date part. */
  lemma RecompileAnySeparator(o: TimeFormatOptions)
    requires Readable(o)
    ensures TimeFormatOf(StringifyTimeFormat(o)) == TimeFormatOptions(
      DatesReadBack(o) + (if HasWeekday(o.parts) then [Part(Weekday, "%a")] else TimeParts(o.parts)),
      SeparatorReadBack(o),
      o.timeZone && |TimeParts(o.parts)| > 0)
  {
    var c := o.dateSeparator[0];
    if IsPatternChar(c) && |DateParts(o.parts)| >= 2 {
      UnreadableDates(o);
    } else {
      var o' := PrintedAlike(o);
      RecompileAsWritten(o');
    }
  }

  /** The same with the corrected parser: the weekday no longer hides the time parts. */
  lemma RecompileAnySeparatorFixed(o: TimeFormatOptions)
    requires Readable(o)
    ensures TimeFormatOfFixed(StringifyTimeFormat(o)) == TimeFormatOptions(
      DatesReadBack(o) + (if HasWeekday(o.parts) then [Part(Weekday, "%a")] else []) + TimeParts(o.parts),
      SeparatorReadBack(o),
      o.timeZone && |TimeParts(o.parts)| > 0)
  {
    if IsPatternChar(o.dateSeparator[0]) && |DateParts(o.parts)| >= 2 {
      LostDatesFixed(o);
    } else {
      FoundDatesFixed(o);
    }
  }

  /** The corrected reading when the date parts can be found: all parts come back in
      printing order. */
  lemma FoundDatesFixed(o: TimeFormatOptions)
    requires Readable(o) && !(IsPatternChar(o.dateSeparator[0]) && |DateParts(o.parts)| >= 2)
    ensures TimeFormatOfFixed(StringifyTimeFormat(o)) == TimeFormatOptions(
      DatesReadBack(o) + (if HasWeekday(o.parts) then [Part(Weekday, "%a")] else []) + TimeParts(o.parts),
      SeparatorReadBack(o),
      o.timeZone && |TimeParts(o.parts)| > 0)
  {
    var o' := PrintedAlike(o);
    RecompileNormalizes(o');
  }

  /** `UnreadableDatesFixed` in the terms of `RecompileAnySeparatorFixed`. */
  lemma LostDatesFixed(o: TimeFormatOptions)
    requires Readable(o) && IsPatternChar(o.dateSeparator[0]) && |DateParts(o.parts)| >= 2
    ensures TimeFormatOfFixed(StringifyTimeFormat(o)) == TimeFormatOptions(
      DatesReadBack(o) + (if HasWeekday(o.parts) then [Part(Weekday, "%a")] else []) + TimeParts(o.parts),
      SeparatorReadBack(o),
      o.timeZone && |TimeParts(o.parts)| > 0)
  {
    var w: seq<Part> := if HasWeekday(o.parts) then [Part(Weekday, "%a")] else [];
    UnreadableDatesFixed(o);
    assert DatesReadBack(o) == [];
    assert DatesReadBack(o) + w == w;
  }

  /** Readable options whose date parts the parser can find print as well-formed options
      do: whitespace is printed as `-`, and a separator joining fewer than two date parts
      is not printed at all. */
  lemma PrintedAlike(o: TimeFormatOptions) returns (o': TimeFormatOptions)
    requires Readable(o) && !(IsPatternChar(o.dateSeparator[0]) && |DateParts(o.parts)| >= 2)
    ensures WellFormed(o') && o'.parts == o.parts && o'.timeZone == o.timeZone
    ensures StringifyTimeFormat(o') == StringifyTimeFormat(o)
    ensures DatesReadBack(o) == DateParts(o.parts)
    ensures SeparatorReadBack(o) == if |DateParts(o.parts)| >= 2 then o'.dateSeparator else " "
  {
    var c := o.dateSeparator[0];
    if !IsPatternChar(c) && !IsWhitespace(c) {
      o' := o;
    } else if |DateParts(o.parts)| < 2 {
      o' := o.(dateSeparator := "/");
      SlashSeparator(o);
      assert DatePattern(o) == DatePattern(o');
    } else {
      o' := o.(dateSeparator := "-");
      assert ValidSeparator("-");
      assert SafeDateSeparator(o.dateSeparator) == "-" == SafeDateSeparator(o'.dateSeparator) by {
        assert o.dateSeparator == [c];
        SafeDateSeparatorChar(c);
        SafeDateSeparatorChar('-');
      }
      assert DatePattern(o) == DatePattern(o');
    }
  }

  /** A letter, digit or `%` between two or more date parts: the parser finds the
      space after the date segment, reads that segment as one unknown token and loses
      every date part; the rest reads as with any other separator. */
  lemma UnreadableDates(o: TimeFormatOptions)
    requires Readable(o) && IsPatternChar(o.dateSeparator[0]) && |DateParts(o.parts)| >= 2
    ensures TimeFormatOf(StringifyTimeFormat(o)) == TimeFormatOptions(
      if HasWeekday(o.parts) then [Part(Weekday, "%a")] else TimeParts(o.parts),
      " ",
      o.timeZone && |TimeParts(o.parts)| > 0)
  {
    var o' := o.(dateSeparator := "/");
    var raw := StringifyTimeFormat(o);
    var dp := DateParts(o.parts);
    var rest := RecogniseAll(Tokens(raw));
    ReadPastDates(o, o');
    RecompileAsWritten(o');
    assert rest == (dp + rest)[|dp|..];
  }

  /** The same with the corrected parser: the weekday and the time parts survive, the
      date parts are lost all the same. */
  lemma UnreadableDatesFixed(o: TimeFormatOptions)
    requires Readable(o) && IsPatternChar(o.dateSeparator[0]) && |DateParts(o.parts)| >= 2
    ensures TimeFormatOfFixed(StringifyTimeFormat(o)) == TimeFormatOptions(
      (if HasWeekday(o.parts) then [Part(Weekday, "%a")] else []) + TimeParts(o.parts),
      " ",
      o.timeZone && |TimeParts(o.parts)| > 0)
  {
    var o' := o.(dateSeparator := "/");
    var raw := StringifyTimeFormat(o);
    var dp := DateParts(o.parts);
    var rest := RecogniseAll(TokensFixed(raw));
    ReadPastDates(o, o');
    RecompileNormalizes(o');
    assert rest == (dp + rest)[|dp|..];
    AppendAssoc(dp, if HasWeekday(o.parts) then [Part(Weekday, "%a")] else [], TimeParts(o.parts));
  }

  /** The text printed with a letter, digit or `%` separator against the one printed
      with `/`: the first finds a space as its separator, finds the zone token alike,
      and reads the second's parts without the date parts. */
  lemma ReadPastDates(o: TimeFormatOptions, o': TimeFormatOptions)
    requires Readable(o) && IsPatternChar(o.dateSeparator[0]) && |DateParts(o.parts)| >= 2
    requires o' == o.(dateSeparator := "/")
    ensures WellFormed(o')
    ensures var raw, raw' := StringifyTimeFormat(o), StringifyTimeFormat(o');
      && FirstSeparator(raw) == ' '
      && HasZoneToken(raw) == HasZoneToken(raw')
      && RecogniseAll(Tokens(raw')) == DateParts(o.parts) + RecogniseAll(Tokens(raw))
      && RecogniseAll(TokensFixed(raw')) == DateParts(o.parts) + RecogniseAll(TokensFixed(raw))
  {
    SlashSeparator(o);
    var dp := DateParts(o.parts);
    var weekday := HasWeekday(o.parts);
    var d, d', t, z := DatePattern(o), DatePattern(o'), TimePattern(o), ZonePattern(o);
    var rest := (if weekday then "%a " else "") + t + z;
    assert StringifyTimeFormat(o) == d + " " + rest by {
      Regroup(d, weekday, t, z);
    }
    assert StringifyTimeFormat(o') == d' + " " + rest by {
      Regroup(d', weekday, t, z);
    }
    UnreadableDateSegment(o);
    assert ' ' !in d' && !HasZoneToken(d') by {
      PrintedPatterns(o');
      NoZoneTokenWithoutZ(d');
    }
    assert RecogniseAll(Split(d', FirstSeparator(d' + " " + rest))) == dp by {
      PrintedTextDate(o');
    }
    SpaceAfterDateSegment(d, d', rest);
    FirstSegment(d, rest);
    FirstSegment(d', rest);
    ReadPastDateSegment(d + " " + rest, d' + " " + rest, d, d', Split(rest, ' '));
    ReadPastDateSegmentFixed(d + " " + rest, d' + " " + rest, d, d', Split(rest, ' '));
  }

  /** Readable options with `/` as their separator are well formed. */
  lemma SlashSeparator(o: TimeFormatOptions)
    requires Readable(o)
    ensures WellFormed(o.(dateSeparator := "/"))
  {
    assert ValidSeparator("/");
  }

  /** A date segment of pattern characters alone, then a space: the space is the
      separator found, and the zone token is found as it is after any other date
      segment without one. */
  lemma SpaceAfterDateSegment(d: string, d': string, rest: string)
    requires forall i :: 0 <= i < |d| ==> IsPatternChar(d[i])
    requires !HasZoneToken(d) && !HasZoneToken(d')
    ensures FirstSeparator(d + " " + rest) == ' '
    ensures HasZoneToken(d + " " + rest) == HasZoneToken(d' + " " + rest)
  {
    assert d + " " + rest == d + (" " + rest) && d' + " " + rest == d' + (" " + rest) by {
      AppendAssoc(d, " ", rest);
      AppendAssoc(d', " ", rest);
    }
    FirstSeparatorSkips(d, " " + rest);
    ZoneTokenAfter(d, " " + rest);
    ZoneTokenAfter(d', " " + rest);
  }

  /** The tokens of a text whose first segment is `d`, as written ... */
  lemma TokensOf(raw: string, d: string, segs: seq<string>)
    requires Split(raw, ' ') == [d] + segs
    ensures Tokens(raw) == Split(d, FirstSeparator(raw)) + (if |segs| > 0 then Split(segs[0], ':') else [])
  {
    assert |segs| > 0 ==> ([d] + segs)[1] == segs[0];
  }

  /** ... and as intended. */
  lemma TokensFixedOf(raw: string, d: string, segs: seq<string>)
    requires Split(raw, ' ') == [d] + segs
    ensures TokensFixed(raw) == Split(d, FirstSeparator(raw)) + SplitEach(segs, ':')
  {
    assert ([d] + segs)[1..] == segs;
  }

  /** A date segment read as one unknown token adds no part. */
  lemma UnknownSegment(d: string, c: char)
    requires c !in d && Recognise(d) == None
    ensures RecogniseAll(Split(d, c)) == []
  {
    SplitWithoutSeparator(d, c);
    assert RecogniseAll([d]) == RecogniseAll([]) + [];
  }

  /** Two printed texts that differ only in their date segment, the first read as one
      unknown token: with the parser as written, the first reads as the second without
      its date parts. */
  lemma ReadPastDateSegment(raw: string, raw': string, d: string, d': string, segs: seq<string>)
    requires Split(raw, ' ') == [d] + segs && Split(raw', ' ') == [d'] + segs
    requires FirstSeparator(raw) == ' ' && ' ' !in d && Recognise(d) == None
    ensures RecogniseAll(Tokens(raw')) == RecogniseAll(Split(d', FirstSeparator(raw'))) + RecogniseAll(Tokens(raw))
  {
    var x := if |segs| > 0 then Split(segs[0], ':') else [];
    var dateTokens' := Split(d', FirstSeparator(raw'));
    assert RecogniseAll(Tokens(raw)) == RecogniseAll(x) by {
      TokensOf(raw, d, segs);
      assert Tokens(raw) == Split(d, ' ') + x;
      UnknownSegment(d, ' ');
      RecogniseAllAppend(Split(d, ' '), x);
    }
    assert RecogniseAll(Tokens(raw')) == RecogniseAll(dateTokens') + RecogniseAll(x) by {
      TokensOf(raw', d', segs);
      RecogniseAllAppend(dateTokens', x);
    }
  }

  /** The same with the corrected parser. */
  lemma ReadPastDateSegmentFixed(raw: string, raw': string, d: string, d': string, segs: seq<string>)
    requires Split(raw, ' ') == [d] + segs && Split(raw', ' ') == [d'] + segs
    requires FirstSeparator(raw) == ' ' && ' ' !in d && Recognise(d) == None
    ensures RecogniseAll(TokensFixed(raw')) == RecogniseAll(Split(d', FirstSeparator(raw'))) + RecogniseAll(TokensFixed(raw))
  {
    var y := SplitEach(segs, ':');
    var dateTokens' := Split(d', FirstSeparator(raw'));
    assert RecogniseAll(TokensFixed(raw)) == RecogniseAll(y) by {
      TokensFixedOf(raw, d, segs);
      assert TokensFixed(raw) == Split(d, ' ') + y;
      UnknownSegment(d, ' ');
      RecogniseAllAppend(Split(d, ' '), y);
    }
    assert RecogniseAll(TokensFixed(raw')) == RecogniseAll(dateTokens') + RecogniseAll(y) by {
      TokensFixedOf(raw', d', segs);
      RecogniseAllAppend(dateTokens', y);
    }
  }

  /** The date segment joined by a letter, digit or `%`: pattern characters only, no
      `%Z`, and longer than any token. */
  lemma UnreadableDateSegment(o: TimeFormatOptions)
    requires Readable(o) && IsPatternChar(o.dateSeparator[0]) && |DateParts(o.parts)| >= 2
    ensures var d := DatePattern(o);
      && (forall i :: 0 <= i < |d| ==> IsPatternChar(d[i]))
      && ' ' !in d && !HasZoneToken(d) && Recognise(d) == None
  {
    var d := DatePattern(o);
    DateSegmentChars(o);
    assert ' ' !in d by {
      forall i | 0 <= i < |d| ensures d[i] != ' ' {
        assert IsPatternChar(d[i]);
      }
    }
  }

  lemma DateSegmentChars(o: TimeFormatOptions)
    requires Readable(o) && IsPatternChar(o.dateSeparator[0]) && |DateParts(o.parts)| >= 2
    ensures var d := DatePattern(o);
      (forall i :: 0 <= i < |d| ==> IsPatternChar(d[i])) && !HasZoneToken(d) && |d| > 2
  {
    var dp := DateParts(o.parts);
    var c := o.dateSeparator[0];
    var sep := SafeDateSeparator(o.dateSeparator);
    assert sep == (if c == '%' then "%%" else [c]) by {
      assert o.dateSeparator == [c];
      SafeDateSeparatorChar(c);
    }
    assert !HasZoneToken(sep);
    KeepKeysRecognised(o.parts, IsDatePart);
    RecognisedPatterns(dp);
    PatternJoin(Patterns(dp), sep);
  }

  /** A join of pattern tokens by pattern characters: it starts with `%`, holds only
      pattern characters, has no `%Z`, and two or more tokens make it longer than one. */
  lemma {:induction false} PatternJoin(pats: seq<string>, sep: string)
    requires PatternTokens(pats) && |pats| >= 1
    requires forall i :: 0 <= i < |sep| ==> IsPatternChar(sep[i])
    requires !HasZoneToken(sep)
    ensures var d := Join(pats, sep);
      && |d| >= 2 && d[0] == '%'
      && (forall i :: 0 <= i < |d| ==> IsPatternChar(d[i]))
      && !HasZoneToken(d)
      && (|pats| >= 2 ==> |d| > 2)
    decreases |pats|
  {
    var p := pats[0];
    assert PatternToken(p);
    assert !HasZoneToken(p);
    if |pats| > 1 {
      var j := Join(pats[1..], sep);
      assert PatternTokens(pats[1..]) by {
        forall i | 0 <= i < |pats[1..]| ensures PatternToken(pats[1..][i]) {
          assert pats[1..][i] == pats[i + 1];
        }
      }
      PatternJoin(pats[1..], sep);
      assert Join(pats, sep) == p + sep + j;
      ZoneTokenAppend(p, sep);
      ZoneTokenAppend(p + sep, j);
      var d := p + sep + j;
      forall i | 0 <= i < |d| ensures IsPatternChar(d[i]) {
        if i < |p| {
          assert d[i] == p[i];
        } else if i < |p| + |sep| {
          assert d[i] == sep[i - |p|];
        } else {
          assert d[i] == j[i - |p| - |sep|];
        }
      }
    }
  }

  lemma NoZoneTokenWithoutZ(s: string)
    requires 'Z' !in s
    ensures !HasZoneToken(s)
  {
    forall i | 0 <= i < |s| - 1 ensures !(s[i] == '%' && s[i + 1] == 'Z') {
      assert s[i + 1] in s;
    }
  }

  /** No `%Z` arises where two texts without one meet, unless the first ends in `%`
      and the second starts with `Z`. */
  lemma ZoneTokenAppend(a: string, b: string)
    requires !HasZoneToken(a) && !HasZoneToken(b)
    requires |a| == 0 || |b| == 0 || a[|a| - 1] != '%' || b[0] != 'Z'
    ensures !HasZoneToken(a + b)
  {
    var s := a + b;
    forall i | 0 <= i < |s| - 1 ensures !(s[i] == '%' && s[i + 1] == 'Z') {
      if i + 1 < |a| {
        assert s[i] == a[i] && s[i + 1] == a[i + 1];
      } else if i + 1 == |a| {
        assert s[i] == a[|a| - 1] && s[i + 1] == b[0];
      } else {
        assert s[i] == b[i - |a|] && s[i + 1] == b[i - |a| + 1];
      }
    }
  }

  /** `%Z` occurs in `d + s` exactly when it occurs in `s`, when `d` has none and `s`
      does not start with `Z`. */
  lemma ZoneTokenAfter(d: string, s: string)
    requires !HasZoneToken(d) && |s| > 0 && s[0] != 'Z'
    ensures HasZoneToken(d + s) <==> HasZoneToken(s)
  {
    var u := d + s;
    if HasZoneToken(s) {
      var i :| 0 <= i < |s| - 1 && s[i] == '%' && s[i + 1] == 'Z';
      assert u[|d| + i] == '%' && u[|d| + i + 1] == 'Z';
    }
    if HasZoneToken(u) {
      var i :| 0 <= i < |u| - 1 && u[i] == '%' && u[i + 1] == 'Z';
      assert s[i - |d|] == '%' && s[i - |d| + 1] == 'Z';
    }
  }
}
