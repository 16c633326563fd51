# graphic-walker: number/time format editing and the Kanaries server data loader

This project models three pieces of graphic-walker in Dafny and proves properties of them.

**d3-format specifiers** (`format.ts`)
- `compileD3Format` reads a specifier such as `*<,.2f` into `D3FormatOptions` (fill and align, sign, symbol, precision, group separator, trimming, type); `stringifyD3Format` prints the options back.
- The parser is one regular expression. Module `D3Format` models it as a scanner, with one function per optional group.

**The configuration panel's format editors** (`formatPanel.tsx`)
- Module `NumberFormatForm` models the number form: every control parses the current specifier, overrides some options and prints the result.
- Module `TimeFormat` models `stringifyTimeFormat` and `compileTimeFormat`. These compose a d3 time format out of parts: year, month, weekday, day, hour, minute, second.
- Module `TimeFormatForm` models the time form:
  - the add buttons for unused keys;
  - the remove cross, a `splice` on a copied array;
  - the separator field and the time-zone box.

**`KanariesServerDataLoader`** (`kanariesServerDataLoader.ts`)
- A read-only loader. It keeps one dataset record and asks a server for rows through workflow queries.
- Module `ServerDataLoader` models it as a class whose fields are:
  - the dataset record;
  - the list of datasets current at each `'init'` signal;
  - the log of requests sent.
- Each request's response is a parameter of the method that sends it.
- Module `CountSort` models the in-place sort that `statField` applies to the counts the server returns, as an insertion sort on an array. It is proved equal to a reference definition, which is proved sorted and a permutation.

The remaining modules:
- `Workflow` holds the query payload and row types.
- `Text` holds digits, numerals, `split` and `join`.
- `Wrappers` holds `Option` and `Result`.

Source paths in the table are relative to the repository root.

## Model

| member | source | states |
|---|---|---|
| D3Format.AlignOf | packages/graphic-walker/src/components/visualConfig/format.ts:137-140 | the align read from a matched character prints as that character |
| D3Format.SignOf | packages/graphic-walker/src/components/visualConfig/format.ts:141 | a matched sign prints back as itself and is never parentheses, which the class `[-+ ]` cannot match |
| D3Format.SymbolOf | packages/graphic-walker/src/components/visualConfig/format.ts:142 | a matched `$` or `#` prints back as that one character |
| D3Format.TypeOf | packages/graphic-walker/src/components/visualConfig/format.ts:135-146 | the unchecked cast of a type letter prints back as that letter |
| D3Format.TypeStringShape | packages/graphic-walker/src/components/visualConfig/format.ts:177 | a parsable type prints as nothing exactly when it is the empty type, otherwise as one letter that parses back to it |
| D3Format.DigitRun | packages/graphic-walker/src/components/visualConfig/format.ts:131 | the greedy `\d+` is a prefix of the input, all digits, and stops at a non-digit |
| D3Format.ScanD3Format | packages/graphic-walker/src/components/visualConfig/format.ts:131 | the match's fill group is always empty, and there is an align group exactly when the first character is `<`, `>`, `^` or `=` |
| D3Format.ScanTail | packages/graphic-walker/src/components/visualConfig/format.ts:131 | the sign group is the first character exactly when that is `-`, `+` or a space |
| D3Format.ScanZero | packages/graphic-walker/src/components/visualConfig/format.ts:131 | the zero group is set exactly when the text starts with `0`; the width is the digit run after it |
| D3Format.ScanGroupSeparator | packages/graphic-walker/src/components/visualConfig/format.ts:131 | the separator group is set exactly when the text starts with `,` |
| D3Format.ScanPrecision | packages/graphic-walker/src/components/visualConfig/format.ts:131 | a precision is read exactly when the text starts with `.` and a digit, and it is the whole digit run after the `.` |
| D3Format.ScanTrim | packages/graphic-walker/src/components/visualConfig/format.ts:131 | trimming is set exactly when the text starts with `~`; the type is the next character when that is a type letter, else none |
| D3Format.CompileD3Format | packages/graphic-walker/src/components/visualConfig/format.ts:129-156 | the result has a fill exactly when the specifier starts with an align character; that fill has an empty fill string; the options are canonical (no parentheses sign, no `#b`, a type the parser can yield) |
| D3Format.CompileReadsGroups | packages/graphic-walker/src/components/visualConfig/format.ts:129-147 | for any specifier, grouping is read only when it holds `,`, trimming only when it holds `~`, a type only from a type letter in it, and a precision only as the value of the digits after some `.` in it |
| D3Format.TailStringChars | packages/graphic-walker/src/components/visualConfig/format.ts:168-178 | everything printed after the align character is made of sign, symbol, digit, `,` `.` `~` and type characters, none of them an align character |
| D3Format.StringifyShowsFlags | packages/graphic-walker/src/components/visualConfig/format.ts:174-178 | `,`, `~` and `.` occur in the printed specifier exactly when grouping, trimming and precision are set (given a fill that does not use them) |
| D3Format.ScanTailOfTailString | packages/graphic-walker/src/components/visualConfig/format.ts:131-147 | scanning a printed tail returns each printed group, with no zero flag and no width |
| D3Format.ScanZeroWithoutDigit | packages/graphic-walker/src/components/visualConfig/format.ts:131 | without a leading digit the `0` and width groups stay empty |
| D3Format.OptionsOfTail | packages/graphic-walker/src/components/visualConfig/format.ts:135-147 | the options built from the groups of a printed tail are the printed options |
| D3Format.OptionsOf | packages/graphic-walker/src/components/visualConfig/format.ts:135-147 | the options object built from the match: a fill only with an align group, the precision as the number after `.`, `,` and `~` as flags, and the groups cast unchecked; what it extracts from any specifier is stated by `D3Format.CompileReadsGroups` |
| D3Format.StringifyD3Format | packages/graphic-walker/src/components/visualConfig/format.ts:158-179 | the specifier text: fill and align, then sign, symbol, `,`, `.precision`, `~` and type, with zero and width never printed; it is read back by `D3Format.CompileStringifyRoundTrip` |
| D3Format.CompileStringifyRoundTrip | packages/graphic-walker/src/components/visualConfig/format.ts:129-179 | compiling a printed canonical options value gives that value back |
| D3Format.CompileIsStable | packages/graphic-walker/src/components/visualConfig/format.ts:129-179 | compile, stringify, compile gives the same options as one compile |
| D3Format.StrayFirstCharacterGivesDefault | packages/graphic-walker/src/components/visualConfig/format.ts:131-147 | a specifier whose first character fits no group compiles to the empty options, whatever follows |
| D3Format.FillCharacterIsLost | packages/graphic-walker/src/components/visualConfig/format.ts:131 | `*<,.2f` compiles to the empty options, and fill `*` does not survive printing and parsing |
| D3Format.ScanD3FormatFixed | packages/graphic-walker/src/components/visualConfig/format.ts:131 | the corrected match reads at most one fill character, before an align character |
| D3Format.CompileD3FormatFixed | packages/graphic-walker/src/components/visualConfig/format.ts:129-156 | the corrected parser takes the first character as fill when the second is an align character, and otherwise reads like the original |
| D3Format.CompileFixedStringifyRoundTrip | packages/graphic-walker/src/components/visualConfig/format.ts:129-179 | with the corrected parser, options with a fill string of at most one character round-trip |
| D3Format.FillCharacterIsKept | packages/graphic-walker/src/components/visualConfig/format.ts:131 | the corrected parser reads `*<,.2f` as fill `*`, left-aligned, grouped, two-digit fixed point |
| NumberFormatForm.ApplyTypeChoice | packages/graphic-walker/src/components/visualConfig/formatPanel.tsx:119-152 | only the six offered types change anything. Each sets the type. Currency adds two decimals and `$`; percent sets two decimals; every other entry clears the symbol. The rest is untouched |
| NumberFormatForm.ApplyPrecisionInput | packages/graphic-walker/src/components/visualConfig/formatPanel.tsx:179-190 | the precision is cleared exactly when no digit was typed, else it is the value of the digits typed; nothing else changes |
| NumberFormatForm.PrecisionOfNumeral | packages/graphic-walker/src/components/visualConfig/formatPanel.tsx:187-190 | typing the numeral of `n` sets precision `n` |
| NumberFormatForm.EditOptions | packages/graphic-walker/src/components/visualConfig/formatPanel.tsx:119-205 | each control does exactly its own update: a type choice is `ApplyTypeChoice`; a sign sets the sign alone; typed precision is `ApplyPrecisionInput`; the separator box sets the separator alone. Fill and trimming are kept. Parentheses are refused. Precision and separator are offered only for non-text types. Canonical options stay canonical |
| NumberFormatForm.Offered | packages/graphic-walker/src/components/visualConfig/formatPanel.tsx:119-205 | a type entry of the dropdown, a sign other than parentheses, and the precision field or separator box only for a number type |
| NumberFormatForm.EditNumberFormatAsWritten | packages/graphic-walker/src/components/visualConfig/formatPanel.tsx:55-63 | as written, a control writes a specifier exactly when it is offered for the options the parser reads from the current one |
| NumberFormatForm.EditNumberFormat | packages/graphic-walker/src/components/visualConfig/formatPanel.tsx:55-63 | the same form over the corrected parser: a control writes exactly when offered for the options that parser reads |
| NumberFormatForm.EditIsReadBackAsWritten | packages/graphic-walker/src/components/visualConfig/formatPanel.tsx:55-63 | as written, what the form writes reads back as the options it set on what the parser read, which may already have lost the fill |
| NumberFormatForm.EditIsReadBack | packages/graphic-walker/src/components/visualConfig/formatPanel.tsx:57-63 | with the corrected parser, what the form writes reads back as exactly the options it set |
| NumberFormatForm.EditKeepsFill | packages/graphic-walker/src/components/visualConfig/formatPanel.tsx:57-63 | with the corrected parser, no control disturbs the fill and alignment of the specifier |
| NumberFormatForm.FormDropsFillAsWritten | packages/graphic-walker/src/components/visualConfig/formatPanel.tsx:57-63 | with the parser as written, ticking the separator on `*<` writes `,` |
| NumberFormatForm.FormKeepsFill | packages/graphic-walker/src/components/visualConfig/formatPanel.tsx:57-63 | with the corrected parser the same action writes `*<,` |
| TimeFormat.KeyRank | packages/graphic-walker/src/components/visualConfig/formatPanel.tsx:213 | each key has its position in `allTimeFormatKeys` |
| TimeFormat.IsDatePart | packages/graphic-walker/src/components/visualConfig/formatPanel.tsx:215 | year, month and day are the date parts |
| TimeFormat.IsTimePart | packages/graphic-walker/src/components/visualConfig/formatPanel.tsx:216 | hour, minute and second are the time parts |
| TimeFormat.KeyClasses | packages/graphic-walker/src/components/visualConfig/formatPanel.tsx:213-216 | every key is exactly one of a date part, the weekday or a time part |
| TimeFormat.KeepKeys | packages/graphic-walker/src/components/visualConfig/formatPanel.tsx:230-232 | the filtered parts pass the test and are parts of the input |
| TimeFormat.Patterns | packages/graphic-walker/src/components/visualConfig/formatPanel.tsx:233-236 | the patterns are the parts' own patterns, one per part, in order |
| TimeFormat.KeepKeysAll | packages/graphic-walker/src/components/visualConfig/formatPanel.tsx:230-232 | a filter every part passes returns the parts unchanged |
| TimeFormat.KeepKeysNone | packages/graphic-walker/src/components/visualConfig/formatPanel.tsx:230-232 | a filter no part passes returns nothing |
| TimeFormat.KeepKeysRecognised | packages/graphic-walker/src/components/visualConfig/formatPanel.tsx:230-232 | filtering recognised parts leaves only recognised parts |
| TimeFormat.KeepKeysAppend | packages/graphic-walker/src/components/visualConfig/formatPanel.tsx:230-232 | filtering distributes over concatenation |
| TimeFormat.DoublePercents | packages/graphic-walker/src/components/visualConfig/formatPanel.tsx:229 | escaping adds no new characters and leaves a text without `%` unchanged; what it does to each character is stated by the two lemmas below |
| TimeFormat.DoublePercentsChar | packages/graphic-walker/src/components/visualConfig/formatPanel.tsx:229 | one character: `%` becomes `%%`, any other character stays as it is |
| TimeFormat.DoublePercentsAppend | packages/graphic-walker/src/components/visualConfig/formatPanel.tsx:229 | escaping works piece by piece (`F(a + b) == F(a) + F(b)`), so with the one-character case every `%` is doubled and nothing else changes, in order |
| TimeFormat.DropWhitespace | packages/graphic-walker/src/components/visualConfig/formatPanel.tsx:229 | the text left starts with a non-space and uses only characters of the input |
| TimeFormat.CollapseWhitespace | packages/graphic-walker/src/components/visualConfig/formatPanel.tsx:229 | the result has no whitespace, only characters of the input or `-`, and equals an input without whitespace; that each run becomes one `-` is stated by the two lemmas below |
| TimeFormat.CollapseRun | packages/graphic-walker/src/components/visualConfig/formatPanel.tsx:229 | a non-empty run of whitespace at the start becomes exactly one `-` |
| TimeFormat.CollapseAppend | packages/graphic-walker/src/components/visualConfig/formatPanel.tsx:229 | replacing works piece by piece wherever the first piece does not end inside a run, so every maximal run becomes `-` and every other character stays, in order |
| TimeFormat.SafeDateSeparator | packages/graphic-walker/src/components/visualConfig/formatPanel.tsx:229 | the printed separator has no whitespace and is the separator itself when that has neither `%` nor whitespace; it is `DoublePercents` then `CollapseWhitespace`, each characterised above |
| TimeFormat.SafeDateSeparatorChar | packages/graphic-walker/src/components/visualConfig/formatPanel.tsx:229 | a one-character separator, the only kind the form sets, prints as `%%` for `%`, as `-` for whitespace, and as itself otherwise |
| TimeFormat.StringifyTimeFormat | packages/graphic-walker/src/components/visualConfig/formatPanel.tsx:227-239 | the date segment, the weekday, a space, the time segment and the zone; what reads back from it is stated by the recompile lemmas |
| TimeFormat.DatePattern | packages/graphic-walker/src/components/visualConfig/formatPanel.tsx:233 | the date parts' patterns joined by the escaped separator |
| TimeFormat.WeekdayPattern | packages/graphic-walker/src/components/visualConfig/formatPanel.tsx:234 | ` %a` exactly when some part is the weekday |
| TimeFormat.TimePattern | packages/graphic-walker/src/components/visualConfig/formatPanel.tsx:235 | the time parts' patterns joined by `:` |
| TimeFormat.ZonePattern | packages/graphic-walker/src/components/visualConfig/formatPanel.tsx:236-238 | ` (%Z)` exactly when there is a time part and the zone is set |
| TimeFormat.FirstSeparator | packages/graphic-walker/src/components/visualConfig/formatPanel.tsx:244 | the date separator found is the first character of the input outside `[%a-zA-Z0-9]`, or `/` when there is none |
| TimeFormat.HasZoneToken | packages/graphic-walker/src/components/visualConfig/formatPanel.tsx:246 | `%Z` occurs somewhere in the text |
| TimeFormat.Recognise | packages/graphic-walker/src/components/visualConfig/formatPanel.tsx:253-288 | a recognised token is `%` and a letter other than `Z`, is the part's pattern, and is a weekday exactly for `%a` and `%A`; which tokens are recognised is stated by the lemma below |
| TimeFormat.RecogniseTokens | packages/graphic-walker/src/components/visualConfig/formatPanel.tsx:253-288 | a token is recognised exactly when it is one of `%Y %m %a %A %d %H %M %S`, and each gives its own key: year, month, weekday for both `%a` and `%A`, day, hour, minute, second |
| TimeFormat.RecognisedAll | packages/graphic-walker/src/components/visualConfig/formatPanel.tsx:252-289 | every part the loop collects reads back as itself |
| TimeFormat.RecognisePatterns | packages/graphic-walker/src/components/visualConfig/formatPanel.tsx:252-289 | reading the patterns of recognised parts gives those parts back |
| TimeFormat.CollectParts | packages/graphic-walker/src/components/visualConfig/formatPanel.tsx:252-289 | the loop pushes the recognised parts of all tokens, in order |
| TimeFormat.Tokens | packages/graphic-walker/src/components/visualConfig/formatPanel.tsx:247-251 | the first space-separated segment split at the separator found, then the second segment split at `:` |
| TimeFormat.TimeFormatOf | packages/graphic-walker/src/components/visualConfig/formatPanel.tsx:241-301 | the separator read is one character, `/` or not a pattern character, and every part read is recognised |
| TimeFormat.CompileTimeFormat | packages/graphic-walker/src/components/visualConfig/formatPanel.tsx:241-301 | the method computes `TimeFormatOf`: the error branch is never taken |
| TimeFormat.Normalize | packages/graphic-walker/src/components/visualConfig/formatPanel.tsx:230-236 | the printing order holds only parts of the input and the `%a` weekday |
| TimeFormat.PrintedZone | packages/graphic-walker/src/components/visualConfig/formatPanel.tsx:236-238 | `%Z` occurs in the printed text exactly when the zone segment is printed |
| TimeFormat.PrintedText | packages/graphic-walker/src/components/visualConfig/formatPanel.tsx:227-250 | the printed text splits at spaces into date, weekday, time and zone segments. The separator found is the date separator when two or more date parts use it, else the space. The date and time segments read back as the date and time parts. The zone is found exactly when printed |
| TimeFormat.ReadSegments | packages/graphic-walker/src/components/visualConfig/formatPanel.tsx:247-251 | as written, a weekday segment takes the place of the time segment; as intended, every later segment is read |
| TimeFormat.RecompileAsWritten | packages/graphic-walker/src/components/visualConfig/formatPanel.tsx:227-301 | printing then compiling gives the date parts, then the weekday in place of all time parts if one is printed, else the time parts |
| TimeFormat.WeekdayHidesTimeParts | packages/graphic-walker/src/components/visualConfig/formatPanel.tsx:234-248 | weekday and hour print as ` %a %H` and compile back to the weekday alone |
| TimeFormat.TokensFixed | packages/graphic-walker/src/components/visualConfig/formatPanel.tsx:247-251 | as intended, every segment after the first is split at `:` |
| TimeFormat.TokensAgree | packages/graphic-walker/src/components/visualConfig/formatPanel.tsx:247-251 | the two readings give the same tokens for a text of at most two segments; otherwise the corrected one adds the tokens of the later segments |
| TimeFormat.TimeFormatOfFixed | packages/graphic-walker/src/components/visualConfig/formatPanel.tsx:241-301 | the corrected reading keeps the same separator and recognised-parts guarantees |
| TimeFormat.CompileTimeFormatFixed | packages/graphic-walker/src/components/visualConfig/formatPanel.tsx:241-301 | the corrected method computes `TimeFormatOfFixed` |
| TimeFormat.RecompileNormalizes | packages/graphic-walker/src/components/visualConfig/formatPanel.tsx:227-301 | with the corrected reading, printing then compiling gives the parts in printing order. The separator comes back when two or more date parts use it. The zone flag comes back when there are time parts |
| TimeFormat.RecompileAnySeparator | packages/graphic-walker/src/components/visualConfig/formatPanel.tsx:227-301 | printing then compiling, as written, with ANY one-character separator: a whitespace separator comes back as `-`, a separator under two date parts as the space, and a letter, digit or `%` between two or more date parts loses every date part |
| TimeFormat.RecompileAnySeparatorFixed | packages/graphic-walker/src/components/visualConfig/formatPanel.tsx:227-301 | the same with the corrected reading, where the weekday no longer hides the time parts |
| TimeFormat.UnreadableDates | packages/graphic-walker/src/components/visualConfig/formatPanel.tsx:229-250 | as written, a letter, digit or `%` between two or more date parts makes the parser take the space as the separator and the date segment as one unknown token: the result has no date part and the separator is the space |
| TimeFormat.UnreadableDatesFixed | packages/graphic-walker/src/components/visualConfig/formatPanel.tsx:229-250 | the same loss of every date part with the corrected reading |
| TimeFormatForm.UsedKeys | packages/graphic-walker/src/components/visualConfig/formatPanel.tsx:314 | the used keys are the parts' keys, position by position |
| TimeFormatForm.UnusedAmong | packages/graphic-walker/src/components/visualConfig/formatPanel.tsx:315 | the filter keeps exactly the keys not used, in their order |
| TimeFormatForm.AllKeysListed | packages/graphic-walker/src/components/visualConfig/formatPanel.tsx:213 | `allTimeFormatKeys` lists every key, in rank order |
| TimeFormatForm.UnusedKeys | packages/graphic-walker/src/components/visualConfig/formatPanel.tsx:313-316 | a key is offered exactly when no part has it, and offered keys keep the order of `allTimeFormatKeys` |
| TimeFormatForm.DefaultPattern | packages/graphic-walker/src/components/visualConfig/formatPanel.tsx:336-350 | every add button's pattern reads back as a part of that key; the weekday button writes `%A` |
| TimeFormatForm.AddPart | packages/graphic-walker/src/components/visualConfig/formatPanel.tsx:317-325 | one part is appended after the others; nothing else changes |
| TimeFormatForm.AddUnusedKey | packages/graphic-walker/src/components/visualConfig/formatPanel.tsx:313-325 | adding an offered key keeps keys distinct and takes exactly that key off the offered ones |
| TimeFormatForm.UnusedAfterAppend | packages/graphic-walker/src/components/visualConfig/formatPanel.tsx:313-325 | appending a part removes its key, and only its key, from the unused keys |
| TimeFormatForm.Removed | packages/graphic-walker/src/components/visualConfig/formatPanel.tsx:431-432 | the parts before the index stay; those after move one place left |
| TimeFormatForm.RemovePart | packages/graphic-walker/src/components/visualConfig/formatPanel.tsx:430-437 | the copy-and-splice on an array yields exactly `Removed` |
| TimeFormatForm.RemoveFreesKey | packages/graphic-walker/src/components/visualConfig/formatPanel.tsx:313-316 | removing a part keeps keys distinct and offers its key again, and no other new key |
| TimeFormatForm.TrimEnd | packages/graphic-walker/src/components/visualConfig/formatPanel.tsx:371 | the result is a prefix ending in a non-space, and what it drops is all whitespace |
| TimeFormatForm.SeparatorInput | packages/graphic-walker/src/components/visualConfig/formatPanel.tsx:370-376 | the separator is one non-space character: the first non-space typed, or `/` when there is none |
| TimeFormatForm.EditTimeOptions | packages/graphic-walker/src/components/visualConfig/formatPanel.tsx:331-437 | each control is offered only when shown (unused keys, an existing index, two or more date parts, a time part) and changes only its own option |
| TimeFormatForm.Shown | packages/graphic-walker/src/components/visualConfig/formatPanel.tsx:331-437 | an add button for each unused key, a cross for each part, the separator field with two or more date parts and the time-zone box with a time part |
| TimeFormatForm.EditKeepsDistinct | packages/graphic-walker/src/components/visualConfig/formatPanel.tsx:313-437 | every action keeps part keys distinct |
| TimeFormatForm.EditKeepsWellFormed | packages/graphic-walker/src/components/visualConfig/formatPanel.tsx:331-437 | every action keeps the options printable and readable, given a typed separator that is not a pattern character |
| TimeFormatForm.EditKeepsReadable | packages/graphic-walker/src/components/visualConfig/formatPanel.tsx:331-437 | every action keeps a one-character separator and parts that read back as themselves, whatever is typed |
| TimeFormatForm.EditIsReadBack | packages/graphic-walker/src/components/visualConfig/formatPanel.tsx:305-311 | with the corrected reading and any options the form can hold, what the form writes reads back as the edited parts in printing order, less the date parts when a typed letter, digit or `%` joins two or more of them, with the separator the parser finds; for well-formed options and a typed separator that is not a letter, digit or `%`, exactly the edited parts with the separator and zone flag set |
| TimeFormatForm.EditTimeFormatAsWritten | packages/graphic-walker/src/components/visualConfig/formatPanel.tsx:303-311 | as written, a control writes a format exactly when it is shown for the options read from the current one |
| TimeFormatForm.EditTimeFormat | packages/graphic-walker/src/components/visualConfig/formatPanel.tsx:303-311 | the form over the corrected reading and separator field: a control writes exactly when shown for the options that reading gives |
| TimeFormatForm.EditIsReadBackAsWritten | packages/graphic-walker/src/components/visualConfig/formatPanel.tsx:303-311 | as written, what the form writes reads back as its date parts (none when a typed letter, digit or `%` joins two or more), then the weekday in place of every time part when one is printed, else the time parts; all date parts come back for well-formed options and a separator that is not a pattern character |
| TimeFormatForm.TypedPatternCharLosesDates | packages/graphic-walker/src/components/visualConfig/formatPanel.tsx:370-376 | as written, typing a letter, digit or `%` while two or more date parts are shown writes a pattern that reads back with no date part, with either reading |
| TimeFormatForm.LetterSeparatorTaken | packages/graphic-walker/src/components/visualConfig/formatPanel.tsx:370-376 | typing `x` with a year and a month shown sets the separator to `x` |
| TimeFormatForm.LetterSeparatorPrinted | packages/graphic-walker/src/components/visualConfig/formatPanel.tsx:227-239 | year and month joined by `x` print as `%Yx%m ` |
| TimeFormatForm.LetterSeparatorExample | packages/graphic-walker/src/components/visualConfig/formatPanel.tsx:241-301 | `%Yx%m ` reads back as no part at all |
| TimeFormatForm.SeparatorInputFixed | packages/graphic-walker/src/components/visualConfig/formatPanel.tsx:370-376 | the corrected field: the separator is one character that is neither whitespace nor a pattern character; it is the typed one when that is usable, else `/` |
| TimeFormatForm.EditTimeOptionsFixed | packages/graphic-walker/src/components/visualConfig/formatPanel.tsx:331-437 | the corrected form changes only the separator field: a control acts exactly when shown, and a typed separator goes through `SeparatorInputFixed` |
| TimeFormatForm.EditIsReadBackFixed | packages/graphic-walker/src/components/visualConfig/formatPanel.tsx:303-311 | with the corrected field and reading, the options stay of the kind the parser returns, and what the form writes reads back as all the edited parts in printing order, so no date part is ever lost |
| TimeFormatForm.ReadIsReadable | packages/graphic-walker/src/components/visualConfig/formatPanel.tsx:241-301 | the corrected reading always gives options of that kind |
| TimeFormatForm.WeekdayReadsNoTimePart | packages/graphic-walker/src/components/visualConfig/formatPanel.tsx:227-301 | as written, a printed weekday leaves no time part in what is read back |
| TimeFormatForm.WeekdayHidesTimeZoneBox | packages/graphic-walker/src/components/visualConfig/formatPanel.tsx:381-398 | as written, once a weekday is printed the time-zone box is no longer shown, whatever time parts were set |
| TimeFormatForm.TimePartsOfNormalize | packages/graphic-walker/src/components/visualConfig/formatPanel.tsx:230-236 | putting parts into printing order keeps the time parts and their order |
| TimeFormatForm.TimeZoneBoxStays | packages/graphic-walker/src/components/visualConfig/formatPanel.tsx:381-398 | with the corrected reading, the time-zone box stays shown while there are time parts |
| TimeFormatForm.DateThenTimeParts | packages/graphic-walker/src/components/visualConfig/formatPanel.tsx:230-232 | date parts followed by time parts filter back into themselves |
| TimeFormatForm.NoWeekday | packages/graphic-walker/src/components/visualConfig/formatPanel.tsx:215-216 | parts that are date parts followed by time parts hold no weekday |
| TimeFormatForm.PartsRoundTrip | packages/graphic-walker/src/components/visualConfig/formatPanel.tsx:227-301 | date parts then time parts, with no weekday, compile back to exactly themselves as written |
| TimeFormatForm.PartsRoundTripFixed | packages/graphic-walker/src/components/visualConfig/formatPanel.tsx:227-301 | the same holds with the corrected reading |
| Text.NatToString | packages/graphic-walker/src/components/visualConfig/format.ts:175 | the numeral of a precision is non-empty and all digits |
| Text.DigitsValueOfNatToString | packages/graphic-walker/src/components/visualConfig/format.ts:143 | `Number` of the printed numeral is the number printed |
| Text.KeepDigits | packages/graphic-walker/src/components/visualConfig/formatPanel.tsx:180 | only digits are kept; a digit string is kept whole; the result is empty exactly when there is no digit; that the digits are kept in order is stated by the two lemmas below |
| Text.KeepDigitsChar | packages/graphic-walker/src/components/visualConfig/formatPanel.tsx:180 | one character: a digit is kept, anything else dropped |
| Text.KeepDigitsAppend | packages/graphic-walker/src/components/visualConfig/formatPanel.tsx:180 | the filter works piece by piece, so with the one-character case exactly the digits are kept, in order |
| Text.SplitJoin | packages/graphic-walker/src/components/visualConfig/formatPanel.tsx:233-250 | splitting a join at its one-character separator returns the pieces, when no piece holds it |
| Text.Split | packages/graphic-walker/src/components/visualConfig/formatPanel.tsx:247-250 | `split` always gives at least one piece |
| Text.SplitWithoutSeparator | packages/graphic-walker/src/components/visualConfig/formatPanel.tsx:247-250 | a text without the separator splits into itself alone |
| Text.SplitAtFirst | packages/graphic-walker/src/components/visualConfig/formatPanel.tsx:247-250 | the piece before the first separator comes first, then the pieces of the rest |
| ServerDataLoader.Decode | packages/graphic-walker/src/dataLoader/kanariesServerDataLoader.ts:65-73 | a reply is accepted exactly for status 200 or 500 without `success === false`. It then gives the data. `success === false` gives the server's message. Any other status gives `Service failed. <status>: <text>` |
| ServerDataLoader.ErrorText | packages/graphic-walker/src/dataLoader/kanariesServerDataLoader.ts:68-72 | the server's own message, or `Service failed. <status>: <status text>` |
| ServerDataLoader.DecodeByStatus | packages/graphic-walker/src/dataLoader/kanariesServerDataLoader.ts:85-93 | a rejected status ignores the body, and 200 and 500 are read alike |
| ServerDataLoader.EncodeValue | packages/graphic-walker/src/dataLoader/kanariesServerDataLoader.ts:58 | a value is sent as JSON exactly when it is an array or an object, else as its template text |
| ServerDataLoader.Truthy | packages/graphic-walker/src/dataLoader/kanariesServerDataLoader.ts:58 | JavaScript truthiness of a value |
| ServerDataLoader.IsObject | packages/graphic-walker/src/dataLoader/kanariesServerDataLoader.ts:58 | `typeof` gives `object` for null, arrays and objects |
| ServerDataLoader.TemplateText | packages/graphic-walker/src/dataLoader/kanariesServerDataLoader.ts:58 | `${v}` of a value that is not an array or object |
| ServerDataLoader.NullIsPlain | packages/graphic-walker/src/dataLoader/kanariesServerDataLoader.ts:58 | `null` is an object but is sent as `null` text, not JSON |
| ServerDataLoader.NumberIsNumeral | packages/graphic-walker/src/dataLoader/kanariesServerDataLoader.ts:58 | a non-negative number is sent as the numeral that reads back as it |
| ServerDataLoader.EncodeQueryParams | packages/graphic-walker/src/dataLoader/kanariesServerDataLoader.ts:54-60 | one entry per parameter, in order, with its key and encoded value; no parameter object, no entries. The loader's only GET, `init` through `#fetchDataset` (96-105), passes no parameters, so in the source this loop never runs |
| ServerDataLoader.FieldsWhere | packages/graphic-walker/src/dataLoader/kanariesServerDataLoader.ts:106-113 | the filter keeps exactly the fields that are (or are not) quantitative |
| ServerDataLoader.PassingIndices | packages/graphic-walker/src/dataLoader/kanariesServerDataLoader.ts:106-113 | the positions of the fields that pass the filter, increasing, every passing position listed |
| ServerDataLoader.FieldsWhereInOrder | packages/graphic-walker/src/dataLoader/kanariesServerDataLoader.ts:106-113 | the filter keeps the passing fields in their order and each as often as it occurs: the k-th kept field is the field at the k-th passing position |
| ServerDataLoader.PartitionInOrder | packages/graphic-walker/src/dataLoader/kanariesServerDataLoader.ts:104-114 | the stored measure and dimension keys are the keys of the passing fields, in metadata order, one per field |
| ServerDataLoader.FieldsWhereSplit | packages/graphic-walker/src/dataLoader/kanariesServerDataLoader.ts:106-113 | every field is a measure or a dimension, never both |
| ServerDataLoader.KeysWhere | packages/graphic-walker/src/dataLoader/kanariesServerDataLoader.ts:112-113 | a key is listed exactly when a field with that key passes the filter |
| ServerDataLoader.MeasureKeys | packages/graphic-walker/src/dataLoader/kanariesServerDataLoader.ts:262-270 | an aggregate answers with one column per measure, named by its `asFieldKey`, in order |
| ServerDataLoader.Partition | packages/graphic-walker/src/dataLoader/kanariesServerDataLoader.ts:104-114 | the stored record keeps the metadata. Its measure keys are the quantitative fields' keys and its dimension keys the others'. Together they number the fields |
| ServerDataLoader.PartitionDisjoint | packages/graphic-walker/src/dataLoader/kanariesServerDataLoader.ts:106-113 | with distinct keys no key is both a measure and a dimension |
| ServerDataLoader.FindField | packages/graphic-walker/src/dataLoader/kanariesServerDataLoader.ts:131 | `find` gives the first field with the key, or nothing exactly when no field has it |
| ServerDataLoader.LookupFields | packages/graphic-walker/src/dataLoader/kanariesServerDataLoader.ts:131-132 | each field found is a metadata field with one of the keys; missing keys are dropped |
| ServerDataLoader.MetaOf | packages/graphic-walker/src/dataLoader/kanariesServerDataLoader.ts:128-134 | `loadMeta` reports the stored id and only metadata fields whose keys are stored as dimensions or measures |
| ServerDataLoader.LookupOwnFields | packages/graphic-walker/src/dataLoader/kanariesServerDataLoader.ts:131-132 | looking up the keys of some of the fields gives those fields back, when keys are distinct |
| ServerDataLoader.InitThenLoadMeta | packages/graphic-walker/src/dataLoader/kanariesServerDataLoader.ts:104-134 | after `init`, `loadMeta` lists the dimensions and the measures of the metadata in their order |
| ServerDataLoader.LoadDataQuery | packages/graphic-walker/src/dataLoader/kanariesServerDataLoader.ts:156-170 | one `view` step with a `raw` op on all fields, limited to the page size from offset page index times page size |
| ServerDataLoader.PagesTile | packages/graphic-walker/src/dataLoader/kanariesServerDataLoader.ts:156-170 | page 0 starts at row 0 and each page starts where the previous one ends |
| ServerDataLoader.PagesDisjoint | packages/graphic-walker/src/dataLoader/kanariesServerDataLoader.ts:156-170 | two different pages never ask for the same row |
| ServerDataLoader.StatQuery | packages/graphic-walker/src/dataLoader/kanariesServerDataLoader.ts:194-211 | `stat` asks for one aggregate whose only column is `count` |
| ServerDataLoader.ValuesQuery | packages/graphic-walker/src/dataLoader/kanariesServerDataLoader.ts:236-252 | the values query groups by the field and answers with the field and `count_<fid>`, two distinct columns |
| ServerDataLoader.RangeQuery | packages/graphic-walker/src/dataLoader/kanariesServerDataLoader.ts:254-274 | the range query answers with `min_<fid>` and `max_<fid>`, two distinct columns |
| ServerDataLoader.TopValues | packages/graphic-walker/src/dataLoader/kanariesServerDataLoader.ts:281-284 | at most 20 entries, each the field value and count of the row at the same position |
| ServerDataLoader.Entries | packages/graphic-walker/src/dataLoader/kanariesServerDataLoader.ts:282-283 | each row gives one entry: its value of the field and its `count_<fid>` |
| ServerDataLoader.TopValuesOfSorted | packages/graphic-walker/src/dataLoader/kanariesServerDataLoader.ts:281-284 | the reported values are at most 20, largest count first, taken from a permutation of the rows, and no row left out has a larger count than the last one reported |
| ServerDataLoader.TopValuesOfSortedRows | packages/graphic-walker/src/dataLoader/kanariesServerDataLoader.ts:281-284 | the first 20 of rows sorted by count are in order and at least as large as every later row |
| ServerDataLoader.TopValuesFromRows | packages/graphic-walker/src/dataLoader/kanariesServerDataLoader.ts:281-284 | every reported entry stands for one of the server's rows |
| ServerDataLoader.StatFieldRequests | packages/graphic-walker/src/dataLoader/kanariesServerDataLoader.ts:225-278 | the values query is sent exactly when values are asked for; the range query only when the range is asked for |
| ServerDataLoader.StatFieldOf | packages/graphic-walker/src/dataLoader/kanariesServerDataLoader.ts:225-287 | no values asked gives no values, and no range asked gives `[0, 0]`. At most 20 values are reported, and a failed values request fails with its error. When the range is asked: a failed range request fails with its error, an empty reply is `MissingRow`, and otherwise the range is `min_<fid>` and `max_<fid>` of the first row |
| ServerDataLoader.StatFieldValues | packages/graphic-walker/src/dataLoader/kanariesServerDataLoader.ts:225-287 | a successful `statField` lists values largest count first, each from the rows the values query returned |
| ServerDataLoader.StatFieldDefaults | packages/graphic-walker/src/dataLoader/kanariesServerDataLoader.ts:225-230 | with no options nothing is sent and the result is no values and range `[0, 0]` |
| ServerDataLoader.Fetches | packages/graphic-walker/src/dataLoader/kanariesServerDataLoader.ts:100-102 | each query becomes one POST request, in order |
| ServerDataLoader.SortedTopValues | packages/graphic-walker/src/dataLoader/kanariesServerDataLoader.ts:281-284 | sorting a copy in place and taking 20 gives the top values of the reference sort |
| ServerDataLoader.KanariesServerDataLoader.constructor | packages/graphic-walker/src/dataLoader/kanariesServerDataLoader.ts:33-51 | the loader starts with the empty record, no signal and no request |
| ServerDataLoader.KanariesServerDataLoader.Init | packages/graphic-walker/src/dataLoader/kanariesServerDataLoader.ts:104-116 | one GET is sent. On success the record becomes the partition of the metadata and `'init'` is signalled with it. On failure the record and signals are unchanged and the error is the reply's |
| ServerDataLoader.KanariesServerDataLoader.SyncMeta | packages/graphic-walker/src/dataLoader/kanariesServerDataLoader.ts:118-121 | nothing changes |
| ServerDataLoader.KanariesServerDataLoader.SyncData | packages/graphic-walker/src/dataLoader/kanariesServerDataLoader.ts:123-126 | nothing changes |
| ServerDataLoader.KanariesServerDataLoader.LoadMeta | packages/graphic-walker/src/dataLoader/kanariesServerDataLoader.ts:128-134 | the result is `MetaOf` the stored record |
| ServerDataLoader.KanariesServerDataLoader.LoadData | packages/graphic-walker/src/dataLoader/kanariesServerDataLoader.ts:152-171 | one POST of the page query for the stored id; the result is the decoded reply; the record is unchanged |
| ServerDataLoader.KanariesServerDataLoader.Stat | packages/graphic-walker/src/dataLoader/kanariesServerDataLoader.ts:188-213 | one POST of the count query; the result is `count` of the first row, a missing row is an error, a failed reply its error |
| ServerDataLoader.KanariesServerDataLoader.Query | packages/graphic-walker/src/dataLoader/kanariesServerDataLoader.ts:215-223 | the caller's payload is sent for the stored id and the decoded reply returned |
| ServerDataLoader.KanariesServerDataLoader.StatField | packages/graphic-walker/src/dataLoader/kanariesServerDataLoader.ts:225-287 | the requests sent are `StatFieldRequests` and the result is `StatFieldOf`; the record is unchanged |
| CountSort.Insert | packages/graphic-walker/src/dataLoader/kanariesServerDataLoader.ts:281 | inserting adds one element |
| CountSort.SortByCount | packages/graphic-walker/src/dataLoader/kanariesServerDataLoader.ts:281 | the reference sort keeps the number of rows (its order and multiset are stated by the two lemmas below) |
| CountSort.InsertPermutes | packages/graphic-walker/src/dataLoader/kanariesServerDataLoader.ts:281 | inserting adds exactly the element to the multiset |
| CountSort.InsertSorted | packages/graphic-walker/src/dataLoader/kanariesServerDataLoader.ts:281 | inserting into rows sorted by descending count keeps them sorted |
| CountSort.InsertPosition | packages/graphic-walker/src/dataLoader/kanariesServerDataLoader.ts:281 | the element goes after every row with at least its count, before the smaller ones |
| CountSort.SortByCountPermutes | packages/graphic-walker/src/dataLoader/kanariesServerDataLoader.ts:281 | the sort keeps every row as often as it occurs |
| CountSort.SortByCountSorted | packages/graphic-walker/src/dataLoader/kanariesServerDataLoader.ts:281 | the sort orders rows by descending count |
| CountSort.ShiftSmaller | packages/graphic-walker/src/dataLoader/kanariesServerDataLoader.ts:281 | rows before `i` with a smaller count move one place right, the rest stay, and the gap left is where the element goes |
| CountSort.InsertAt | packages/graphic-walker/src/dataLoader/kanariesServerDataLoader.ts:281 | one in-place step inserts `a[i]` into the sorted prefix and leaves the rest of the array alone |
| CountSort.SortByCountInPlace | packages/graphic-walker/src/dataLoader/kanariesServerDataLoader.ts:281 | the array ends up as the reference sort of its old contents |

## Left out

- Network, `fetch`, URLs, headers and JSON parsing are not modelled. Each request is logged as a `Request` value and its reply is a method parameter. A reply that is not JSON (which makes `res.json()` reject) is not modelled.
- `JSON.stringify` of a query parameter is not modelled as text. An encoded value is tagged `Serialized(v)`.
- `EncodeValue` writes only integers. Non-integer and non-finite numbers are not modelled.
- The `!this.dataset` guards are not modelled (`loadData`, `stat`, `query` and `statField`). The record is always an object, so they never fire.
- The `try`/`catch` fallbacks are not modelled: `compileD3Format` always finds a match, and `compileTimeFormat` cannot throw on a string.
- `useMeta`, `useData`, the React components' rendering, `useMemo` and translation text are not modelled. The change signal is modelled only as the list of datasets current at each `'init'`.
- `init` runs in `Init` without awaiting between fetch and store. Interleaving of concurrent asynchronous calls is not modelled.
- `CountSort.SortByCount`: the comparator `b[COUNT_ID] - a[COUNT_ID]` is modelled on integer counts. JavaScript's `-` coerces strings, booleans and null (a numeric string to its number, `true` to 1, `null` to 0, other strings and `undefined` to `NaN`); the model counts every value that is not a `Num` as 0.
- `CountSort.SortByCount`: ties keep their input order, which is what a stable `Array.prototype.sort` gives. The model's order between equal counts is that one.
- `NumberFormatForm.ApplyPrecisionInput`: `Number(...)` of a digit string is modelled as its exact value. Past 2^53 the source rounds, and past about 308 digits it gives `Infinity`, where the form keeps the old precision.
- `D3Format.Canonical` excludes options that cannot round-trip through the parser as written. Those are a parentheses sign (the class `[-+ ]` lacks `(`), the two-character `#b` symbol and a fill string.
- The d3 library's own formatting of numbers and dates with these specifiers is not part of this model.
- `Text.DigitsValue` gives the value of the digits; it does not model `Number`'s floating point.
- ServerDataLoader.InitThenLoadMeta: stated only for metadata whose field keys are distinct. With duplicate keys, `find` returns the first field for every copy of a key. `MetaOf` computes that, but no lemma describes it.
- `stat` and `statField` index an empty reply with `[0]`, and the source then throws a `TypeError`. The model gives the `MissingRow` error instead, with no text.
- NumberFormatForm.EditIsReadBack: stated with the corrected parser. With the parser as written the read-back is `NumberFormatForm.EditIsReadBackAsWritten`, and `NumberFormatForm.FormDropsFillAsWritten` shows the fill being lost.
- NumberFormatForm.EditKeepsFill: stated with the corrected parser; as written the fill is dropped before any control acts (`NumberFormatForm.FormDropsFillAsWritten`).
- TimeFormatForm.EditIsReadBack: stated with the corrected reading. With the reading as written the read-back is `TimeFormatForm.EditIsReadBackAsWritten`.
- TimeFormat.DoublePercents: its own contract states only that no character is added and that text without `%` is unchanged; the doubling of each `%` is stated by `TimeFormat.DoublePercentsChar` and `TimeFormat.DoublePercentsAppend`.
- TimeFormat.CollapseWhitespace: its own contract states only that whitespace is gone and text without it is unchanged; each run becoming one `-` is stated by `TimeFormat.CollapseRun` and `TimeFormat.CollapseAppend`.
- TimeFormat.SafeDateSeparator: its own contract inherits the two gaps above; the printed form of every one-character separator is stated by `TimeFormat.SafeDateSeparatorChar`.
- TimeFormat.Recognise: its own contract does not list the eight tokens; `TimeFormat.RecogniseTokens` does, with the key of each.
- Text.KeepDigits: its own contract does not say the digits are kept in order; `Text.KeepDigitsChar` and `Text.KeepDigitsAppend` do.
- Text.NatToString: writes every natural number in decimal; JavaScript's `${n}` switches to exponent form from 10^21, far beyond any precision the form accepts.
- TimeFormatForm.SeparatorInput: `slice(0, 1)` takes one UTF-16 code unit. For a character outside the Basic Multilingual Plane the source keeps a lone surrogate, while the model keeps the whole character.
- TimeFormat.FirstSeparator: the pattern `[^%a-zA-Z0-9]` matches one UTF-16 code unit, so for a character outside the Basic Multilingual Plane the source finds a lone surrogate, while the model finds the whole character.
- `RawForm` and `GUIForm` only pass text through, so they are not modelled.

## Findings

| source | as written | input that shows it | evidently intended | confidence | as-written member | corrected member |
|---|---|---|---|---|---|---|
| packages/graphic-walker/src/components/visualConfig/format.ts:131 | the fill group `[\s\S]*?` is lazy and the pattern unanchored, so the first match starts at offset 0 with an empty fill. A fill character before the align character ends the match at once, and the whole specifier reads as empty options | `*<,.2f` compiles to `{ type: '' }`, and the number form then rewrites `*<` as `,` when the separator is ticked | one optional fill character before an align character, as d3-format's own pattern `(?:(.)?([<>=^]))?` reads it | not executed | D3Format.FillCharacterIsLost, NumberFormatForm.FormDropsFillAsWritten, NumberFormatForm.EditNumberFormatAsWritten, NumberFormatForm.EditIsReadBackAsWritten | D3Format.CompileD3FormatFixed, D3Format.CompileFixedStringifyRoundTrip, NumberFormatForm.FormKeepsFill, NumberFormatForm.EditNumberFormat, NumberFormatForm.EditIsReadBack, NumberFormatForm.EditKeepsFill |
| packages/graphic-walker/src/components/visualConfig/formatPanel.tsx:247-250 | the printer puts ` %a` between the date and time segments, but the parser reads only the second space-separated segment as the time segment | weekday and hour print as ` %a %H`, which compiles back to the weekday alone; the hour part is lost | every segment after the date segment is split at `:` and read | not executed | TimeFormat.WeekdayHidesTimeParts, TimeFormat.RecompileAsWritten, TimeFormatForm.EditTimeFormatAsWritten, TimeFormatForm.EditIsReadBackAsWritten, TimeFormatForm.WeekdayHidesTimeZoneBox | TimeFormat.TimeFormatOfFixed, TimeFormat.RecompileNormalizes, TimeFormatForm.EditTimeFormat, TimeFormatForm.EditIsReadBack, TimeFormatForm.TimeZoneBoxStays |
| packages/graphic-walker/src/components/visualConfig/formatPanel.tsx:370-376 | the separator field takes the first typed character whatever it is, but the parser looks for the first character outside `[%a-zA-Z0-9]` (line 244). A letter, digit or `%` between two or more date parts is therefore never found: the whole date segment reads as one unknown token | `x` typed with a year and a month shown prints `%Yx%m `, which reads back as no part at all; every date part is lost | a separator the parser can find, with `/` when the typed one cannot be used, as for an empty field | not executed | TimeFormat.UnreadableDates, TimeFormat.RecompileAnySeparator, TimeFormatForm.TypedPatternCharLosesDates, TimeFormatForm.LetterSeparatorTaken, TimeFormatForm.LetterSeparatorPrinted, TimeFormatForm.LetterSeparatorExample, TimeFormatForm.EditIsReadBackAsWritten | TimeFormatForm.SeparatorInputFixed, TimeFormatForm.EditTimeOptionsFixed, TimeFormatForm.EditIsReadBackFixed, TimeFormatForm.EditTimeFormat |
