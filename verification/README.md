# exhash: verified model of the address codec, the command parser and the edit engine

exhash is a line editor driven by an `ed`-like script in which every address is
a *lnhash*: `lineno|hash|`, a 1-based line number followed by four lower-case
hex digits of a 16-bit hash of that line's text. An edit first checks every
address of the script against the input, so a stale address (the line moved
or changed since the caller looked at it) refuses the whole edit before
anything is touched. Then it applies the commands in order. It reports the
edited lines, the fresh address of each, the new line numbers it changed, and
the input line numbers it deleted.

This project models three parts of exhash in Dafny:

* `crates/exhash-core/src/lnhash.rs`, the address codec: printing and parsing
  `lineno|hash|` (modules `Numerals` and `Lnhash`, with `Strings` for the
  `str` operations they rely on).
* `src/parse.rs`, the command parser: one command per string, or a whole
  script in which `a`, `i` and `c` read their text block from the following
  lines up to a lone `.` (module `Parse`).
* `src/engine.rs`, the edit engine (modules `Buffer`, `TextOps`, `Verify`
  and `Engine`). It covers:
  * `edit_text` and the up-front address check;
  * every subcommand: `d`, `s`, `a`, `i`, `c`, `j`, `m`, `t`, `g`, `g!`/`v`,
    `>`, `<`, `sort` and `p`;
  * the report that is built at the end.

The engine is a class, `Engine.Engine`, like the Rust `Engine` struct. Its
fields are the buffer of lines and the set of deleted input line numbers, and
its methods change them in place. Its invariant `Valid` is the bookkeeping
property on which the report depends: every input line number is carried by
exactly one buffer line or lies in the deleted set, and never both. Every
subcommand keeps this invariant. Each subcommand other than a global states its
new buffer exactly in terms of the old one, and `Routed` states which edit
`apply_subcommand` reaches for it and with which of the two addresses. A global
states its new buffer exactly when its subcommand is `d`, and such a global
succeeds whenever its range resolves and its pattern compiles. Each subcommand
states its error cases with the error text.

The line hash (SipHash-1-3 through `DefaultHasher`) is a parameter of type
`LineHasher`. The regex engine is a parameter of type `RegexLib`: whether a
pattern compiles, whether it matches, and what replacing the first match or
all matches gives. Both are uninterpreted. Every proof therefore holds for any
hash function and any regex library.

## Model

| member | source | states |
|---|---|---|
| Strings.TrimStart | src/parse.rs:194 | the result is a suffix of the input, every dropped character is Unicode whitespace, and the result does not start with whitespace |
| Strings.TrimEnd | src/parse.rs:126 | the result is a prefix of the input, every dropped character is whitespace, and the result does not end with whitespace |
| Strings.TrimNoop | src/parse.rs:126 | trimming a string that neither starts nor ends with whitespace leaves it as it is |
| Strings.TrimAllWhitespace | src/parse.rs:68 | a string made only of whitespace trims to empty, so it counts as blank |
| Strings.Find | crates/exhash-core/src/lnhash.rs:42 | the index of the first occurrence of the separator, or None exactly when it does not occur |
| Strings.FindAfter | crates/exhash-core/src/lnhash.rs:42-43 | in `prefix + c + rest` with no `c` in `prefix`, the first `c` sits right after `prefix`, so the text before it is `prefix` and the text after it is `rest` |
| Strings.Split | src/parse.rs:76-77 | `split` yields at least one piece, and no piece contains the separator |
| Strings.SplitJoin | src/parse.rs:76 | joining the pieces of `split` with the separator gives back the input |
| Strings.JoinSplit | src/parse.rs:76 | splitting a join of separator-free pieces gives back those pieces |
| Strings.Lines | src/engine.rs:446 | `str::lines` yields pieces without `\n` |
| Strings.LinesTerminated | src/engine.rs:446 | `lines` of the newline-terminated concatenation of `\n`- and `\r`-free-ending lines gives back those lines |
| Strings.Utf8Len | crates/exhash-core/src/lnhash.rs:66 | the UTF-8 byte length is at least the character count, and equal exactly when every character is ASCII |
| Numerals.DigitValue | crates/exhash-core/src/lnhash.rs:72 | a digit's value is below the radix; base 10 accepts exactly `0-9`; base 16 accepts `0-9`, `a-f` and `A-F` |
| Numerals.ParseUnsigned | crates/exhash-core/src/lnhash.rs:53-55 | a parsed value never exceeds the type's maximum; it starts with `+` or a digit; the empty string, a lone `+` and a lone `-` are rejected |
| Numerals.Decimal | crates/exhash-core/src/lnhash.rs:25 | `{}` of a number: at least one decimal digit, no leading zero |
| Numerals.Hex4 | crates/exhash-core/src/lnhash.rs:25 | `{:04x}` of a 16-bit value: exactly four lower-case hex digits |
| Numerals.DecimalValue | crates/exhash-core/src/lnhash.rs:25 | the printed digits denote the number printed |
| Numerals.DecimalRoundTrip | crates/exhash-core/src/lnhash.rs:53-55 | parsing the printed line number as `usize` gives it back |
| Numerals.Hex4RoundTrip | crates/exhash-core/src/lnhash.rs:72 | parsing the printed hash as a base-16 `u16` gives it back |
| Lnhash.ParseLnHashPrefix | crates/exhash-core/src/lnhash.rs:41-76 | on success, the line number fits `usize`, and the rest is a strict suffix that follows the second bar separator; input with no bar at all gives the missing-separator error |
| Lnhash.ParseLnHash | crates/exhash-core/src/lnhash.rs:29-38 | accepts exactly the inputs whose prefix parse leaves nothing over, with the same address |
| Lnhash.FormatAddress | crates/exhash-core/src/lnhash.rs:25 | a printed address starts with a decimal digit, ends with a bar, and is six characters longer than its line number |
| Lnhash.FormatLnHash | crates/exhash-core/src/lnhash.rs:23-26 | `format_lnhash` gives at least seven characters, starting with a digit and ending with a bar |
| Lnhash.PrefixFields | crates/exhash-core/src/lnhash.rs:43-75 | for a line-number field, a hash field and the rest, joined by bars, the error cases in source order: empty line number, bad line number, hash not 4 bytes wide, bad hash; otherwise both values and `rest` |
| Lnhash.PrefixMissingHashSep | crates/exhash-core/src/lnhash.rs:58-64 | a valid line number whose hash has no closing bar gives the missing-hash-separator error |
| Lnhash.AsciiUtf8Len | crates/exhash-core/src/lnhash.rs:66 | for ASCII text the byte width check is a character count |
| Lnhash.PrefixRoundTrip | crates/exhash-core/src/lnhash.rs:24-76 | a printed address followed by any text parses back to the same address and exactly that text |
| Lnhash.LnHashRoundTrip | crates/exhash-core/src/lnhash.rs:83-91 | `parse_lnhash(format_lnhash(n, line))` is `(n, hash(line))` for every `usize` line number |
| Lnhash.FormatShape | crates/exhash-core/src/lnhash.rs:23-26 | a printed address is decimal digits, a bar, four lower-case hex digits and a bar |
| Lnhash.PrefixExample | crates/exhash-core/src/lnhash.rs:94-99 | the address of line 3 with hash `00ff`, followed by `d`, parses to line 3, hash 0x00ff, rest `d` |
| Lnhash.ExampleFields | crates/exhash-core/src/lnhash.rs:94-99 | the fields of that example parse to 3 and 0xff, and the hash is 4 bytes wide |
| Parse.Scan | src/parse.rs:363-379 | the text after a found delimiter is a strict suffix of the input and follows a delimiter character; with no delimiter in the input none is found; the decoded text is never longer than the input |
| Parse.ScanStep | src/parse.rs:363-379 | one step of the escape-aware scan: a backslash keeps the next character literally, an unescaped delimiter stops, and any other character is kept |
| Parse.Delimited | src/parse.rs:350-382 | an input that does not start with the delimiter is the missing-delimiter error; an opening delimiter that no unescaped delimiter closes is the unterminated error; a success leaves a strict suffix that follows a closing delimiter |
| Parse.ToDelim | src/parse.rs:387-399 | never fails; leaves a suffix of the input, which is empty when no delimiter closes the text and otherwise follows the delimiter |
| Parse.Escape | src/parse.rs:363-379 | the written form of delimited text is never shorter than the text, and text with no backslash and no delimiter is written as it is |
| Parse.ScanEscape | src/parse.rs:363-379 | scanning escaped text followed by anything decodes exactly that text and then goes on scanning what follows |
| Parse.ScanAtDelim | src/parse.rs:374-377 | a scan that starts at an unescaped delimiter stops there with nothing decoded and the rest after it |
| Parse.DelimitedScan | src/parse.rs:350-382 | behind an opening delimiter, a closed scan is what `parse_delimited` returns |
| Parse.DelimitedRoundTrip | src/parse.rs:350-382 | `parse_delimited` of a delimiter, escaped text, a delimiter and any rest gives back the text and that rest |
| Parse.ToDelimRoundTrip | src/parse.rs:387-399 | `scan_to_delim` of escaped text gives back the text, with the rest after a closing delimiter or nothing when there is none |
| Parse.ParseDelimited | src/parse.rs:350-382 | the character loop computes `Delimited` |
| Parse.ScanToDelim | src/parse.rs:387-399 | the character loop computes `ToDelim` |
| Parse.TextBlock | src/parse.rs:431-452 | a block consumes one line more than it holds; reaching the end without a terminator is the EOF error |
| Parse.TextBlockSpec | src/parse.rs:431-452 | the block ends at the first line that is `.` once its trailing `\r` is dropped; every earlier line is in the block, `..` read as `.`; there is an error exactly when no line is `.` |
| Parse.ReadTextBlockFromIter | src/parse.rs:431-452 | the line loop computes `TextBlock` |
| Parse.TextBlockStep | src/parse.rs:438-449 | one line of the block loop: the terminator ends it, and any other line is appended |
| Parse.DotEscapeAll | src/parse.rs:444-446 | the escaped block has the same length, and each line is escaped on its own |
| Parse.TextBlockRoundTrip | src/parse.rs:431-452 | a block written with `.` escaped as `..`, followed by a terminator, reads back as the same block, whatever follows |
| Parse.ReadText | src/parse.rs:80-116 | a preset block is returned as it is; reading from the script's lines only moves forward, past at least the terminator; the only error is end of input on the script's lines |
| Parse.ParseOptionalUsize | src/parse.rs:265-272 | blank means 1; otherwise it succeeds exactly when the trimmed text is a `usize` |
| Parse.SubstFlags | src/parse.rs:320-330 | the flags parse exactly when every character is `g` or `i`, and then set `global` and `case_insensitive` by presence |
| Parse.ParseSubstFlags | src/parse.rs:320-330 | the loop computes `SubstFlags` |
| Parse.ParseSubstitute | src/parse.rs:308-345 | a substitution never has an empty pattern and leaves nothing over; input that does not start with `/` is the syntax error |
| Parse.SubstituteParts | src/parse.rs:308-345 | after `/`, an unterminated pattern is the unterminated error; otherwise the pattern is what `parse_delimited` reads, the replacement what `scan_to_delim` reads after it, and the trimmed rest the flags; a bad flag is reported before an empty pattern, and a success sets `g` and `i` by presence |
| Parse.SubstituteOk | src/parse.rs:308-345 | when the pattern, the replacement and the flags all read, the substitution is made of them and nothing is left |
| Parse.FlagsText | src/parse.rs:320-330 | the written flags are only `g` and `i`, hold `g` exactly when global and `i` exactly when case-insensitive, and need no trimming |
| Parse.FlagsTextReads | src/parse.rs:320-330 | the written flags read back as the same two switches |
| Parse.FormatSubst | src/parse.rs:308-345 | the written substitution starts with `/` and neither starts nor ends with whitespace |
| Parse.FormatSubstShape | src/parse.rs:309-315 | the written substitution needs no trimming, starts with `/`, and is the delimited pattern followed by the escaped replacement, `/` and the flags |
| Parse.SubstituteRoundTrip | src/parse.rs:308-345 | every substitution with a non-empty pattern reads back from its written form, with nothing left over |
| Parse.GlobalBlock | src/parse.rs:274-306 | a global carries a text block exactly when its inner subcommand does, and it is the same block |
| Parse.ParseSubcommand | src/parse.rs:187-263 | a success is well formed, takes the preset block if it needs one, and otherwise consumes no line |
| Parse.SubcommandDispatch | src/parse.rs:194-261 | `sort` is recognised before `s`; empty input is the missing-command error; a first letter that starts no subcommand (none of `g`, `v`, `a`, `i`, `c`, `d`, `p`, `j`, `s`, `m`, `t`, `>`, `<`) is the unknown-command error |
| Parse.FirstLetter | src/parse.rs:205-211 | past `sort` and `g!`, a non-empty command hands its first character and the text after it to the `match` |
| Parse.ParseLetter | src/parse.rs:211-262 | the `match` on the first letter: a success is well formed and takes its block from the line source; a success that reads no block leaves the source alone |
| Parse.LetterRoutes | src/parse.rs:211-262 | `g` reaches the global parser without inversion and `v` with it; `a`, `i` and `c` reach the text parser; `d`, `p`, `j`, `s`, `m`, `t`, `>` and `<` reach the operand parser; every other letter is the unknown-command error |
| Parse.ParseTextOp | src/parse.rs:219-230 | `a`, `i` and `c` succeed exactly when their text can be read, and are then `Append`, `Insert` and `Change` of that text with the rest of the line and the advanced source; the only error is end of input |
| Parse.ParseOperandOp | src/parse.rs:211-262 | letters outside `dpjsmt><` are the unknown-command error; `d`, `p` and `j` always parse and keep the rest of the line; a success is well formed and reads no text |
| Parse.PlainLetters | src/parse.rs:212-214 | `d`, `p` and `j` are `Delete`, `Print` and `Join`, with the rest of the line kept |
| Parse.SubstituteOp | src/parse.rs:215-218 | `s` succeeds only with a substitution whose pattern is not empty, with nothing left and the line source untouched |
| Parse.DestinationOp | src/parse.rs:231-250 | `m` and `t` succeed only with `Move` or `Copy` of a destination from 1 to the `usize` maximum, with nothing left and the line source untouched |
| Parse.DestinationShape | src/parse.rs:231-250 | the destination is the whole trimmed rest read as one address; its error passes through, and line 0 is refused with the `m` or the `t` error |
| Parse.LevelOp | src/parse.rs:253-260 | `>` and `<` succeed only with `Indent` or `Dedent` of a count within `usize`, with nothing left and the line source untouched |
| Parse.SubstituteLetter | src/parse.rs:215-218 | `s` is the substitution `parse_substitute` reads, with nothing left, or its error |
| Parse.MoveLetter | src/parse.rs:231-240 | `m` reads the trimmed rest as one address: its error passes through, line 0 is refused for `m`, and otherwise it is the destination |
| Parse.CopyLetter | src/parse.rs:241-250 | `t` reads its destination like `m`, and line 0 is refused for `t` |
| Parse.LevelLetters | src/parse.rs:253-260 | `>` and `<` are `Indent` and `Dedent` of the count `parse_optional_usize` reads, or its error |
| Parse.TextLetters | src/parse.rs:219-230 | a first letter `a`, `i` or `c` goes to the text parser with the text after it |
| Parse.OperandLetters | src/parse.rs:205-262 | past `sort`, a first letter among `dpjsmt><` goes to the operand parser with the text after it |
| Parse.GlobalLetters | src/parse.rs:201-252 | `g!` and `v` give an inverted global and `g` alone one that does not invert, each given the text after the letters |
| Parse.ParseGlobal | src/parse.rs:274-306 | a global needs `/pat/` then a subcommand and no trailing text; its result keeps `invert` and is well formed |
| Parse.GlobalParts | src/parse.rs:282-305 | after `/`, an unterminated pattern is the unterminated error; no subcommand is its own error; the subcommand's error passes through; trailing text is refused; otherwise the global holds the pattern and the subcommand that `parse_subcommand_with_text` reads |
| Parse.GlobalBangDispatch | src/parse.rs:200-203 | `g!` is tried before `g` and parses an inverted global |
| Parse.GlobalVDispatch | src/parse.rs:252 | `v` parses an inverted global, exactly like `g!` |
| Parse.GlobalGDispatch | src/parse.rs:251 | `g` not followed by `!` parses a global that does not invert |
| Parse.GlobalTrailing | src/parse.rs:286-297 | a global whose subcommand leaves non-blank text is refused with the trailing-characters error, and only then |
| Parse.CommandTrailing | src/parse.rs:143-151 | a top-level command whose subcommand leaves non-blank text is refused with the trailing-characters error, and only then |
| Parse.CommandOk | src/parse.rs:122-185 | a line whose addresses, subcommand and zero-address rules all pass is the command made of them |
| Parse.FormatSubcommand | src/parse.rs:211-262 | a written subcommand is non-empty, neither starts nor ends with whitespace, and does not start with `,` |
| Parse.FormatRest | src/parse.rs:126-136 | the text after the first address is the subcommand alone exactly when there is no second address |
| Parse.FormatCommand | src/parse.rs:122-185 | a written command line starts with a digit and does not end with whitespace |
| Parse.LetterDispatch | src/parse.rs:205-262 | a command letter followed by its operand text reaches the parser for that letter |
| Parse.PlainRoundTrip | src/parse.rs:195-214 | `d`, `p`, `j` and `sort` read back from their written form with nothing left |
| Parse.TextRoundTrip | src/parse.rs:219-230 | `a`, `i` and `c` read back with the block their line source holds |
| Parse.SubstituteCommandRoundTrip | src/parse.rs:215-218 | `s` reads back its substitution |
| Parse.DestinationRoundTrip | src/parse.rs:231-250 | `m` and `t` read back their destination |
| Parse.LevelRoundTrip | src/parse.rs:253-260 | `>` and `<` read back their level count |
| Parse.GlobalShape | src/parse.rs:274-306 | a written global is its letter, the delimited pattern and the written subcommand |
| Parse.GlobalBodyRoundTrip | src/parse.rs:282-305 | the pattern and subcommand of a global read back when the subcommand does |
| Parse.GlobalRoundTrip | src/parse.rs:274-306 | a global, inverted or not, reads back when its subcommand does |
| Parse.SubcommandRoundTrip | src/parse.rs:187-263 | every well-formed subcommand reads back from its written form, with nothing left, given a line source holding its block |
| Parse.AddressesRoundTrip | src/parse.rs:126-136 | one written address, or two joined by `,`, read back and leave the subcommand text |
| Parse.CommandRoundTrip | src/parse.rs:122-185 | every well-formed command reads back from its written line in strings mode, given its block |
| Parse.ParseAddresses | src/parse.rs:126-136 | both addresses fit `usize`, and the command text after them is strictly shorter |
| Parse.AddressesParts | src/parse.rs:126-136 | the first address is what `parse_lnhash_prefix` reads; after a `,` the second is what it reads next; its errors pass through |
| Parse.ZeroAddressError | src/parse.rs:153-177 | no error exactly when the zero address stands alone with hash 0 before `a` or `i`, and a second address is never 0 |
| Parse.ParseCommandWithText | src/parse.rs:122-185 | a parsed command is well formed: the comma flag matches the second address, the addresses follow the zero rules, and the subcommand is well formed |
| Parse.TakesTextHasBlock | src/parse.rs:85-95 | a command that is allowed extra lines carries a text block |
| Parse.StripCrAll | src/parse.rs:78 | each line loses one trailing `\r` and nothing else |
| Parse.ParseCommandFromStr | src/parse.rs:75-97 | a parsed command is well formed; a multi-line string must be a text command; its block is the remaining lines without `\r` |
| Parse.NonBlank | src/parse.rs:68 | the kept strings are never blank |
| Parse.ParseCommandsFromStrs | src/parse.rs:65-73 | the loop computes `ParseEach` |
| Parse.ErrorSticks | src/parse.rs:65-73 | once a prefix of the list fails, the whole list fails with the same error |
| Parse.ParseEachOk | src/parse.rs:65-73 | a successful list holds, in order, the command of each non-blank string |
| Parse.ParseEachErr | src/parse.rs:65-73 | a failed list reports the error of the first non-blank string that does not parse |
| Parse.ParseEachSpec | src/parse.rs:65-73 | the list parses exactly when every non-blank string parses |
| Parse.ScriptWellFormed | src/parse.rs:104-120 | every command of a parsed script is well formed |
| Parse.ScriptLines | src/parse.rs:104-108 | one script line per piece between newlines, each without one trailing `\r` |
| Parse.ParseScriptFrom | src/parse.rs:104-120 | a parsed script has at most one command per remaining line |
| Parse.ParseScript | src/parse.rs:104-120 | a parsed script has at most one command per line, and every command is well formed |
| Parse.ScriptStepErr | src/parse.rs:111-118 | a line that fails to parse ends the script with its error |
| Parse.ScriptStepOk | src/parse.rs:111-118 | a parsed line moves strictly forward, past any text block it consumed, and its command comes before the rest of the script |
| Parse.ParseScriptLine | src/parse.rs:111-118 | one iteration of the script loop keeps the result of the whole script unchanged |
| Parse.ParseCommandsFromScript | src/parse.rs:104-120 | the loop computes `ParseScript` |
| Buffer.UpdateRangeOutside | src/engine.rs:351-355 | changing lines `s..e` keeps the length and every line outside the range |
| Buffer.Initial | src/engine.rs:36-51 | the starting buffer's texts are the input, and no line is flagged or marked |
| Buffer.InitialAccounted | src/engine.rs:36-51 | a fresh engine accounts for every input line number exactly once, with nothing deleted |
| Buffer.NumberedOrigins | src/engine.rs:37-45 | lines numbered consecutively carry exactly those numbers, each once |
| Buffer.RemoveBlock | src/engine.rs:116-125 | removing a block and adding its origins to the deleted set keeps the bookkeeping exact |
| Buffer.InsertBlock | src/engine.rs:168-178 | inserting lines without an origin keeps the bookkeeping exact |
| Buffer.SwapBlocks | src/engine.rs:301-314 | exchanging two adjacent blocks, while touching only their flags, keeps the bookkeeping, the marks and the multiset of texts |
| Buffer.ReplaceBlock | src/engine.rs:380-386 | replacing a block with one of the same origins and marks keeps the bookkeeping |
| Buffer.PermutationTags | src/engine.rs:381 | a permutation of lines keeps the origins, their distinctness, the marks and the multiset of texts |
| Buffer.Touched | src/engine.rs:303-305 | flagging lines as modified keeps their texts, origins and marks, and every result line is flagged |
| Buffer.FreshUntagged | src/engine.rs:168-176 | new text lines carry no origin and no mark |
| Buffer.ClonesUntagged | src/engine.rs:330-338 | copied lines carry no origin and no mark |
| Buffer.UnmarkedCount | src/engine.rs:410-413 | no line is marked exactly when the mark count is 0 |
| Buffer.ClearOneMark | src/engine.rs:422-423 | clearing one mark lowers the mark count by one, which is why the global loop ends |
| Buffer.Unmarks | src/engine.rs:420-431 | what a global with `d` leaves: the unmarked lines, none of them marked |
| Buffer.UnmarksNone | src/engine.rs:434-436 | if no line is marked, `d` under a global deletes nothing |
| Buffer.MarkedSurvivors | src/engine.rs:415-431 | marking `s..e` by the selector and then dropping the marked lines leaves the lines outside the range plus the unselected ones inside it |
| TextOps.JoinStrings | src/engine.rs:548-562 | an empty side gives the other; otherwise the texts are concatenated, with one space inserted exactly when neither side has whitespace at the seam |
| TextOps.JoinAll | src/engine.rs:268-271 | a one-line range joins to that line's text |
| TextOps.JoinAllPrefix | src/engine.rs:268-271 | the joined text of a range starts with the first line's text |
| TextOps.JoinWithSnoc | src/engine.rs:269-271 | joining one more text at the end adds the separator and the text |
| TextOps.JoinAllSpaced | src/engine.rs:268-271 | for texts with no whitespace at their edges, a joined range is the texts separated by single spaces |
| TextOps.JoinAllSnoc | src/engine.rs:269-271 | joining one more line onto a run joins its text onto the run's joined text |
| TextOps.IndentPrefix | src/engine.rs:350 | the prefix for `levels` is `4 * levels` spaces |
| TextOps.DedentCount | src/engine.rs:567-584 | one level removes at most 4 characters, and removes none exactly when the line starts with neither a space nor a tab |
| TextOps.Dedented | src/engine.rs:564-588 | the dedented line is never longer than the line (with `DedentedSuffix` and `DedentIndent` it is the line less an indentation prefix) |
| TextOps.DedentedSuffix | src/engine.rs:564-588 | dedenting only removes a prefix |
| TextOps.DedentIndent | src/engine.rs:345-373 | dedenting by `levels` undoes indenting by `levels` |
| TextOps.Dedent | src/engine.rs:564-588 | the loop computes `Dedented` |
| TextOps.CountLeadingSpaces | src/engine.rs:576-580 | the inner loop counts the leading spaces, at most four |
| TextOps.TextLeTotal | src/engine.rs:381 | the text order used by `sort` is total |
| TextOps.TextLeTrans | src/engine.rs:381 | the text order is transitive |
| TextOps.InsertByTextPerm | src/engine.rs:381 | insertion adds exactly one line |
| TextOps.InsertByTextSorted | src/engine.rs:381 | insertion keeps a sorted list sorted |
| TextOps.SortByText | src/engine.rs:381 | the sort has as many lines as the range |
| TextOps.SortByTextSpec | src/engine.rs:381 | the sort is a permutation and is sorted by text |
| TextOps.SortByTextSorted | src/engine.rs:381 | sorting a sorted list changes nothing |
| TextOps.SortChangesUnsorted | src/engine.rs:380-386 | the sorted texts equal the original texts exactly when the range was already sorted |
| Verify.VerifyLnHashBasic | src/engine.rs:516-535 | accepts exactly the addresses that name an input line and carry its hash; zero, out of range and stale are refused in that order |
| Verify.VerifyLnHash | src/engine.rs:501-514 | additionally accepts the zero address (line 0, hash 0000) before `a`/`i` only; a zero address with a nonzero hash, or before another command, has its own error |
| Verify.VerifySubcommandRefs | src/engine.rs:490-499 | a destination of `m`/`t`, however deeply wrapped in globals, must be current |
| Verify.VerifyCommand | src/engine.rs:479-487 | a command passes exactly when both addresses and its destination check out |
| Verify.VerifyAll | src/engine.rs:479-488 | the loop computes `VerifyEach` |
| Verify.VerifyEachSpec | src/engine.rs:479-488 | the script passes exactly when every command is current; otherwise the error is that of the first command that is not |
| Verify.PrintedAddressVerifies | src/engine.rs:455-460 | an address printed for an input line parses and passes the check against that input |
| Engine.ResolveRange | src/engine.rs:98-114 | succeeds exactly for `1 <= start <= end <= len`, giving 0-based indices; the zero, inverted and out-of-range errors in that order |
| Engine.BuildRegex | src/engine.rs:537-546 | succeeds exactly when the library compiles the pattern |
| Engine.Retext | src/engine.rs:141-144 | a line given a new text is flagged modified only if the text changed; its origin and mark are kept |
| Engine.SubstText | src/engine.rs:130-140 | without `g`, a text the pattern does not match is left as it is |
| Engine.Indented | src/engine.rs:350-355 | an indented line has the prefix in front and is always flagged modified |
| Engine.DedentLine | src/engine.rs:364-371 | a dedented line is a suffix of the old one, with the same origin and mark |
| Engine.SubstLine | src/engine.rs:130-145 | a substituted line is flagged modified exactly when it was already flagged or its text changed |
| Engine.Engine.constructor | src/engine.rs:36-51 | the buffer holds the input in order, with line `i` having origin `i + 1`; nothing deleted; the invariant holds |
| Engine.Engine.DeleteRange | src/engine.rs:116-125 | on a valid range the lines are removed and their origins recorded as deleted; otherwise the range error, with nothing changed |
| Engine.Engine.AppendAfter | src/engine.rs:149-180 | new lines go after the range end, or at the top for address 0; an address beyond the buffer is refused |
| Engine.Engine.InsertBefore | src/engine.rs:182-211 | new lines go before the addressed line, or at the top for address 0; an address beyond the buffer is refused |
| Engine.Engine.ChangeRange | src/engine.rs:213-238 | the range is replaced by new lines and its origins are recorded as deleted |
| Engine.Engine.SetText | src/engine.rs:141-144 | one line gets a new text, flagged only if it changed; the invariant and marks are kept |
| Engine.Engine.JoinWithNext | src/engine.rs:240-261 | the line takes the joined text and the next line is deleted; errors for address 0, a buffer under 2 lines, and the last line |
| Engine.Engine.JoinAt | src/engine.rs:250-259 | the line takes the joined text (flagged only if it changed), the next line is removed and its origin deleted; the invariant is kept and no mark is added |
| Engine.Engine.JoinRange | src/engine.rs:263-284 | the first line of the range takes the joined text of the range; the rest are deleted; a single line changes nothing |
| Engine.Engine.JoinBlock | src/engine.rs:268-283 | the join of a resolved range, with its exact new buffer and deleted set |
| Engine.Engine.JoinTexts | src/engine.rs:268-271 | the loop computes the join of the range's texts |
| Engine.Engine.MoveRange | src/engine.rs:286-316 | the range goes before or after the destination, and its lines are flagged modified; it keeps the bookkeeping and the multiset of texts; the destination errors in source order |
| Engine.Engine.MoveBlock | src/engine.rs:301-314 | the splice of a resolved move, with both directions stated as buffers |
| Engine.Engine.CopyRange | src/engine.rs:318-343 | copies of the range without origin are inserted after the destination, and the original stays |
| Engine.Engine.IndentRange | src/engine.rs:345-357 | each line in the range gets `levels` indentation and is flagged; 0 levels change nothing |
| Engine.Engine.DedentRange | src/engine.rs:359-373 | each line in the range is dedented, flagged only if its text changed; 0 levels change nothing |
| Engine.Engine.DedentEach | src/engine.rs:364-371 | the loop dedents exactly the lines of the range |
| Engine.Engine.SubstituteRange | src/engine.rs:127-147 | each line in the range is substituted; the range error comes first, then the regex error, with no line changed |
| Engine.Engine.SortRange | src/engine.rs:375-389 | on a valid range the new buffer is `TextOps.SortedLines` of the old one over that range, so it has the properties `TextOps.SortedLinesRun` proves; range errors are reported as `resolve_range` reports them and change nothing |
| Engine.Engine.SortResolved | src/engine.rs:377-387 | a single-line range is left as it is and a longer one is sorted; either way the new buffer is `TextOps.SortedLines` of the old one and the invariant and mark count are kept |
| Engine.Engine.SortBlock | src/engine.rs:380-387 | the new buffer is `TextOps.SortedLines` of the old one, and the invariant and the mark count are kept |
| TextOps.SortedLinesRun | src/engine.rs:376-387 | the buffer the sort leaves (`SortedRun`): lines outside the range kept; a range already in text order left exactly as it was; any other range replaced by its sort by text, whole lines moving with their texts and every one flagged modified; the range ends up in text order with the same multiset of texts |
| TextOps.SortedRunHolds | src/engine.rs:380-387 | a buffer that keeps the lines outside the range and holds the kept or sorted run inside has every property `SortedRun` names |
| TextOps.SortedSingle | src/engine.rs:377-379 | sorting a one-line range leaves the buffer as it was |
| TextOps.SortedLinesPlaced | src/engine.rs:380-387 | a buffer that keeps the lines outside the range and holds the kept or sorted run inside is `SortedLines` of the old buffer |
| Engine.Engine.PlaceSorted | src/engine.rs:381 | the range is replaced by its sort, keeping the bookkeeping |
| Engine.Engine.ReportRun | src/engine.rs:383-386 | every line of the range is flagged, with nothing else changed |
| Engine.Engine.PrintRange | src/engine.rs:391-397 | the lines of the range are flagged modified, and no text changes |
| Engine.Engine.ClearMarks | src/engine.rs:410-413 | no line is marked afterwards, and nothing else changes |
| Engine.Engine.ClearMark | src/engine.rs:422-423 | the mark count drops by one |
| Engine.Engine.MarkRange | src/engine.rs:415-418 | exactly the lines of the range are marked by the selector |
| Engine.Engine.RunMarked | src/engine.rs:420-431 | the loop ends (the mark count decreases); with `d` it always succeeds and leaves exactly the unmarked lines |
| Engine.Engine.GlobalWalk | src/engine.rs:410-436 | a successful global over a resolved range leaves no line marked; with `d` it always succeeds and deletes exactly the selected lines of the range |
| Engine.Engine.GlobalRange | src/engine.rs:399-439 | range and regex errors change nothing; a success leaves no mark; `d` on a resolved range with a compiling pattern succeeds, and exactly the matching (or, inverted, non-matching) lines of the range are gone |
| Engine.Engine.ApplySubcommand | src/engine.rs:64-96 | each subcommand keeps the invariant and never adds marks; every subcommand other than a global reaches its edit with the addresses `Routed` gives: `i` at `start`, `a` after `end`, `j` on the range with a comma and on the line and the next one without, with the exact new buffer (unchanged for `>` and `<` with 0 levels) and the success condition |
| Engine.Engine.ApplyEdit | src/engine.rs:72-85 | `d`, `a`, `i`, `c`, `j`, `m` and `t` each reach their edit as `Routed` states, with the exact new buffer and success condition; the invariant is kept and no mark is added |
| Engine.Engine.ApplyLineEdit | src/engine.rs:90-94 | `s` (line 73), `>`, `<`, `sort` and `p` each reach their edit as `Routed` states, with the exact new buffer and success condition; the invariant and the mark count are kept |
| Engine.ZeroLevelsKeep | src/engine.rs:347-349 | a routed `>` or `<` with 0 levels that succeeds leaves the buffer exactly as it was |
| Engine.Engine.ApplyCommand | src/engine.rs:53-62 | an inverted range (other than from 0) is refused with nothing changed; otherwise a subcommand other than a global is routed with the second address defaulting to the first and the command's own comma flag; the invariant is kept |
| Engine.MoveAccount | src/engine.rs:286-316 | either direction of a move keeps the bookkeeping, the marks and the multiset of texts |
| Engine.SortAccount | src/engine.rs:380-386 | sorting a range keeps the bookkeeping, the marks and the multiset of texts |
| Engine.DeleteMarkedStep | src/engine.rs:420-428 | deleting a marked line does not change what the global will have left |
| Engine.ModifiedPositions | src/engine.rs:462-468 | the reported line numbers increase strictly and are exactly the positions of flagged lines |
| Engine.Ascending | src/engine.rs:470 | the deleted line numbers increase strictly and are exactly the deleted set |
| Engine.Result | src/engine.rs:452-476 | the report is well formed: one address per line, and both number lists are strictly increasing and in range |
| Engine.NothingToReport | src/engine.rs:445-477 | an untouched engine reports its input as it is, with nothing modified or deleted |
| Engine.EditText | src/engine.rs:445-477 | a failed address check is reported before any edit; success implies every address was current and the report is well formed; an empty script returns the input unchanged |
| Engine.HashesVerify | src/engine.rs:455-460 | every address in the report parses back to its line and passes the check against the new text |

## Left out

- The stdin reader `parse_commands_from_bufread` (`src/parse.rs:401-429`) is left out because it is I/O. The loop it runs over its lines is the one `Parse.ParseCommandsFromScript` models.
- The command-line programs, the Python bindings and the public wrappers in `src/lib.rs` and `crates/exhash-core/src/lib.rs` are not part of this model.
- `line_hash_u16` (SipHash-1-3 through `DefaultHasher`) is not modelled. The hash is the parameter `LineHasher`, a function from a line to a 16-bit value.
- Regular expressions are not modelled. Compilation, matching and replacement are the fields of the parameter `RegexLib`, and case-insensitive compilation is a flag passed to it.
- An error is the number of its message in `Wrappers.Messages`, and each module gives a name to each error it raises. A message keeps only its fixed text. For example, `invalid range: {start}..{end}` is `ErrInvalidRange`, and the stale-address message is `ErrStale`. The interpolated values are not modelled, so two errors that differ only in those values compare equal.
- `char::is_whitespace` is written out as the Unicode White_Space list (`Strings.IsWhitespace`).
- Strings are sequences of characters. Byte slicing on UTF-8 is modelled by character slicing. That is the same operation wherever the source slices, because it only slices after ASCII characters (`|`, spaces, tabs, delimiters). The byte length that the hash-width check measures is modelled by `Strings.Utf8Len`.
- `TextOps.SortByText`: the library's stable `sort_by` is modelled by an insertion sort on text. Stability (the order of lines with equal text, which differ only in origin and flags) is not stated.
- The `deleted` set is a Dafny `set`. `BTreeSet`'s ascending iteration is the function `Engine.Ascending`.
- `usize` arithmetic on buffer positions is not modelled as overflowing. Only the parser's bound on line numbers and counts (`USIZE_MAX`, 2^64 - 1) is modelled.
- Engine.Engine.ApplySubcommand: for a global, the contract states only the invariant and that no mark is added; what a global does is stated by `GlobalRange`. For `m`, `Routed` states the new buffer but not the `deleted` set, which `MoveRange` states.
- Engine.Engine.ApplyCommand: for a global, the contract states only the inverted-range error and the invariant; what a global does is stated by `GlobalRange`.
- Engine.Engine.GlobalWalk: the new buffer is stated exactly only for `d` as the inner subcommand. For the others, the contract states that the invariant is kept and that a success leaves no mark, but not whether the walk succeeds.
- Engine.Engine.GlobalRange: the range and regex errors are stated for every inner subcommand, ahead of the walk. As for `GlobalWalk`, the new buffer and the success of the walk are stated only for an inner `d`.
- Engine.Engine.RunMarked: for subcommands other than `d`, only the invariant is stated. The number of times the inner subcommand runs is not stated.
- Engine.EditText: the commands are applied by `ApplyCommand`, so the report is stated as well formed but not computed exactly. The first command error ends the edit, as in the source.
- Parse.ParseSubcommand: the contract states well-formedness and where the text block comes from. Which parser a first letter reaches is stated by `Parse.SubcommandDispatch`, `Parse.FirstLetter` with `Parse.LetterRoutes`, and `Parse.TextLetters`, `Parse.OperandLetters` and `Parse.GlobalLetters`. What each letter yields is stated by `ParseTextOp`, `PlainLetters`, `SubstituteLetter`, `MoveLetter`, `CopyLetter`, `LevelLetters` and `GlobalParts`. `Parse.SubcommandRoundTrip` ties the whole grammar to `Parse.FormatSubcommand`.
- Parse.ParseSubstitute: the contract states the syntax error and that a success has a pattern and leaves nothing. The pattern, the replacement, the flags and the order of the flag and empty-pattern checks are stated by `Parse.SubstituteParts`.
- Parse.CommandRoundTrip: the round trip is stated for strings mode, where the line source holds the block. In script mode the block comes from the following lines; reading it back is `Parse.TextBlockRoundTrip`.
- Parse.ParseCommandWithText: the contract states well-formedness and where the text block comes from. The addresses are stated by `Parse.AddressesParts`, the trailing-text rule by `Parse.CommandTrailing`, a success by `Parse.CommandOk`, and the whole by `Parse.CommandRoundTrip`. The error text of each zero-address rule is stated only by the body of `Parse.ZeroAddressError`.
