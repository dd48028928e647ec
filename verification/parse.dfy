/** The command parser: `addr[,addr]op` by recursive descent, with escape-aware
    delimited strings, substitute flags, and text blocks for `a`/`i`/`c` drawn
    from a line source that the parse threads through. */
module Parse {
  import opened Wrappers
  import opened Strings
  import opened Numerals
  import opened Lnhash

  datatype Subst = Subst(pattern: string, replacement: string, global: bool, caseInsensitive: bool)

  datatype Subcommand =
    | Delete
    | Substitute(subst: Subst)
    | Append(text: seq<string>)
    | Insert(text: seq<string>)
    | Change(text: seq<string>)
    | Join
    | Move(dest: LnHash)
    | Copy(dest: LnHash)
    | Global(invert: bool, pattern: string, cmd: Subcommand)
    | Indent(levels: nat)
    | Dedent(levels: nat)
    | Sort
    | Print

  datatype Command = Command(addr1: LnHash, addr2: Option<LnHash>, hasComma: bool, cmd: Subcommand)

  /** Where the text blocks of `a`/`i`/`c` come from. In script mode the block is
      read from the script's lines starting at `next`, and reading advances
      `next` past it, as the shared line iterator does; in strings mode every
      request gets the command string's own trailing lines. */
  datatype LineSource =
    | Remaining(lines: seq<string>, next: nat)
    | Preset(block: seq<string>)

  predicate ValidSource(src: LineSource) {
    src.Remaining? ==> src.next <= |src.lines|
  }

  const ErrMissingCommand := Error(7)
  const ErrTrailingChars := Error(8)
  const ErrZeroHash := Error(9)
  const ErrZeroRange := Error(10)
  const ErrZeroOnlyIA := Error(11)
  const ErrMoveZero := Error(12)
  const ErrCopyZero := Error(13)
  const ErrUnknownCommand := Error(14)
  const ErrInvalidNumber := Error(15)
  const ErrGlobalSyntax := Error(16)
  const ErrGlobalNoSub := Error(17)
  const ErrGlobalTrailing := Error(18)
  const ErrSubstSyntax := Error(19)
  const ErrUnknownFlag := Error(20)
  const ErrEmptyPattern := Error(21)
  const ErrMissingDelim := Error(22)
  const ErrUnterminated := Error(23)
  const ErrEof := Error(24)
  const ErrUnexpectedMultiline := Error(25)

  // ---------------------------------------------------------------------------
  // Delimited strings

  /** The escape-aware scan behind `parse_delimited` and `scan_to_delim`: every
      backslash is dropped and the character after it is kept literally; the
      scan stops at the first unescaped `delim`. Gives the decoded content and
      the text after the delimiter, or None when no delimiter closes it. */
  function Scan(s: string, delim: char): (r: (string, Option<string>))
    ensures r.1.Some? ==> |r.1.value| < |s| && IsSuffix(r.1.value, s)
    ensures r.1.Some? ==> s[|s| - |r.1.value| - 1] == delim
    ensures delim !in s ==> r.1.None?
    ensures |r.0| <= |s|
    decreases |s|
  {
    if s == [] then ([], None)
    else if s[0] == '\\' then
      if |s| == 1 then ([], None)
      else
        var (content, rest) := Scan(s[2..], delim);
        ([s[1]] + content, rest)
    else if s[0] == delim then ([], Some(s[1..]))
    else
      var (content, rest) := Scan(s[1..], delim);
      ([s[0]] + content, rest)
  }

  /** What the scan still produces after a pending backslash. */
  function ScanEscaped(s: string, delim: char): (string, Option<string>)
  {
    if s == [] then ([], None)
    else
      var (content, rest) := Scan(s[1..], delim);
      ([s[0]] + content, rest)
  }

  function PrependContent(out: string, r: (string, Option<string>)): (string, Option<string>) {
    (out + r.0, r.1)
  }

  /** One character of the scan, from either state. */
  lemma ScanStep(s: string, delim: char, out: string)
    requires s != []
    ensures PrependContent(out, ScanEscaped(s, delim)) == PrependContent(out + [s[0]], Scan(s[1..], delim))
    ensures s[0] == '\\' ==> PrependContent(out, Scan(s, delim)) == PrependContent(out, ScanEscaped(s[1..], delim))
    ensures s[0] != '\\' && s[0] == delim ==> PrependContent(out, Scan(s, delim)) == (out, Some(s[1..]))
    ensures s[0] != '\\' && s[0] != delim ==>
      PrependContent(out, Scan(s, delim)) == PrependContent(out + [s[0]], Scan(s[1..], delim))
  {
    assert out + ([s[0]] + Scan(s[1..], delim).0) == out + [s[0]] + Scan(s[1..], delim).0;
    assert out + [] == out;
    if s[0] == '\\' && |s| >= 2 {
      assert s[2..] == s[1..][1..];
    }
  }

  /** `parse_delimited`: a leading delimiter, then the scan; no closing
      delimiter is an error. */
  function Delimited(input: string, delim: char): (r: Result<(string, string)>)
    ensures r.Ok? ==> |r.value.1| < |input| && IsSuffix(r.value.1, input)
    ensures r.Ok? ==> input[|input| - |r.value.1| - 1] == delim
    ensures input == [] || input[0] != delim ==> r == Err(ErrMissingDelim)
    ensures input != [] && input[0] == delim && Scan(input[1..], delim).1.None? ==> r == Err(ErrUnterminated)
  {
    if input == [] || input[0] != delim then Err(ErrMissingDelim)
    else match Scan(input[1..], delim)
      case (_, None) => Err(ErrUnterminated)
      case (content, Some(rest)) => Ok((content, rest))
  }

  /** `scan_to_delim`: the scan without a leading delimiter; never fails, and
      without a closing delimiter everything is content and nothing is left. */
  function ToDelim(input: string, delim: char): (r: Result<(string, string)>)
    ensures r.Ok?
    ensures |r.value.1| <= |input| && IsSuffix(r.value.1, input)
    ensures Scan(input, delim).1.None? ==> r.value.1 == []
    ensures Scan(input, delim).1.Some? ==> |r.value.1| < |input| && input[|input| - |r.value.1| - 1] == delim
  {
    match Scan(input, delim)
    case (content, None) => Ok((content, []))
    case (content, Some(rest)) => Ok((content, rest))
  }

  /** The write side of the delimited syntax: a backslash before every
      backslash and every delimiter, and nothing else changed. */
  function Escape(c: string, delim: char): (r: string)
    ensures |r| >= |c|
    ensures '\\' !in c && delim !in c ==> r == c
  {
    if c == [] then []
    else (if c[0] == '\\' || c[0] == delim then ['\\', c[0]] else [c[0]]) + Escape(c[1..], delim)
  }

  /** The scan decodes an escaped text back to the text, and then goes on
      with whatever follows it. */
  lemma {:induction false} ScanEscape(c: string, delim: char, tail: string)
    ensures Scan(Escape(c, delim) + tail, delim) == (c + Scan(tail, delim).0, Scan(tail, delim).1)
    decreases |c|
  {
    if c == [] {
      assert Escape(c, delim) + tail == tail;
      assert c + Scan(tail, delim).0 == Scan(tail, delim).0;
    } else {
      var e := Escape(c[1..], delim);
      var u := Scan(tail, delim);
      ScanEscape(c[1..], delim, tail);
      if c[0] == '\\' || c[0] == delim {
        assert Escape(c, delim) + tail == ['\\', c[0]] + (e + tail);
        ScanEscapedPair(c[0], e + tail, delim);
      } else {
        assert Escape(c, delim) + tail == [c[0]] + (e + tail);
        ScanPlainChar(c[0], e + tail, delim);
      }
      ConsAppend(c, u.0);
    }
  }

  lemma ConsAppend(c: string, v: string)
    requires c != []
    ensures [c[0]] + (c[1..] + v) == c + v
  {
    assert [c[0]] + c[1..] == c;
  }

  /** An escaped character is taken literally, whatever it is. */
  lemma ScanEscapedPair(h: char, u: string, delim: char)
    ensures Scan(['\\', h] + u, delim) == ([h] + Scan(u, delim).0, Scan(u, delim).1)
  {
    var t := ['\\', h] + u;
    assert t[2..] == u;
  }

  /** Any character other than a backslash or the delimiter is content. */
  lemma ScanPlainChar(h: char, u: string, delim: char)
    requires h != '\\' && h != delim
    ensures Scan([h] + u, delim) == ([h] + Scan(u, delim).0, Scan(u, delim).1)
  {
    var t := [h] + u;
    assert t[1..] == u;
  }

  /** `parse_delimited` reads any text back from its escaped, delimited form
      and returns exactly what follows the closing delimiter. */
  lemma DelimitedRoundTrip(c: string, delim: char, rest: string)
    requires delim != '\\'
    ensures Delimited([delim] + Escape(c, delim) + [delim] + rest, delim) == Ok((c, rest))
  {
    var e := Escape(c, delim);
    var tail := [delim] + rest;
    var body := e + tail;
    assert [delim] + e + [delim] + rest == [delim] + body;
    ScanEscape(c, delim, tail);
    ScanAtDelim(delim, rest);
    assert c + [] == c;
    DelimitedScan(delim, body);
  }

  /** A scan that starts at the delimiter stops there with nothing decoded. */
  lemma ScanAtDelim(delim: char, rest: string)
    requires delim != '\\'
    ensures Scan([delim] + rest, delim) == ([], Some(rest))
  {
    assert ([delim] + rest)[1..] == rest;
  }

  /** Behind an opening delimiter, `Delimited` is the scan of what follows. */
  lemma DelimitedScan(delim: char, body: string)
    requires Scan(body, delim).1.Some?
    ensures Delimited([delim] + body, delim) == Ok((Scan(body, delim).0, Scan(body, delim).1.value))
  {
    assert ([delim] + body)[1..] == body;
  }

  /** `scan_to_delim` reads any escaped text back, with the rest after a
      closing delimiter, or with nothing left when the delimiter is absent. */
  lemma ToDelimRoundTrip(c: string, delim: char, rest: string)
    requires delim != '\\'
    ensures ToDelim(Escape(c, delim) + [delim] + rest, delim) == Ok((c, rest))
    ensures ToDelim(Escape(c, delim), delim) == Ok((c, []))
  {
    var tail := [delim] + rest;
    assert Escape(c, delim) + [delim] + rest == Escape(c, delim) + tail;
    ScanEscape(c, delim, tail);
    assert tail[1..] == rest;
    ScanEscape(c, delim, []);
    assert Escape(c, delim) + [] == Escape(c, delim);
    assert c + [] == c;
  }

  /** `parse_delimited` as exhash writes it: one pass that keeps the decoded
      text, an `escaped` flag and the number of characters consumed. */
  method ParseDelimited(input: string, delim: char) returns (r: Result<(string, string)>)
    ensures r == Delimited(input, delim)
  {
    if input == [] || input[0] != delim {
      return Err(ErrMissingDelim);
    }
    var out := [];
    var escaped := false;
    var consumed := 1;
    assert [] + Scan(input[1..], delim).0 == Scan(input[1..], delim).0;
    while consumed < |input|
      invariant 1 <= consumed <= |input|
      invariant Scan(input[1..], delim) ==
        PrependContent(out, if escaped then ScanEscaped(input[consumed..], delim) else Scan(input[consumed..], delim))
      decreases |input| - consumed
    {
      var ch := input[consumed];
      ghost var suffix := input[consumed..];
      assert suffix[0] == ch && suffix[1..] == input[consumed + 1..];
      ScanStep(suffix, delim, out);
      consumed := consumed + 1;
      if escaped {
        out := out + [ch];
        escaped := false;
        continue;
      }
      if ch == '\\' {
        escaped := true;
        continue;
      }
      if ch == delim {
        return Ok((out, input[consumed..]));
      }
      out := out + [ch];
    }
    assert input[consumed..] == [];
    return Err(ErrUnterminated);
  }

  /** `scan_to_delim` as exhash writes it. */
  method ScanToDelim(input: string, delim: char) returns (r: Result<(string, string)>)
    ensures r == ToDelim(input, delim)
  {
    var out := [];
    var escaped := false;
    var consumed := 0;
    assert [] + Scan(input, delim).0 == Scan(input, delim).0;
    assert input[0..] == input;
    while consumed < |input|
      invariant 0 <= consumed <= |input|
      invariant Scan(input, delim) ==
        PrependContent(out, if escaped then ScanEscaped(input[consumed..], delim) else Scan(input[consumed..], delim))
      decreases |input| - consumed
    {
      var ch := input[consumed];
      ghost var suffix := input[consumed..];
      assert suffix[0] == ch && suffix[1..] == input[consumed + 1..];
      ScanStep(suffix, delim, out);
      consumed := consumed + 1;
      if escaped {
        out := out + [ch];
        escaped := false;
        continue;
      }
      if ch == '\\' {
        escaped := true;
        continue;
      }
      if ch == delim {
        return Ok((out, input[consumed..]));
      }
      out := out + [ch];
    }
    assert input[consumed..] == [];
    assert out + [] == out;
    return Ok((out, []));
  }

  // ---------------------------------------------------------------------------
  // Text blocks

  /** A text-block line as read: `..` stands for a literal `.`. */
  function BlockLine(line: string): string {
    if line == ".." then "." else line
  }

  /** `read_text_block_from_iter`: lines up to the first `.` line (each with one
      trailing `\r` removed), the terminator discarded; reaching the end first is
      an error. Gives the block and the number of source lines consumed. */
  function TextBlock(lines: seq<string>): (r: Result<(seq<string>, nat)>)
    ensures r.Ok? ==> r.value.1 == |r.value.0| + 1 <= |lines|
    ensures r.Err? ==> r.msg == ErrEof
    decreases |lines|
  {
    if lines == [] then Err(ErrEof)
    else
      var line := StripCr(lines[0]);
      if line == "." then Ok(([], 1))
      else match TextBlock(lines[1..])
        case Err(e) => Err(e)
        case Ok((block, n)) => Ok(([BlockLine(line)] + block, n + 1))
  }

  /** The block is every line before the first `.` line, unescaped, and the
      read fails exactly when there is no `.` line. */
  lemma {:induction false} TextBlockSpec(lines: seq<string>)
    ensures var r := TextBlock(lines);
      && (r.Ok? ==> StripCr(lines[r.value.1 - 1]) == ".")
      && (r.Ok? ==> forall k :: 0 <= k < |r.value.0| ==>
           StripCr(lines[k]) != "." && r.value.0[k] == BlockLine(StripCr(lines[k])))
      && (r.Err? <==> forall k :: 0 <= k < |lines| ==> StripCr(lines[k]) != ".")
    decreases |lines|
  {
    if lines != [] && StripCr(lines[0]) != "." {
      TextBlockSpec(lines[1..]);
      var tail := lines[1..];
      assert forall k :: 1 <= k < |lines| ==> lines[k] == tail[k - 1];
    }
  }

  /** `read_text_block_from_iter` as exhash writes it: a loop that pulls one
      line at a time and pushes onto the block. */
  method ReadTextBlockFromIter(lines: seq<string>) returns (r: Result<(seq<string>, nat)>)
    ensures r == TextBlock(lines)
  {
    var out := [];
    var next := 0;
    assert lines[0..] == lines;
    PrependBlockEmpty(TextBlock(lines));
    while true
      invariant 0 <= next <= |lines|
      invariant TextBlock(lines) == PrependBlock(out, next, TextBlock(lines[next..]))
      decreases |lines| - next
    {
      if next == |lines| {
        assert lines[next..] == [];
        return Err(ErrEof);
      }
      var line := StripCr(lines[next]);
      TextBlockStep(lines, out, next);
      next := next + 1;
      if line == "." {
        return Ok((out, next));
      }
      out := out + [BlockLine(line)];
    }
  }

  function PrependBlock(out: seq<string>, read: nat, r: Result<(seq<string>, nat)>): Result<(seq<string>, nat)> {
    match r
    case Err(e) => Err(e)
    case Ok((block, n)) => Ok((out + block, n + read))
  }

  /** One line of the block loop. */
  lemma TextBlockStep(lines: seq<string>, out: seq<string>, next: nat)
    requires next < |lines|
    ensures StripCr(lines[next]) == "." ==> PrependBlock(out, next, TextBlock(lines[next..])) == Ok((out, next + 1))
    ensures StripCr(lines[next]) != "." ==>
      PrependBlock(out, next, TextBlock(lines[next..])) ==
      PrependBlock(out + [BlockLine(StripCr(lines[next]))], next + 1, TextBlock(lines[next + 1..]))
  {
    assert lines[next..][0] == lines[next];
    assert lines[next..][1..] == lines[next + 1..];
    assert out + [] == out;
    var x := [BlockLine(StripCr(lines[next]))];
    match TextBlock(lines[next + 1..])
    case Err(_) =>
    case Ok((block, n)) =>
      assert out + (x + block) == out + x + block;
  }

  lemma PrependBlockEmpty(r: Result<(seq<string>, nat)>)
    ensures PrependBlock([], 0, r) == r
  {
    if r.Ok? {
      assert [] + r.value.0 == r.value.0;
    }
  }

  /** The write side of the text-block protocol: a lone `.` is written `..`. */
  function DotEscape(line: string): string {
    if line == "." then ".." else line
  }

  function DotEscapeAll(block: seq<string>): (r: seq<string>)
    ensures |r| == |block| && forall k :: 0 <= k < |r| ==> r[k] == DotEscape(block[k])
  {
    if block == [] then [] else [DotEscape(block[0])] + DotEscapeAll(block[1..])
  }

  /** A line a text block can carry: `..` always reads back as `.`, and a trailing
      `\r` is stripped on reading. */
  predicate BlockLineCarriable(line: string) {
    line != ".." && StripCr(line) == line
  }

  /** A block written with `.`-escaping and a terminator reads back exactly,
      consuming one line more than the block. */
  lemma {:induction false} TextBlockRoundTrip(block: seq<string>, rest: seq<string>)
    requires forall k :: 0 <= k < |block| ==> BlockLineCarriable(block[k])
    ensures TextBlock(DotEscapeAll(block) + ["."] + rest) == Ok((block, |block| + 1))
    decreases |block|
  {
    var lines := DotEscapeAll(block) + ["."] + rest;
    if block != [] {
      var b := block[0];
      assert BlockLineCarriable(b);
      assert lines[0] == DotEscape(b);
      assert StripCr(DotEscape(b)) == DotEscape(b);
      assert lines[1..] == DotEscapeAll(block[1..]) + ["."] + rest;
      TextBlockRoundTrip(block[1..], rest);
      assert [b] + block[1..] == block;
    }
  }

  /** `read_text`: one block from the line source, and the line source afterwards. */
  function ReadText(src: LineSource): (r: Result<(seq<string>, LineSource)>)
    requires ValidSource(src)
    ensures r.Ok? ==> Follows(r.value.1, src)
    ensures r.Ok? && src.Remaining? ==> r.value.1.next > src.next
    ensures src.Preset? ==> r == Ok((src.block, src))
    ensures r.Err? ==> src.Remaining? && r == Err(ErrEof)
  {
    match src
    case Preset(block) => Ok((block, src))
    case Remaining(lines, next) =>
      var (block, n) :- TextBlock(lines[next..]);
      Ok((block, Remaining(lines, next + n)))
  }

  /** `after` is what a parse can leave of `before`: the same lines read up to
      the same point or further, or the same preset block. */
  predicate Follows(after: LineSource, before: LineSource) {
    match before
    case Remaining(lines, next) => after.Remaining? && after.lines == lines && next <= after.next <= |lines|
    case Preset(_) => after == before
  }

  // ---------------------------------------------------------------------------
  // Operands

  /** `parse_optional_usize`: nothing (after trimming) means 1. */
  function ParseOptionalUsize(s: string): (r: Result<nat>)
    ensures Trim(s) == [] ==> r == Ok(1)
    ensures r.Ok? ==> r.value <= USIZE_MAX
    ensures Trim(s) != [] ==> (r.Ok? <==> ParseUnsigned(Trim(s), 10, USIZE_MAX).Some?)
  {
    var t := Trim(s);
    if t == [] then Ok(1)
    else match ParseUnsigned(t, 10, USIZE_MAX)
      case None => Err(ErrInvalidNumber)
      case Some(n) => Ok(n)
  }

  /** The flag loop of `parse_substitute`: `g` and `i` may repeat; any other
      character is an error. */
  function SubstFlags(flags: string, global: bool, caseInsensitive: bool): (r: Result<(bool, bool)>)
    ensures r.Ok? <==> forall k :: 0 <= k < |flags| ==> flags[k] == 'g' || flags[k] == 'i'
    ensures r.Ok? ==> r.value == (global || 'g' in flags, caseInsensitive || 'i' in flags)
    ensures r.Err? ==> r.msg == ErrUnknownFlag
    decreases |flags|
  {
    if flags == [] then Ok((global, caseInsensitive))
    else if flags[0] == 'g' then SubstFlags(flags[1..], true, caseInsensitive)
    else if flags[0] == 'i' then SubstFlags(flags[1..], global, true)
    else Err(ErrUnknownFlag)
  }

  /** The flag loop as exhash writes it. */
  method ParseSubstFlags(flags: string) returns (r: Result<(bool, bool)>)
    ensures r == SubstFlags(flags, false, false)
  {
    var global := false;
    var caseInsensitive := false;
    for k := 0 to |flags|
      invariant SubstFlags(flags, false, false) == SubstFlags(flags[k..], global, caseInsensitive)
    {
      assert flags[k..][1..] == flags[k + 1..];
      if flags[k] == 'g' {
        global := true;
      } else if flags[k] == 'i' {
        caseInsensitive := true;
      } else {
        return Err(ErrUnknownFlag);
      }
    }
    return Ok((global, caseInsensitive));
  }

  /** `parse_substitute`: `/pat/rep/[flags]`; the closing `/` is optional; flags
      are checked before the pattern is required to be non-empty. */
  function ParseSubstitute(rest: string): (r: Result<(Subst, string)>)
    ensures r.Ok? ==> r.value.0.pattern != [] && r.value.1 == []
    ensures !StartsWith(TrimStart(rest), "/") ==> r == Err(ErrSubstSyntax)
  {
    var t := TrimStart(rest);
    if !StartsWith(t, "/") then Err(ErrSubstSyntax)
    else
      var (pat, afterPat) :- Delimited(t, '/');
      var (rep, afterRep) := ToDelim(afterPat, '/').value;
      var (global, caseInsensitive) :- SubstFlags(Trim(afterRep), false, false);
      if pat == [] then Err(ErrEmptyPattern)
      else Ok((Subst(pat, rep, global, caseInsensitive), []))
  }

  /** What `parse_substitute` returns once the leading `/` is there: an
      unclosed pattern is the unterminated error; otherwise the pattern is the
      delimited text, the replacement runs to the next unescaped `/` or to the
      end, and the trimmed remainder is the flags, which are checked before the
      pattern is required to be non-empty. */
  lemma SubstituteParts(rest: string)
    requires StartsWith(TrimStart(rest), "/")
    ensures Delimited(TrimStart(rest), '/').Err? ==> ParseSubstitute(rest) == Err(ErrUnterminated)
    ensures Delimited(TrimStart(rest), '/').Ok? ==>
      var (pat, afterPat) := Delimited(TrimStart(rest), '/').value;
      var (rep, afterRep) := ToDelim(afterPat, '/').value;
      var flags := Trim(afterRep);
      ParseSubstitute(rest) ==
        if SubstFlags(flags, false, false).Err? then Err(ErrUnknownFlag)
        else if pat == [] then Err(ErrEmptyPattern)
        else Ok((Subst(pat, rep, 'g' in flags, 'i' in flags), []))
  {
    var t := TrimStart(rest);
    if Delimited(t, '/').Ok? {
      var (pat, afterPat) := Delimited(t, '/').value;
      var (rep, afterRep) := ToDelim(afterPat, '/').value;
      var flags := Trim(afterRep);
      var f := SubstFlags(flags, false, false);
      if f.Ok? {
        assert f.value == ('g' in flags, 'i' in flags);
      }
    }
  }

  /** The flags written after the replacement. */
  function FlagsText(global: bool, caseInsensitive: bool): (r: string)
    ensures forall k :: 0 <= k < |r| ==> r[k] == 'g' || r[k] == 'i'
    ensures ('g' in r <==> global) && ('i' in r <==> caseInsensitive)
    ensures Trim(r) == r
  {
    var r := (if global then "g" else "") + (if caseInsensitive then "i" else "");
    TrimNoop(r);
    r
  }

  /** The write side of `s`: `/pat/rep/flags` with `/` and `\\` escaped. */
  function FormatSubst(x: Subst): (r: string)
    ensures r != [] && r[0] == '/' && !IsWhitespace(r[0]) && !IsWhitespace(r[|r| - 1])
  {
    "/" + Escape(x.pattern, '/') + "/" + (Escape(x.replacement, '/') + "/" + FlagsText(x.global, x.caseInsensitive))
  }

  /** Every substitution with a pattern reads back from its written form. */
  lemma SubstituteRoundTrip(x: Subst)
    requires x.pattern != []
    ensures ParseSubstitute(FormatSubst(x)) == Ok((x, []))
  {
    var flags := FlagsText(x.global, x.caseInsensitive);
    var afterPat := Escape(x.replacement, '/') + "/" + flags;
    var f := FormatSubst(x);
    FormatSubstShape(x);
    DelimitedRoundTrip(x.pattern, '/', afterPat);
    ToDelimRoundTrip(x.replacement, '/', flags);
    FlagsTextReads(x.global, x.caseInsensitive);
    SubstituteOk(f, x.pattern, afterPat, x.replacement, flags);
  }

  /** The written substitution is already trimmed and opens with its pattern. */
  lemma FormatSubstShape(x: Subst)
    ensures var f := FormatSubst(x);
      && TrimStart(f) == f && StartsWith(f, "/")
      && f == ['/'] + Escape(x.pattern, '/') + ['/'] + (Escape(x.replacement, '/') + "/" + FlagsText(x.global, x.caseInsensitive))
  {
    var f := FormatSubst(x);
    TrimNoop(f);
    assert f[..1] == "/";
  }

  /** The written flags read back as the two switches. */
  lemma FlagsTextReads(global: bool, caseInsensitive: bool)
    ensures var flags := Trim(FlagsText(global, caseInsensitive));
      && SubstFlags(flags, false, false).Ok?
      && ('g' in flags <==> global) && ('i' in flags <==> caseInsensitive)
  {
  }

  /** The success case of `SubstituteParts`, given the pieces. */
  lemma SubstituteOk(rest: string, pat: string, afterPat: string, rep: string, afterRep: string)
    requires StartsWith(TrimStart(rest), "/") && pat != []
    requires Delimited(TrimStart(rest), '/') == Ok((pat, afterPat))
    requires ToDelim(afterPat, '/') == Ok((rep, afterRep))
    requires SubstFlags(Trim(afterRep), false, false).Ok?
    ensures ParseSubstitute(rest) == Ok((Subst(pat, rep, 'g' in Trim(afterRep), 'i' in Trim(afterRep)), []))
  {
    SubstituteParts(rest);
  }

  // ---------------------------------------------------------------------------
  // Subcommands

  /** What the parser guarantees of every subcommand it returns. */
  predicate SubWellFormed(sub: Subcommand) {
    match sub
    case Substitute(s) => s.pattern != []
    case Move(dest) => 1 <= dest.lineno <= USIZE_MAX
    case Copy(dest) => 1 <= dest.lineno <= USIZE_MAX
    case Indent(levels) => levels <= USIZE_MAX
    case Dedent(levels) => levels <= USIZE_MAX
    case Global(_, _, inner) => SubWellFormed(inner)
    case _ => true
  }

  /** The subcommand reads a text block, directly or through globals. */
  predicate HasBlock(sub: Subcommand) {
    match sub
    case Append(_) => true
    case Insert(_) => true
    case Change(_) => true
    case Global(_, _, inner) => HasBlock(inner)
    case _ => false
  }

  function BlockOf(sub: Subcommand): seq<string>
    requires HasBlock(sub)
  {
    match sub
    case Append(text) => text
    case Insert(text) => text
    case Change(text) => text
    case Global(_, _, inner) => BlockOf(inner)
  }

  lemma GlobalBlock(invert: bool, pattern: string, sub: Subcommand)
    ensures HasBlock(Global(invert, pattern, sub)) == HasBlock(sub)
    ensures HasBlock(sub) ==> BlockOf(Global(invert, pattern, sub)) == BlockOf(sub)
  {
  }

  predicate IsTextOp(sub: Subcommand) {
    sub.Append? || sub.Insert? || sub.Change?
  }

  /** `parse_subcommand_with_text`: `sort` is tried before `s` and `g!` before
      `g`; the text after a one-letter command is returned for the caller to
      check. */
  function ParseSubcommand(input: string, src: LineSource): (r: Result<(Subcommand, string, LineSource)>)
    requires ValidSource(src)
    ensures r.Ok? ==> Follows(r.value.2, src) && SubWellFormed(r.value.0)
    ensures r.Ok? && src.Preset? && HasBlock(r.value.0) ==> BlockOf(r.value.0) == src.block
    ensures r.Ok? && !HasBlock(r.value.0) ==> r.value.2 == src
    decreases |input|, 2
  {
    var s := TrimStart(input);
    if StartsWith(s, "sort") then Ok((Sort, s[4..], src))
    else if StartsWith(s, "g!") then ParseGlobal(s[2..], true, src)
    else if s == [] then Err(ErrMissingCommand)
    else ParseLetter(s[0], s[1..], src)
  }

  /** The `match` of `parse_subcommand_with_text` on the first character `c`,
      with `rest` the text after it. */
  function ParseLetter(c: char, rest: string, src: LineSource): (r: Result<(Subcommand, string, LineSource)>)
    requires ValidSource(src)
    ensures r.Ok? ==> Follows(r.value.2, src) && SubWellFormed(r.value.0)
    ensures r.Ok? && src.Preset? && HasBlock(r.value.0) ==> BlockOf(r.value.0) == src.block
    ensures r.Ok? && !HasBlock(r.value.0) ==> r.value.2 == src
    decreases |rest| + 1, 1
  {
    if c == 'g' then ParseGlobal(rest, false, src)
    else if c == 'v' then ParseGlobal(rest, true, src)
    else if IsTextLetter(c) then ParseTextOp(c, rest, src)
    else ParseOperandOp(c, rest, src)
  }

  /** The letters that start a subcommand: `g` and `v`, the text letters and
      the operand letters (`sort` starts with `s`). */
  predicate IsCommandLetter(c: char) {
    c == 'g' || c == 'v' || IsTextLetter(c) || IsOperandLetter(c)
  }

  /** The letters of the commands that take a text block. */
  predicate IsTextLetter(c: char) {
    c == 'a' || c == 'i' || c == 'c'
  }

  /** `a`, `i` and `c`: the block comes from the line source. */
  function ParseTextOp(c: char, rest: string, src: LineSource): (r: Result<(Subcommand, string, LineSource)>)
    requires IsTextLetter(c)
    requires ValidSource(src)
    ensures r.Ok? ==> Follows(r.value.2, src) && IsTextOp(r.value.0) && r.value.1 == rest
    ensures r.Ok? && src.Preset? ==> r.value.0.text == src.block
    ensures r.Ok? <==> ReadText(src).Ok?
    ensures r.Err? ==> r == Err(ErrEof)
    ensures r.Ok? ==> r.value.2 == ReadText(src).value.1
    ensures r.Ok? && c == 'a' ==> r.value.0 == Append(ReadText(src).value.0)
    ensures r.Ok? && c == 'i' ==> r.value.0 == Insert(ReadText(src).value.0)
    ensures r.Ok? && c == 'c' ==> r.value.0 == Change(ReadText(src).value.0)
  {
    var (text, src') :- ReadText(src);
    var sub := if c == 'a' then Append(text) else if c == 'i' then Insert(text) else Change(text);
    Ok((sub, rest, src'))
  }

  /** The letters `parse_subcommand_with_text` hands to the operand parser. */
  predicate IsOperandLetter(c: char) {
    c == 'd' || c == 'p' || c == 'j' || c == 's' || c == 'm' || c == 't' || c == '>' || c == '<'
  }

  /** The subcommands that take no text block: `d`, `p`, `j`, `s`, `m`, `t`, `>`
      and `<`; any other letter is unknown. */

  function ParseOperandOp(c: char, rest: string, src: LineSource): (r: Result<(Subcommand, string, LineSource)>)
    ensures r.Ok? ==> r.value.2 == src && SubWellFormed(r.value.0) && !HasBlock(r.value.0)
    ensures !IsOperandLetter(c) ==> r == Err(ErrUnknownCommand)
    ensures c == 'd' || c == 'p' || c == 'j' ==> r.Ok? && r.value.1 == rest
  {
    if c == 'd' then Ok((Delete, rest, src))
    else if c == 'p' then Ok((Print, rest, src))
    else if c == 'j' then Ok((Join, rest, src))
    else if c == 's' then SubstituteOp(rest, src)
    else if c == 'm' || c == 't' then DestinationOp(c == 'm', rest, src)
    else if c == '>' || c == '<' then LevelOp(c == '>', rest, src)
    else Err(ErrUnknownCommand)
  }

  /** `s`: the substitution and the text after it. */
  function SubstituteOp(rest: string, src: LineSource): (r: Result<(Subcommand, string, LineSource)>)
    ensures r.Ok? ==> r.value.2 == src && r.value.0.Substitute? && r.value.0.subst.pattern != [] && r.value.1 == []
  {
    var (subst, trailing) :- ParseSubstitute(rest);
    Ok((Substitute(subst), trailing, src))
  }

  /** `m` (when `move`) and `t`: one address, never line 0. */
  function DestinationOp(move: bool, rest: string, src: LineSource): (r: Result<(Subcommand, string, LineSource)>)
    ensures r.Ok? ==> r.value.2 == src && r.value.1 == []
    ensures r.Ok? ==> (if move then r.value.0.Move? else r.value.0.Copy?) && 1 <= r.value.0.dest.lineno <= USIZE_MAX
  {
    var dest :- ParseLnHash(Trim(rest));
    if dest.lineno == 0 then Err(if move then ErrMoveZero else ErrCopyZero)
    else Ok((if move then Move(dest) else Copy(dest), [], src))
  }

  /** `>` (when `indent`) and `<`: an optional level count. */
  function LevelOp(indent: bool, rest: string, src: LineSource): (r: Result<(Subcommand, string, LineSource)>)
    ensures r.Ok? ==> r.value.2 == src && r.value.1 == []
    ensures r.Ok? ==> (if indent then r.value.0.Indent? else r.value.0.Dedent?) && r.value.0.levels <= USIZE_MAX
  {
    var levels :- ParseOptionalUsize(rest);
    Ok((if indent then Indent(levels) else Dedent(levels), [], src))
  }

  /** `d`, `p` and `j` take no operand and hand back the rest of the line. */
  lemma PlainLetters(rest: string, src: LineSource)
    ensures ParseOperandOp('d', rest, src) == Ok((Delete, rest, src))
    ensures ParseOperandOp('p', rest, src) == Ok((Print, rest, src))
    ensures ParseOperandOp('j', rest, src) == Ok((Join, rest, src))
  {
  }

  /** `s` is the substitution `parse_substitute` reads, or its error. */
  lemma SubstituteLetter(rest: string, src: LineSource)
    ensures ParseSubstitute(rest).Err? ==> ParseOperandOp('s', rest, src) == Err(ParseSubstitute(rest).msg)
    ensures ParseSubstitute(rest).Ok? ==>
      ParseOperandOp('s', rest, src) == Ok((Substitute(ParseSubstitute(rest).value.0), [], src))
  {
    var p := ParseSubstitute(rest);
    if p.Ok? {
      var (subst, trailing) := p.value;
      assert trailing == [];
      assert ParseOperandOp('s', rest, src) == Ok((Substitute(subst), trailing, src));
    }
  }

  /** The destination of `m` and `t`: the whole trimmed rest read as one
      address, with the zero sentinel refused. */
  lemma DestinationShape(move: bool, rest: string, src: LineSource)
    ensures var d := ParseLnHash(Trim(rest));
      DestinationOp(move, rest, src) ==
        if d.Err? then Err(d.msg)
        else if d.value.lineno == 0 then Err(if move then ErrMoveZero else ErrCopyZero)
        else Ok((if move then Move(d.value) else Copy(d.value), [], src))
  {
  }

  /** `m` reads the whole trimmed rest as one address; the zero sentinel is
      refused as a destination. */
  lemma MoveLetter(rest: string, src: LineSource)
    ensures ParseLnHash(Trim(rest)).Err? ==> ParseOperandOp('m', rest, src) == Err(ParseLnHash(Trim(rest)).msg)
    ensures ParseLnHash(Trim(rest)).Ok? ==>
      ParseOperandOp('m', rest, src) ==
        if ParseLnHash(Trim(rest)).value.lineno == 0 then Err(ErrMoveZero)
        else Ok((Move(ParseLnHash(Trim(rest)).value), [], src))
  {
    assert ParseOperandOp('m', rest, src) == DestinationOp(true, rest, src);
    DestinationShape(true, rest, src);
  }

  /** `t` reads its destination as `m` does. */
  lemma CopyLetter(rest: string, src: LineSource)
    ensures ParseLnHash(Trim(rest)).Err? ==> ParseOperandOp('t', rest, src) == Err(ParseLnHash(Trim(rest)).msg)
    ensures ParseLnHash(Trim(rest)).Ok? ==>
      ParseOperandOp('t', rest, src) ==
        if ParseLnHash(Trim(rest)).value.lineno == 0 then Err(ErrCopyZero)
        else Ok((Copy(ParseLnHash(Trim(rest)).value), [], src))
  {
    assert ParseOperandOp('t', rest, src) == DestinationOp(false, rest, src);
    DestinationShape(false, rest, src);
  }

  /** `>` and `<` take an optional level count, 1 when absent. */
  lemma LevelLetters(rest: string, src: LineSource)
    ensures ParseOptionalUsize(rest).Err? ==>
      && ParseOperandOp('>', rest, src) == Err(ParseOptionalUsize(rest).msg)
      && ParseOperandOp('<', rest, src) == Err(ParseOptionalUsize(rest).msg)
    ensures ParseOptionalUsize(rest).Ok? ==>
      && ParseOperandOp('>', rest, src) == Ok((Indent(ParseOptionalUsize(rest).value), [], src))
      && ParseOperandOp('<', rest, src) == Ok((Dedent(ParseOptionalUsize(rest).value), [], src))
  {
    var n := ParseOptionalUsize(rest);
    assert ParseOperandOp('>', rest, src) == if n.Err? then Err(n.msg) else Ok((Indent(n.value), [], src));
    assert ParseOperandOp('<', rest, src) == if n.Err? then Err(n.msg) else Ok((Dedent(n.value), [], src));
  }

  /** `parse_global`: `/pat/` then a subcommand parsed by the same grammar, with
      nothing after it. */
  function ParseGlobal(rest: string, invert: bool, src: LineSource): (r: Result<(Subcommand, string, LineSource)>)
    requires ValidSource(src)
    ensures r.Ok? ==> Follows(r.value.2, src) && SubWellFormed(r.value.0)
    ensures r.Ok? ==> r.value.0.Global? && r.value.0.invert == invert && r.value.1 == []
    ensures r.Ok? && src.Preset? && HasBlock(r.value.0) ==> BlockOf(r.value.0) == src.block
    ensures r.Ok? && !HasBlock(r.value.0) ==> r.value.2 == src
    ensures !StartsWith(TrimStart(rest), "/") ==> r == Err(ErrGlobalSyntax)
    decreases |rest|, 0
  {
    var t := TrimStart(rest);
    if !StartsWith(t, "/") then Err(ErrGlobalSyntax)
    else
      var (pat, afterPat) :- Delimited(t, '/');
      var cmdStr := TrimStart(afterPat);
      if cmdStr == [] then Err(ErrGlobalNoSub)
      else
        var (sub, trailing, src') :- ParseSubcommand(cmdStr, src);
        if Trim(trailing) != [] then Err(ErrGlobalTrailing)
        else GlobalBlock(invert, pat, sub); Ok((Global(invert, pat, sub), [], src'))
  }

  // ---------------------------------------------------------------------------
  // Commands

  /** The zero-address rules and the other guarantees of a parsed command. */
  predicate CommandWellFormed(c: Command) {
    && (c.hasComma <==> c.addr2.Some?)
    && c.addr1.lineno <= USIZE_MAX
    && (c.addr2.Some? ==> 1 <= c.addr2.value.lineno <= USIZE_MAX)
    && (c.addr1.lineno == 0 ==> c.addr1.hash == 0 && c.addr2.None? && (c.cmd.Append? || c.cmd.Insert?))
    && SubWellFormed(c.cmd)
  }

  /** The address part of a command line: one address, or two joined by `,`. */
  function ParseAddresses(l: string): (r: Result<(LnHash, Option<LnHash>, string)>)
    ensures r.Ok? ==> r.value.0.lineno <= USIZE_MAX
    ensures r.Ok? && r.value.1.Some? ==> r.value.1.value.lineno <= USIZE_MAX
    ensures r.Ok? ==> |r.value.2| < |l|
  {
    var (addr1, afterAddr1) :- ParseLnHashPrefix(l);
    if StartsWith(afterAddr1, ",") then
      var (addr2, afterAddr2) :- ParseLnHashPrefix(afterAddr1[1..]);
      Ok((addr1, Some(addr2), afterAddr2))
    else Ok((addr1, None, afterAddr1))
  }

  /** The addresses are what the prefix parser reads: the first address, and
      after a `,` the second one, with the text after the last address left. */
  lemma AddressesParts(l: string)
    ensures ParseLnHashPrefix(l).Err? ==> ParseAddresses(l) == Err(ParseLnHashPrefix(l).msg)
    ensures ParseLnHashPrefix(l).Ok? ==>
      var (addr1, after) := ParseLnHashPrefix(l).value;
      ParseAddresses(l) ==
        if !StartsWith(after, ",") then Ok((addr1, None, after))
        else if ParseLnHashPrefix(after[1..]).Err? then Err(ParseLnHashPrefix(after[1..]).msg)
        else Ok((addr1, Some(ParseLnHashPrefix(after[1..]).value.0), ParseLnHashPrefix(after[1..]).value.1))
  {
  }

  /** The `0|0000|` rules in the order the parser applies them; None when the
      command may stand. */
  function ZeroAddressError(addr1: LnHash, addr2: Option<LnHash>, hasComma: bool, cmd: Subcommand): (r: Option<Error>)
    ensures r.None? <==>
      && (addr1.lineno == 0 ==> addr1.hash == 0 && !hasComma && addr2.None? && (cmd.Append? || cmd.Insert?))
      && (addr2.Some? ==> addr2.value.lineno != 0)
  {
    if addr1.lineno == 0 && addr1.hash != 0 then Some(ErrZeroHash)
    else if addr1.lineno == 0 && (hasComma || addr2.Some?) then Some(ErrZeroRange)
    else if addr1.lineno == 0 && !(cmd.Append? || cmd.Insert?) then Some(ErrZeroOnlyIA)
    else if addr2.Some? && addr2.value.lineno == 0 then Some(ErrZeroRange)
    else if addr2.Some? && addr1.lineno == 0 then Some(ErrZeroRange)
    else None
  }

  /** `parse_command_with_text`: one or two addresses, a subcommand with
      nothing but whitespace after it, and the `0|0000|` rules. */
  function ParseCommandWithText(line: string, src: LineSource): (r: Result<(Command, LineSource)>)
    requires ValidSource(src)
    ensures r.Ok? ==> CommandWellFormed(r.value.0) && Follows(r.value.1, src)
    ensures r.Ok? && src.Preset? && HasBlock(r.value.0.cmd) ==> BlockOf(r.value.0.cmd) == src.block
  {
    var (addr1, addr2, afterAddrs) :- ParseAddresses(Trim(line));
    var rest := Trim(afterAddrs);
    if rest == [] then Err(ErrMissingCommand)
    else
      var (cmd, trailing, src') :- ParseSubcommand(rest, src);
      if Trim(trailing) != [] then Err(ErrTrailingChars)
      else match ZeroAddressError(addr1, addr2, addr2.Some?, cmd)
        case Some(e) => Err(e)
        case None =>
          ZeroRulesWellFormed(addr1, addr2, cmd);
          Ok((Command(addr1, addr2, addr2.Some?, cmd), src'))
  }

  /** A command that passes the zero rules, with addresses in range and a well
      formed subcommand, is well formed. */
  lemma ZeroRulesWellFormed(addr1: LnHash, addr2: Option<LnHash>, cmd: Subcommand)
    requires ZeroAddressError(addr1, addr2, addr2.Some?, cmd).None?
    requires addr1.lineno <= USIZE_MAX && (addr2.Some? ==> addr2.value.lineno <= USIZE_MAX)
    requires SubWellFormed(cmd)
    ensures CommandWellFormed(Command(addr1, addr2, addr2.Some?, cmd))
  {
  }

  /** The first cases of the dispatch: `sort` before `s`, then the missing and
      the unknown command. */
  lemma SubcommandDispatch(input: string, src: LineSource)
    requires ValidSource(src)
    ensures StartsWith(TrimStart(input), "sort") ==> ParseSubcommand(input, src) == Ok((Sort, TrimStart(input)[4..], src))
    ensures TrimStart(input) == [] ==> ParseSubcommand(input, src) == Err(ErrMissingCommand)
    ensures TrimStart(input) != [] && !IsCommandLetter(TrimStart(input)[0]) ==>
      ParseSubcommand(input, src) == Err(ErrUnknownCommand)
  {
    var s := TrimStart(input);
    if s != [] && !IsCommandLetter(s[0]) {
      NotPrefixByHead(s, "sort");
      NotPrefixByHead(s, "g!");
      FirstLetter(input, src);
      LetterRoutes(s[0], s[1..], src);
    }
  }

  /** `g!` dispatches to an inverted global. */
  lemma GlobalBangDispatch(rest: string, src: LineSource)
    requires ValidSource(src)
    ensures ParseSubcommand("g!" + rest, src) == ParseGlobal(rest, true, src)
  {
    var s := "g!" + rest;
    assert TrimStart(s) == s;
    assert s[0] == 'g' && s[..2] == "g!" && s[2..] == rest;
    assert !StartsWith(s, "sort");
  }

  /** `v` dispatches to an inverted global, like `g!`. */
  lemma GlobalVDispatch(rest: string, src: LineSource)
    requires ValidSource(src)
    ensures ParseSubcommand("v" + rest, src) == ParseGlobal(rest, true, src)
  {
    var s := "v" + rest;
    assert TrimStart(s) == s;
    assert s[0] == 'v' && s[1..] == rest;
    assert !StartsWith(s, "sort") && !StartsWith(s, "g!");
  }

  /** `g` not followed by `!` dispatches to a global that does not invert. */
  lemma GlobalGDispatch(rest: string, src: LineSource)
    requires ValidSource(src) && !StartsWith(rest, "!")
    ensures ParseSubcommand("g" + rest, src) == ParseGlobal(rest, false, src)
  {
    var s := "g" + rest;
    assert TrimStart(s) == s;
    assert s[0] == 'g' && s[1..] == rest;
    assert !StartsWith(s, "sort");
    assert !StartsWith(s, "g!") by {
      if rest != [] {
        assert rest[..1] == [rest[0]];
        assert s[..2] == ['g', rest[0]];
      }
    }
  }

  /** A top-level command followed by anything but whitespace is refused. */
  lemma CommandTrailing(line: string, src: LineSource, addr1: LnHash, addr2: Option<LnHash>, afterAddrs: string,
                        cmd: Subcommand, trailing: string, src': LineSource)
    requires ValidSource(src)
    requires ParseAddresses(Trim(line)) == Ok((addr1, addr2, afterAddrs)) && Trim(afterAddrs) != []
    requires ParseSubcommand(Trim(afterAddrs), src) == Ok((cmd, trailing, src'))
    ensures Trim(trailing) != [] <==> ParseCommandWithText(line, src) == Err(ErrTrailingChars)
  {
  }

  /** A global whose subcommand is followed by anything but whitespace is refused. */
  lemma GlobalTrailing(rest: string, invert: bool, src: LineSource, pat: string, afterPat: string,
                       sub: Subcommand, trailing: string, src': LineSource)
    requires ValidSource(src)
    requires StartsWith(TrimStart(rest), "/") && Delimited(TrimStart(rest), '/') == Ok((pat, afterPat))
    requires TrimStart(afterPat) != [] && ParseSubcommand(TrimStart(afterPat), src) == Ok((sub, trailing, src'))
    ensures Trim(trailing) != [] <==> ParseGlobal(rest, invert, src) == Err(ErrGlobalTrailing)
  {
  }

  /** Past `sort` and `g!`, the first character and the text after it are
      handed to the `match`. */
  lemma FirstLetter(input: string, src: LineSource)
    requires ValidSource(src)
    ensures var s := TrimStart(input);
      s != [] && !StartsWith(s, "sort") && !StartsWith(s, "g!") ==>
        ParseSubcommand(input, src) == ParseLetter(s[0], s[1..], src)
  {
  }

  /** The `match` sends `g` and `v` to the global parser, `a`, `i` and `c` to
      the text parser and every other letter to the operand parser, each with
      the text after the letter. */
  lemma LetterRoutes(c: char, rest: string, src: LineSource)
    requires ValidSource(src)
    ensures c == 'g' ==> ParseLetter(c, rest, src) == ParseGlobal(rest, false, src)
    ensures c == 'v' ==> ParseLetter(c, rest, src) == ParseGlobal(rest, true, src)
    ensures IsTextLetter(c) ==> ParseLetter(c, rest, src) == ParseTextOp(c, rest, src)
    ensures IsOperandLetter(c) ==> ParseLetter(c, rest, src) == ParseOperandOp(c, rest, src)
    ensures !IsTextLetter(c) && !IsOperandLetter(c) && c != 'g' && c != 'v' ==>
      ParseLetter(c, rest, src) == Err(ErrUnknownCommand)
  {
  }

  /** `a`, `i` and `c` go to the text parser with the text after the letter. */
  lemma TextLetters(input: string, src: LineSource)
    requires ValidSource(src)
    ensures var s := TrimStart(input);
      s != [] && IsTextLetter(s[0]) ==>
        ParseSubcommand(input, src) == ParseTextOp(s[0], s[1..], src)
  {
    var s := TrimStart(input);
    if s != [] && IsTextLetter(s[0]) {
      NotPrefixByHead(s, "g!");
      NotPrefixByHead(s, "sort");
      FirstLetter(input, src);
      LetterRoutes(s[0], s[1..], src);
    }
  }

  /** Past `sort`, the operand letters go to the operand parser with the text
      after the letter. */
  lemma OperandLetters(input: string, src: LineSource)
    requires ValidSource(src)
    ensures var s := TrimStart(input);
      s != [] && IsOperandLetter(s[0]) && (s[0] == 's' ==> !StartsWith(s, "sort")) ==>
        ParseSubcommand(input, src) == ParseOperandOp(s[0], s[1..], src)
  {
    var s := TrimStart(input);
    if s != [] && IsOperandLetter(s[0]) && (s[0] == 's' ==> !StartsWith(s, "sort")) {
      NotPrefixByHead(s, "g!");
      if s[0] != 's' {
        NotPrefixByHead(s, "sort");
      }
      FirstLetter(input, src);
      LetterRoutes(s[0], s[1..], src);
    }
  }

  /** `g!` and `v` give an inverted global and `g` alone one that does not
      invert, each given the text after the letters. */
  lemma GlobalLetters(input: string, src: LineSource)
    requires ValidSource(src)
    ensures var s := TrimStart(input);
      s != [] && s[0] == 'g' && !StartsWith(s, "g!") ==> ParseSubcommand(input, src) == ParseGlobal(s[1..], false, src)
    ensures var s := TrimStart(input);
      StartsWith(s, "g!") ==> ParseSubcommand(input, src) == ParseGlobal(s[2..], true, src)
    ensures var s := TrimStart(input);
      s != [] && s[0] == 'v' ==> ParseSubcommand(input, src) == ParseGlobal(s[1..], true, src)
  {
    var s := TrimStart(input);
    if StartsWith(s, "g!") {
      assert s[..2][0] == s[0] == 'g';
    }
    if s != [] && s[0] == 'g' {
      NotPrefixByHead(s, "sort");
    } else if s != [] && s[0] == 'v' {
      NotPrefixByHead(s, "g!");
      NotPrefixByHead(s, "sort");
    }
    FirstLetter(input, src);
    if s != [] {
      LetterRoutes(s[0], s[1..], src);
    }
  }

  /** A string whose first character differs from the prefix's does not start
      with it. */
  lemma NotPrefixByHead(s: string, prefix: string)
    requires s != [] && prefix != [] && s[0] != prefix[0]
    ensures !StartsWith(s, prefix)
  {
    if |prefix| <= |s| {
      assert s[..|prefix|][0] == s[0];
    }
  }

  /** `parse_global` in terms of its parts: the delimited pattern, the
      subcommand after it, and the check that nothing follows that. */
  lemma GlobalParts(rest: string, invert: bool, src: LineSource)
    requires ValidSource(src) && StartsWith(TrimStart(rest), "/")
    ensures Delimited(TrimStart(rest), '/').Err? ==>
      ParseGlobal(rest, invert, src) == Err(ErrUnterminated)
    ensures Delimited(TrimStart(rest), '/').Ok? ==>
      var (pat, afterPat) := Delimited(TrimStart(rest), '/').value;
      var cmdStr := TrimStart(afterPat);
      ParseGlobal(rest, invert, src) ==
        if cmdStr == [] then Err(ErrGlobalNoSub)
        else if ParseSubcommand(cmdStr, src).Err? then Err(ParseSubcommand(cmdStr, src).msg)
        else if Trim(ParseSubcommand(cmdStr, src).value.1) != [] then Err(ErrGlobalTrailing)
        else Ok((Global(invert, pat, ParseSubcommand(cmdStr, src).value.0), [], ParseSubcommand(cmdStr, src).value.2))
  {
    var t := TrimStart(rest);
    assert t != [] && t[0] == '/' by {
      assert t[..1][0] == t[0];
    }
  }

  // ---------------------------------------------------------------------------
  // The written form

  /** A subcommand as it is written on a command line; the block of `a`, `i`
      and `c` follows on the lines after it and is not part of this text. */
  function FormatSubcommand(sub: Subcommand): (r: string)
    ensures r != [] && !IsWhitespace(r[0]) && !IsWhitespace(r[|r| - 1]) && r[0] != ','
  {
    match sub
    case Delete => "d"
    case Print => "p"
    case Join => "j"
    case Sort => "sort"
    case Substitute(x) => "s" + FormatSubst(x)
    case Append(_) => "a"
    case Insert(_) => "i"
    case Change(_) => "c"
    case Move(dest) => "m" + FormatAddress(dest)
    case Copy(dest) => "t" + FormatAddress(dest)
    case Indent(levels) => ">" + Decimal(levels)
    case Dedent(levels) => "<" + Decimal(levels)
    case Global(invert, pattern, inner) =>
      (if invert then "v" else "g") + ("/" + Escape(pattern, '/') + "/" + FormatSubcommand(inner))
  }

  /** A command line: the address or the `,` range, then the subcommand. */
  function FormatCommand(c: Command): (r: string)
    ensures r != [] && '0' <= r[0] <= '9' && !IsWhitespace(r[|r| - 1])
  {
    FormatAddress(c.addr1) + FormatRest(c.addr2, FormatSubcommand(c.cmd))
  }

  /** What follows the first address: `,` and the second address, if any. */
  function FormatRest(addr2: Option<LnHash>, sub: string): (r: string)
    requires sub != [] && sub[0] != ','
    ensures r != [] && r[|r| - 1] == sub[|sub| - 1]
    ensures addr2.None? <==> r == sub
  {
    match addr2
    case None => sub
    case Some(a) => "," + (FormatAddress(a) + sub)
  }

  /** A single letter (not `g` or `v`) with its operand text goes to the parser
      for that letter. */
  lemma LetterDispatch(c: char, rest: string, src: LineSource)
    requires ValidSource(src)
    requires IsTextLetter(c) || IsOperandLetter(c)
    requires c == 's' ==> rest != [] && rest[0] == '/'
    ensures IsTextLetter(c) ==> ParseSubcommand([c] + rest, src) == ParseTextOp(c, rest, src)
    ensures IsOperandLetter(c) ==> ParseSubcommand([c] + rest, src) == ParseOperandOp(c, rest, src)
  {
    var s := [c] + rest;
    assert TrimStart(s) == s;
    assert s[0] == c && s[1..] == rest;
    NotPrefixByHead(s, "g!");
    if c == 's' {
      SubstituteNotSort(rest);
    } else {
      NotPrefixByHead(s, "sort");
    }
    FirstLetter(s, src);
    LetterRoutes(c, rest, src);
  }

  /** `s/` does not start `sort`. */
  lemma SubstituteNotSort(rest: string)
    requires rest != [] && rest[0] == '/'
    ensures !StartsWith(['s'] + rest, "sort")
  {
    var s := ['s'] + rest;
    if 4 <= |s| {
      assert s[..4][1] == s[1] == rest[0];
    }
  }

  /** `d`, `p`, `j` and `sort` read back from their letters. */
  lemma PlainRoundTrip(sub: Subcommand, src: LineSource)
    requires ValidSource(src) && (sub.Delete? || sub.Print? || sub.Join? || sub.Sort?)
    ensures ParseSubcommand(FormatSubcommand(sub), src) == Ok((sub, [], src))
  {
    if sub.Sort? {
      SortWordRoundTrip(src);
    } else {
      LetterOnlyRoundTrip(sub, src);
    }
  }

  /** `d`, `p` and `j` are written as their letter alone and read back. */
  lemma LetterOnlyRoundTrip(sub: Subcommand, src: LineSource)
    requires ValidSource(src) && (sub.Delete? || sub.Print? || sub.Join?)
    ensures ParseSubcommand(FormatSubcommand(sub), src) == Ok((sub, [], src))
  {
    var c := if sub.Delete? then 'd' else if sub.Print? then 'p' else 'j';
    assert FormatSubcommand(sub) == [c] + [];
    LetterDispatch(c, [], src);
    PlainLetters([], src);
  }

  /** `sort` is recognised as a word before the letter `s`. */
  lemma SortWordRoundTrip(src: LineSource)
    requires ValidSource(src)
    ensures ParseSubcommand("sort", src) == Ok((Sort, [], src))
  {
    assert TrimStart("sort") == "sort";
    assert "sort"[..4] == "sort" && "sort"[4..] == [];
    SubcommandDispatch("sort", src);
  }

  /** `a`, `i` and `c` read back with the block the line source gives. */
  lemma TextRoundTrip(sub: Subcommand, block: seq<string>)
    requires IsTextOp(sub) && sub.text == block
    ensures ParseSubcommand(FormatSubcommand(sub), Preset(block)) == Ok((sub, [], Preset(block)))
  {
    var src := Preset(block);
    var c := if sub.Append? then 'a' else if sub.Insert? then 'i' else 'c';
    assert FormatSubcommand(sub) == [c] + [];
    LetterDispatch(c, [], src);
  }

  /** `s` reads back its substitution. */
  lemma SubstituteCommandRoundTrip(x: Subst, src: LineSource)
    requires ValidSource(src) && x.pattern != []
    ensures ParseSubcommand(FormatSubcommand(Substitute(x)), src) == Ok((Substitute(x), [], src))
  {
    var f := FormatSubst(x);
    assert FormatSubcommand(Substitute(x)) == ['s'] + f;
    LetterDispatch('s', f, src);
    SubstituteRoundTrip(x);
    SubstituteLetter(f, src);
  }

  /** `m` and `t` read back their destination. */
  lemma DestinationRoundTrip(sub: Subcommand, src: LineSource)
    requires ValidSource(src) && (sub.Move? || sub.Copy?) && SubWellFormed(sub)
    ensures ParseSubcommand(FormatSubcommand(sub), src) == Ok((sub, [], src))
  {
    var f := FormatAddress(sub.dest);
    TrimNoop(f);
    PrefixRoundTrip(sub.dest, []);
    assert f + [] == f;
    if sub.Move? {
      assert FormatSubcommand(sub) == ['m'] + f;
      LetterDispatch('m', f, src);
      MoveLetter(f, src);
    } else {
      assert FormatSubcommand(sub) == ['t'] + f;
      LetterDispatch('t', f, src);
      CopyLetter(f, src);
    }
  }

  /** `>` and `<` read back their level count. */
  lemma LevelRoundTrip(sub: Subcommand, src: LineSource)
    requires ValidSource(src) && (sub.Indent? || sub.Dedent?) && SubWellFormed(sub)
    ensures ParseSubcommand(FormatSubcommand(sub), src) == Ok((sub, [], src))
  {
    var d := Decimal(sub.levels);
    TrimNoop(d);
    DecimalRoundTrip(sub.levels);
    assert ParseOptionalUsize(d) == Ok(sub.levels);
    var c := if sub.Indent? then '>' else '<';
    assert FormatSubcommand(sub) == [c] + d;
    LetterDispatch(c, d, src);
    LevelLetters(d, src);
  }

  /** The written global is its letter, then the delimited pattern, then the
      subcommand. */
  lemma GlobalShape(invert: bool, pattern: string, inner: Subcommand)
    ensures FormatSubcommand(Global(invert, pattern, inner)) ==
      [if invert then 'v' else 'g'] + ("/" + Escape(pattern, '/') + "/" + FormatSubcommand(inner))
  {
  }

  /** The pattern and subcommand of a global read back when the subcommand does. */
  lemma GlobalBodyRoundTrip(invert: bool, pattern: string, inner: Subcommand, src: LineSource)
    requires ValidSource(src)
    requires ParseSubcommand(FormatSubcommand(inner), src) == Ok((inner, [], src))
    ensures ParseGlobal("/" + Escape(pattern, '/') + "/" + FormatSubcommand(inner), invert, src) ==
      Ok((Global(invert, pattern, inner), [], src))
  {
    GlobalTextRoundTrip(invert, pattern, inner, FormatSubcommand(inner), src);
  }

  /** A global's text reads back from any subcommand text that reads back
      whole and is already trimmed. */
  lemma GlobalTextRoundTrip(invert: bool, pattern: string, inner: Subcommand, body: string, src: LineSource)
    requires ValidSource(src) && body != [] && !IsWhitespace(body[0]) && !IsWhitespace(body[|body| - 1])
    requires ParseSubcommand(body, src) == Ok((inner, [], src))
    ensures ParseGlobal("/" + Escape(pattern, '/') + "/" + body, invert, src) ==
      Ok((Global(invert, pattern, inner), [], src))
  {
    var rest := "/" + Escape(pattern, '/') + "/" + body;
    SlashedTrimmed(Escape(pattern, '/'), body);
    DelimitedRoundTrip(pattern, '/', body);
    GlobalParts(rest, invert, src);
    assert Trim([]) == [];
  }

  /** A slash-led text that ends in a trimmed body is itself trimmed. */
  lemma SlashedTrimmed(e: string, body: string)
    requires body != [] && !IsWhitespace(body[0]) && !IsWhitespace(body[|body| - 1])
    ensures var rest := "/" + e + "/" + body;
      TrimStart(rest) == rest && StartsWith(rest, "/") && TrimStart(body) == body
  {
    var rest := "/" + e + "/" + body;
    assert rest[0] == '/' && rest[|rest| - 1] == body[|body| - 1];
    TrimNoop(rest);
    TrimNoop(body);
    assert rest[..1] == "/";
  }

  /** A global reads back when its subcommand does. */
  lemma GlobalRoundTrip(invert: bool, pattern: string, inner: Subcommand, src: LineSource)
    requires ValidSource(src)
    requires ParseSubcommand(FormatSubcommand(inner), src) == Ok((inner, [], src))
    ensures ParseSubcommand(FormatSubcommand(Global(invert, pattern, inner)), src) ==
      Ok((Global(invert, pattern, inner), [], src))
  {
    var rest := "/" + Escape(pattern, '/') + "/" + FormatSubcommand(inner);
    GlobalShape(invert, pattern, inner);
    GlobalBodyRoundTrip(invert, pattern, inner, src);
    assert rest[0] == '/';
    if invert {
      GlobalVDispatch(rest, src);
    } else {
      NotPrefixByHead(rest, "!");
      GlobalGDispatch(rest, src);
    }
  }

  /** Every well-formed subcommand reads back from its written form, given a
      line source that holds its block. */
  lemma {:induction false} SubcommandRoundTrip(sub: Subcommand, block: seq<string>)
    requires SubWellFormed(sub) && (HasBlock(sub) ==> BlockOf(sub) == block)
    ensures ParseSubcommand(FormatSubcommand(sub), Preset(block)) == Ok((sub, [], Preset(block)))
    decreases sub
  {
    if sub.Global? {
      GlobalBlock(sub.invert, sub.pattern, sub.cmd);
      SubcommandRoundTrip(sub.cmd, block);
      GlobalRoundTrip(sub.invert, sub.pattern, sub.cmd, Preset(block));
    } else {
      SimpleRoundTrip(sub, block);
    }
  }

  /** Every well-formed subcommand other than a global reads back. */
  lemma SimpleRoundTrip(sub: Subcommand, block: seq<string>)
    requires !sub.Global? && SubWellFormed(sub) && (HasBlock(sub) ==> BlockOf(sub) == block)
    ensures ParseSubcommand(FormatSubcommand(sub), Preset(block)) == Ok((sub, [], Preset(block)))
  {
    var src := Preset(block);
    if sub.Delete? || sub.Print? || sub.Join? || sub.Sort? {
      PlainRoundTrip(sub, src);
    } else if sub.Substitute? {
      SubstituteCommandRoundTrip(sub.subst, src);
    } else if IsTextOp(sub) {
      TextRoundTrip(sub, block);
    } else if sub.Move? || sub.Copy? {
      DestinationRoundTrip(sub, src);
    } else {
      LevelRoundTrip(sub, src);
    }
  }

  /** The addresses read back, leaving the subcommand text. */
  lemma AddressesRoundTrip(addr1: LnHash, addr2: Option<LnHash>, sub: string)
    requires addr1.lineno <= USIZE_MAX && (addr2.Some? ==> addr2.value.lineno <= USIZE_MAX)
    requires sub != [] && sub[0] != ','
    ensures ParseAddresses(FormatAddress(addr1) + FormatRest(addr2, sub)) == Ok((addr1, addr2, sub))
  {
    var after := FormatRest(addr2, sub);
    PrefixRoundTrip(addr1, after);
    match addr2
    case None =>
      NotPrefixByHead(sub, ",");
    case Some(a) =>
      assert after[..1] == "," && after[1..] == FormatAddress(a) + sub;
      PrefixRoundTrip(a, sub);
  }

  /** Every well-formed command reads back from its written form in strings
      mode, where the line source holds the command's block. */
  lemma CommandRoundTrip(c: Command, block: seq<string>)
    requires CommandWellFormed(c) && (HasBlock(c.cmd) ==> BlockOf(c.cmd) == block)
    ensures ParseCommandWithText(FormatCommand(c), Preset(block)) == Ok((c, Preset(block)))
  {
    var line := FormatCommand(c);
    var fs := FormatSubcommand(c.cmd);
    TrimNoop(line);
    TrimNoop(fs);
    AddressesRoundTrip(c.addr1, c.addr2, fs);
    SubcommandRoundTrip(c.cmd, block);
    assert ZeroAddressError(c.addr1, c.addr2, c.addr2.Some?, c.cmd).None?;
    CommandOk(line, Preset(block), c.addr1, c.addr2, fs, c.cmd, Preset(block));
  }

  /** A command line whose addresses, subcommand and zero-address rules all
      pass is the command they make. */
  lemma CommandOk(line: string, src: LineSource, addr1: LnHash, addr2: Option<LnHash>, rest: string,
                  cmd: Subcommand, src': LineSource)
    requires ValidSource(src)
    requires ParseAddresses(Trim(line)) == Ok((addr1, addr2, rest)) && rest != [] && Trim(rest) == rest
    requires ParseSubcommand(rest, src) == Ok((cmd, [], src'))
    requires ZeroAddressError(addr1, addr2, addr2.Some?, cmd).None?
    ensures ParseCommandWithText(line, src) == Ok((Command(addr1, addr2, addr2.Some?, cmd), src'))
  {
    assert Trim([]) == [];
  }

  // ---------------------------------------------------------------------------
  // The three input shapes

  /** The command kinds that may carry trailing lines in strings mode. */
  predicate TakesText(sub: Subcommand) {
    IsTextOp(sub) || (sub.Global? && IsTextOp(sub.cmd))
  }

  lemma TakesTextHasBlock(sub: Subcommand)
    requires TakesText(sub)
    ensures HasBlock(sub)
  {
    if sub.Global? {
      assert HasBlock(sub.cmd);
    }
  }

  function StripCrAll(ls: seq<string>): (r: seq<string>)
    ensures |r| == |ls| && forall k :: 0 <= k < |r| ==> r[k] == StripCr(ls[k])
  {
    if ls == [] then [] else [StripCr(ls[0])] + StripCrAll(ls[1..])
  }

  /** `parse_command_with_text_from_str`: the first line is the command, the
      other lines (each without one trailing `\r`) are its text block, with no
      terminator; extra lines on any other command are an error. */
  function ParseCommandFromStr(input: string): (r: Result<Command>)
    ensures r.Ok? ==> CommandWellFormed(r.value)
    ensures r.Ok? && |Split(input, '\n')| > 1 ==> TakesText(r.value.cmd)
    ensures r.Ok? && HasBlock(r.value.cmd) ==> BlockOf(r.value.cmd) == StripCrAll(Split(input, '\n')[1..])
  {
    var pieces := Split(input, '\n');
    var remaining := StripCrAll(pieces[1..]);
    match ParseCommandWithText(pieces[0], Preset(remaining))
    case Err(e) => Err(e)
    case Ok((cmd, _)) =>
      if remaining != [] && !TakesText(cmd.cmd) then Err(ErrUnexpectedMultiline)
      else Ok(cmd)
  }

  predicate Blank(s: string) {
    Trim(s) == []
  }

  /** The command strings that are not blank, in order. */
  function NonBlank(cmds: seq<string>): (r: seq<string>)
    ensures |r| <= |cmds|
    ensures forall k :: 0 <= k < |r| ==> !Blank(r[k])
    decreases |cmds|
  {
    if cmds == [] then []
    else NonBlank(cmds[..|cmds| - 1]) + (if Blank(cmds[|cmds| - 1]) then [] else [cmds[|cmds| - 1]])
  }

  /** Strings mode over a list, for any parser of one string: blank strings are
      skipped, every other string is one command, and the first string that
      fails to parse fails the whole list with its error. */
  function ParseEach(parse: string -> Result<Command>, cmds: seq<string>): Result<seq<Command>>
    decreases |cmds|
  {
    if cmds == [] then Ok([])
    else
      var last := cmds[|cmds| - 1];
      match ParseEach(parse, cmds[..|cmds| - 1])
      case Err(e) => Err(e)
      case Ok(out) =>
        if Blank(last) then Ok(out)
        else match parse(last)
          case Err(e) => Err(e)
          case Ok(c) => Ok(out + [c])
  }

  /** `parse_commands_from_strs` as exhash writes it: one loop with an early
      return on the first error. */
  method ParseCommandsFromStrs(cmds: seq<string>) returns (r: Result<seq<Command>>)
    ensures r == ParseEach(ParseCommandFromStr, cmds)
  {
    var out := [];
    for i := 0 to |cmds|
      invariant ParseEach(ParseCommandFromStr, cmds[..i]) == Ok(out)
    {
      assert cmds[..i + 1][..i] == cmds[..i];
      if Blank(cmds[i]) {
        continue;
      }
      var parsed := ParseCommandFromStr(cmds[i]);
      if parsed.Err? {
        ErrorSticks(ParseCommandFromStr, cmds, i + 1);
        return Err(parsed.msg);
      }
      out := out + [parsed.value];
    }
    assert cmds[..|cmds|] == cmds;
    return Ok(out);
  }

  /** Once a prefix has failed, the whole list fails with the same error. */
  lemma {:induction false} ErrorSticks(parse: string -> Result<Command>, cmds: seq<string>, n: nat)
    requires n <= |cmds| && ParseEach(parse, cmds[..n]).Err?
    ensures ParseEach(parse, cmds) == ParseEach(parse, cmds[..n])
    decreases |cmds| - n
  {
    if n < |cmds| {
      assert cmds[..n + 1][..n] == cmds[..n];
      ErrorSticks(parse, cmds, n + 1);
    } else {
      assert cmds[..n] == cmds;
    }
  }

  /** `out` holds the parsed form of every string of `strs`. */
  predicate ParsedAll(parse: string -> Result<Command>, strs: seq<string>, out: seq<Command>) {
    && |out| == |strs|
    && forall k :: 0 <= k < |out| ==> parse(strs[k]) == Ok(out[k])
  }

  /** `k` is the first string of `strs` that does not parse. */
  predicate FirstFailure(parse: string -> Result<Command>, strs: seq<string>, k: nat) {
    && k < |strs|
    && parse(strs[k]).Err?
    && forall j :: 0 <= j < k ==> parse(strs[j]).Ok?
  }

  /** A successful list parse holds the command of every non-blank string. */
  lemma {:induction false} ParseEachOk(parse: string -> Result<Command>, cmds: seq<string>)
    requires ParseEach(parse, cmds).Ok?
    ensures ParsedAll(parse, NonBlank(cmds), ParseEach(parse, cmds).value)
    decreases |cmds|
  {
    if cmds != [] {
      var init := cmds[..|cmds| - 1];
      var last := cmds[|cmds| - 1];
      ParseEachOk(parse, init);
      var out := ParseEach(parse, init).value;
      if Blank(last) {
        assert NonBlank(cmds) == NonBlank(init) + [];
      } else {
        var c := parse(last).value;
        assert NonBlank(cmds) == NonBlank(init) + [last];
        assert ParseEach(parse, cmds).value == out + [c];
      }
    }
  }

  /** A failed list parse reports the error of the first non-blank string that
      does not parse. */
  lemma {:induction false} ParseEachErr(parse: string -> Result<Command>, cmds: seq<string>)
    requires ParseEach(parse, cmds).Err?
    ensures exists k: nat :: FirstFailure(parse, NonBlank(cmds), k) && ParseEach(parse, cmds).msg == parse(NonBlank(cmds)[k]).msg
    decreases |cmds|
  {
    var init := cmds[..|cmds| - 1];
    var last := cmds[|cmds| - 1];
    var nb := NonBlank(init);
    var all := NonBlank(cmds);
    assert all == nb + (if Blank(last) then [] else [last]);
    if ParseEach(parse, init).Err? {
      ParseEachErr(parse, init);
      var k: nat :| FirstFailure(parse, nb, k) && ParseEach(parse, init).msg == parse(nb[k]).msg;
      assert all[k] == nb[k];
      assert forall j :: 0 <= j < k ==> all[j] == nb[j];
      assert FirstFailure(parse, all, k);
    } else {
      ParseEachOk(parse, init);
      assert all == nb + [last];
      assert forall j :: 0 <= j < |nb| ==> all[j] == nb[j];
      assert FirstFailure(parse, all, |nb|);
    }
  }

  /** The list parser succeeds exactly when every non-blank string parses. */
  lemma ParseEachSpec(parse: string -> Result<Command>, cmds: seq<string>)
    ensures ParseEach(parse, cmds).Ok? <==> forall k :: 0 <= k < |NonBlank(cmds)| ==> parse(NonBlank(cmds)[k]).Ok?
  {
    if ParseEach(parse, cmds).Ok? {
      ParseEachOk(parse, cmds);
    } else {
      ParseEachErr(parse, cmds);
    }
  }

  /** The script's lines: `split('\n')`, each without one trailing `\r`. */
  function ScriptLines(script: string): (r: seq<string>)
    ensures |r| == |Split(script, '\n')| && |r| >= 1
    ensures forall k :: 0 <= k < |r| ==> r[k] == StripCr(Split(script, '\n')[k])
  {
    StripCrAll(Split(script, '\n'))
  }

  /** Script mode from line `pos` on: blank lines are skipped, and the text
      blocks of `a`/`i`/`c` are taken from the lines after their command. */
  function ParseScriptFrom(lines: seq<string>, pos: nat): (r: Result<seq<Command>>)
    requires pos <= |lines|
    ensures r.Ok? ==> |r.value| <= |lines| - pos
    decreases |lines| - pos
  {
    if pos == |lines| then Ok([])
    else if Trim(lines[pos]) == [] then ParseScriptFrom(lines, pos + 1)
    else match ParseCommandWithText(Trim(lines[pos]), Remaining(lines, pos + 1))
      case Err(e) => Err(e)
      case Ok((cmd, src)) =>
        match ParseScriptFrom(lines, src.next)
        case Err(e) => Err(e)
        case Ok(cmds) => Ok([cmd] + cmds)
  }

  /** A whole script. */
  function ParseScript(script: string): (r: Result<seq<Command>>)
    ensures r.Ok? ==> |r.value| <= |ScriptLines(script)|
    ensures r.Ok? ==> forall k :: 0 <= k < |r.value| ==> CommandWellFormed(r.value[k])
  {
    ScriptWellFormed(ScriptLines(script), 0);
    ParseScriptFrom(ScriptLines(script), 0)
  }

  /** Every command of a parsed script obeys the per-command rules. */
  lemma {:induction false} ScriptWellFormed(lines: seq<string>, pos: nat)
    requires pos <= |lines|
    ensures ParseScriptFrom(lines, pos).Ok? ==>
      forall k :: 0 <= k < |ParseScriptFrom(lines, pos).value| ==> CommandWellFormed(ParseScriptFrom(lines, pos).value[k])
    decreases |lines| - pos
  {
    if pos < |lines| {
      if Trim(lines[pos]) == [] {
        ScriptWellFormed(lines, pos + 1);
      } else {
        var first := ParseCommandWithText(Trim(lines[pos]), Remaining(lines, pos + 1));
        if first.Ok? {
          var (cmd, src) := first.value;
          ScriptWellFormed(lines, src.next);
          var r := ParseScriptFrom(lines, pos);
          if r.Ok? {
            var cmds := ParseScriptFrom(lines, src.next).value;
            assert r.value == [cmd] + cmds;
            forall k | 0 <= k < |r.value| ensures CommandWellFormed(r.value[k]) {
              if k > 0 {
                assert r.value[k] == cmds[k - 1];
              }
            }
          }
        }
      }
    }
  }

  function PrependCommands(out: seq<Command>, r: Result<seq<Command>>): Result<seq<Command>> {
    match r
    case Err(e) => Err(e)
    case Ok(cmds) => Ok(out + cmds)
  }

  lemma PrependCommandsAssoc(out: seq<Command>, cmd: Command, r: Result<seq<Command>>)
    ensures PrependCommands(out, PrependCommands([cmd], r)) == PrependCommands(out + [cmd], r)
  {
    if r.Ok? {
      assert out + ([cmd] + r.value) == out + [cmd] + r.value;
    }
  }

  /** A non-blank script line whose command does not parse ends the script with
      that error. */
  lemma ScriptStepErr(lines: seq<string>, pos: nat)
    requires pos < |lines| && Trim(lines[pos]) != []
    requires ParseCommandWithText(Trim(lines[pos]), Remaining(lines, pos + 1)).Err?
    ensures ParseScriptFrom(lines, pos) ==
      Err(ParseCommandWithText(Trim(lines[pos]), Remaining(lines, pos + 1)).msg)
  {
  }

  /** A non-blank script line whose command parses: that command comes first,
      and the script goes on after the text block the command consumed. */
  lemma ScriptStepOk(lines: seq<string>, pos: nat, out: seq<Command>, cmd: Command, src: LineSource)
    requires pos < |lines| && Trim(lines[pos]) != []
    requires ParseCommandWithText(Trim(lines[pos]), Remaining(lines, pos + 1)) == Ok((cmd, src))
    ensures pos < src.next <= |lines|
    ensures PrependCommands(out, ParseScriptFrom(lines, pos)) ==
      PrependCommands(out + [cmd], ParseScriptFrom(lines, src.next))
  {
    assert ParseScriptFrom(lines, pos) == PrependCommands([cmd], ParseScriptFrom(lines, src.next));
    PrependCommandsAssoc(out, cmd, ParseScriptFrom(lines, src.next));
  }

  /** One turn of the script loop: a blank line is skipped, any other line is
      parsed as a command that may consume the text block after it. */
  method ParseScriptLine(lines: seq<string>, pos: nat, out: seq<Command>)
    returns (r: Result<(seq<Command>, nat)>)
    requires pos < |lines|
    ensures r.Ok? ==> pos < r.value.1 <= |lines|
    ensures r.Ok? ==>
      PrependCommands(out, ParseScriptFrom(lines, pos)) ==
        PrependCommands(r.value.0, ParseScriptFrom(lines, r.value.1))
    ensures r.Err? ==> ParseScriptFrom(lines, pos) == Err(r.msg)
  {
    var line := Trim(lines[pos]);
    if line == [] {
      return Ok((out, pos + 1));
    }
    var parsed := ParseCommandWithText(line, Remaining(lines, pos + 1));
    if parsed.Err? {
      ScriptStepErr(lines, pos);
      return Err(parsed.msg);
    }
    var (cmd, src) := parsed.value;
    ScriptStepOk(lines, pos, out, cmd, src);
    return Ok((out + [cmd], src.next));
  }

  /** `parse_commands_from_script` as exhash writes it: one pass over the
      lines in which each text block read advances the same iterator. */
  method ParseCommandsFromScript(script: string) returns (r: Result<seq<Command>>)
    ensures r == ParseScript(script)
  {
    var lines := ScriptLines(script);
    var out := [];
    var pos := 0;
    match ParseScriptFrom(lines, 0) {
      case Err(_) =>
      case Ok(cmds) => assert [] + cmds == cmds;
    }
    while pos < |lines|
      invariant pos <= |lines|
      invariant ParseScriptFrom(lines, 0) == PrependCommands(out, ParseScriptFrom(lines, pos))
      decreases |lines| - pos
    {
      var step := ParseScriptLine(lines, pos, out);
      if step.Err? {
        return Err(step.msg);
      }
      out, pos := step.value.0, step.value.1;
    }
    assert out + [] == out;
    return Ok(out);
  }
}
