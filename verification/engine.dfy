/** The edit engine: a buffer of lines that each command changes in place,
    remembering for every line the input line it came from, so that the result
    can report which input lines were deleted and which output lines changed. */
module Engine {
  import opened Wrappers
  import opened Strings
  import opened Numerals
  import opened Lnhash
  import opened Parse
  import opened Buffer
  import TextOps
  import opened Verify

  /** A compiled pattern: its text and whether it ignores case. */
  datatype Regex = Regex(pattern: string, caseInsensitive: bool)

  /** The `regex` crate, which is foreign to the model: whether a pattern
      compiles, whether it matches somewhere in a text, and the text with its
      first or with every match replaced. */
  datatype RegexLib = RegexLib(
    compiles: (string, bool) -> bool,
    isMatch: (Regex, string) -> bool,
    replaceFirst: (Regex, string, string) -> string,
    replaceAll: (Regex, string, string) -> string)

  const ErrAddressZero := Error(30)
  const ErrInvalidRange := Error(31)
  const ErrJoinZero := Error(32)
  const ErrJoinShort := Error(33)
  const ErrJoinLast := Error(34)
  const ErrDestZero := Error(35)
  const ErrDestRange := Error(36)
  const ErrDestInside := Error(37)
  const ErrInvalidRegex := Error(38)

  /** `resolve_range`: 1-based `start..end` inclusive as 0-based indices. */
  function ResolveRange(len: nat, start: nat, end: nat): (r: Result<(nat, nat)>)
    ensures r.Ok? <==> 1 <= start <= end <= len
    ensures r.Ok? ==> r.value == (start - 1, end - 1)
    ensures start == 0 || end == 0 ==> r == Err(ErrAddressZero)
    ensures 0 < end < start ==> r == Err(ErrInvalidRange)
    ensures 0 < start <= end && len < end ==> r == Err(ErrAddressOutOfRange)
  {
    if start == 0 || end == 0 then Err(ErrAddressZero)
    else if start > end then Err(ErrInvalidRange)
    else if end > len then Err(ErrAddressOutOfRange)
    else Ok((start - 1, end - 1))
  }

  /** `build_regex`: the pattern, if the regex library accepts it. */
  function BuildRegex(lib: RegexLib, pattern: string, caseInsensitive: bool): (r: Result<Regex>)
    ensures r.Ok? <==> lib.compiles(pattern, caseInsensitive)
    ensures r.Ok? ==> r.value == Regex(pattern, caseInsensitive)
  {
    if lib.compiles(pattern, caseInsensitive) then Ok(Regex(pattern, caseInsensitive))
    else Err(ErrInvalidRegex)
  }

  /** A line given the text `t`: it is reported as modified only if its text
      actually changes. */
  function Retext(l: Line, t: string): (r: Line)
    ensures r.text == t && r.origin == l.origin && r.globalMark == l.globalMark
    ensures r.modified <==> l.modified || t != l.text
    ensures t == l.text ==> r == l
  {
    if t != l.text then l.(text := t, modified := true) else l
  }

  /** The buffer after joining the run `s..e`: its first line takes the join
      of the run's texts and the other lines of the run are gone. */
  function JoinedRun(ls: seq<Line>, s: nat, e: nat): seq<Line>
    requires s <= e < |ls|
  {
    ls[..s] + [Retext(ls[s], TextOps.JoinAll(Texts(ls[s..e + 1])))] + ls[e + 1..]
  }

  /** The text `s` makes of one line: every match, or only the first one. A text
      the pattern does not match is left as it is. */
  function SubstText(lib: RegexLib, re: Regex, sub: Subst, text: string): (r: string)
    ensures !lib.isMatch(re, text) && !sub.global ==> r == text
  {
    if sub.global then lib.replaceAll(re, text, sub.replacement)
    else if !lib.isMatch(re, text) then text
    else lib.replaceFirst(re, text, sub.replacement)
  }

  /** A line with the indentation prefix put in front; always reported. */
  function Indented(prefix: string, l: Line): (r: Line)
    ensures r.text == prefix + l.text && r.modified
    ensures r.origin == l.origin && r.globalMark == l.globalMark
  {
    l.(text := prefix + l.text, modified := true)
  }

  /** What `<` makes of one line. */
  function DedentLine(levels: nat, l: Line): (r: Line)
    ensures r.origin == l.origin && r.globalMark == l.globalMark
    ensures IsSuffix(r.text, l.text)
  {
    TextOps.DedentedSuffix(l.text, levels);
    Retext(l, TextOps.Dedented(l.text, levels))
  }

  /** What `s` makes of one line, the pattern compiled as the substitution asks. */
  function SubstLine(lib: RegexLib, sub: Subst, l: Line): (r: Line)
    ensures r.origin == l.origin && r.globalMark == l.globalMark
    ensures r.modified <==> l.modified || r.text != l.text
  {
    Retext(l, SubstText(lib, Regex(sub.pattern, sub.caseInsensitive), sub, l.text))
  }

  function Touch(l: Line): Line {
    l.(modified := true)
  }

  /** The selector of `g` (`invert` false) and of `g!`/`v` (`invert` true). */
  function Selects(lib: RegexLib, pattern: string, invert: bool): string -> bool {
    t => lib.isMatch(Regex(pattern, false), t) != invert
  }

  /** Each of the result's numbers is below the next. */
  predicate StrictlyIncreasing(s: seq<nat>) {
    forall i, j :: 0 <= i < j < |s| ==> s[i] < s[j]
  }

  /** What `apply_subcommand` does with a subcommand other than a global:
      the edit it reaches and which of `start` and `end` that edit gets. `i`
      reads only `start` and `a` only `end`; `j` joins the range when a comma
      was written and otherwise the line with the next one. A failed edit
      leaves the lines as they were. */
  ghost predicate Routed(lib: RegexLib, before: seq<Line>, after: seq<Line>, start: nat, end: nat,
                         hasComma: bool, sub: Subcommand, r: Result<()>)
  {
    var resolved := ResolveRange(|before|, start, end).Ok?;
    && (r.Err? ==> after == before)
    && match sub
       case Delete =>
         (r.Ok? <==> resolved) && (r.Ok? ==> after == before[..start - 1] + before[end..])
       case Append(text) =>
         var at := if start == 0 then 0 else end;
         (r.Ok? <==> at <= |before|) && (r.Ok? ==> after == before[..at] + Fresh(text) + before[at..])
       case Insert(text) =>
         var at := if start == 0 then 0 else start - 1;
         (r.Ok? <==> start <= |before|) && (r.Ok? ==> after == before[..at] + Fresh(text) + before[at..])
       case Change(text) =>
         (r.Ok? <==> resolved) && (r.Ok? ==> after == before[..start - 1] + Fresh(text) + before[end..])
       case Join =>
         if hasComma then
           (r.Ok? <==> resolved) && (r.Ok? ==> after == JoinedRun(before, start - 1, end - 1))
         else
           (r.Ok? <==> 0 < start < |before|) &&
           (r.Ok? ==>
              after == before[..start - 1]
                + [Retext(before[start - 1], TextOps.JoinStrings(before[start - 1].text, before[start].text))]
                + before[start + 1..])
       case Move(dest) =>
         var d := dest.lineno;
         (r.Ok? <==> resolved && 0 < d <= |before| && !(start <= d <= end)) &&
         (r.Ok? && d < start ==>
            after == before[..d] + Touched(before[start - 1..end]) + before[d..start - 1] + before[end..]) &&
         (r.Ok? && end < d ==>
            after == before[..start - 1] + before[end..d] + Touched(before[start - 1..end]) + before[d..])
       case Copy(dest) =>
         (r.Ok? <==> resolved && 0 < dest.lineno <= |before|) &&
         (r.Ok? ==> after == before[..dest.lineno] + Clones(before[start - 1..end]) + before[dest.lineno..])
       case Substitute(x) =>
         (r.Ok? <==> resolved && lib.compiles(x.pattern, x.caseInsensitive)) &&
         (r.Ok? ==> |after| == |before| && forall k :: 0 <= k < |after| ==>
            after[k] == if start <= k + 1 <= end then SubstLine(lib, x, before[k]) else before[k])
       case Indent(levels) =>
         (r.Ok? <==> resolved) && (r.Ok? ==> |after| == |before| && forall k :: 0 <= k < |after| ==>
            after[k] == if levels > 0 && start <= k + 1 <= end then Indented(TextOps.IndentPrefix(levels), before[k]) else before[k])
       case Dedent(levels) =>
         (r.Ok? <==> resolved) && (r.Ok? ==> |after| == |before| && forall k :: 0 <= k < |after| ==>
            after[k] == if levels > 0 && start <= k + 1 <= end then DedentLine(levels, before[k]) else before[k])
       case Sort =>
         (r.Ok? <==> resolved) && (r.Ok? ==> after == TextOps.SortedLines(before, start - 1, end - 1))
       case Print =>
         (r.Ok? <==> resolved) && (r.Ok? ==> |after| == |before| && forall k :: 0 <= k < |after| ==>
            after[k] == if start <= k + 1 <= end then Touch(before[k]) else before[k])
       case Global(_, _, _) => true
  }

  /** The mutable state of one edit: the buffer and the input line numbers
      deleted so far. */
  class Engine {
    var lines: seq<Line>
    var deleted: set<nat>
    /** The number of input lines. */
    ghost const total: nat
    const lib: RegexLib

    /** Every input line number is carried by exactly one line or is deleted. */
    ghost predicate Valid()
      reads this
    {
      Accounted(lines, deleted, total)
    }

    /** `Engine::new`: input line `i` becomes a line with origin `i + 1`. */
    constructor (input: seq<string>, lib: RegexLib)
      ensures Valid() && total == |input| && this.lib == lib
      ensures lines == Initial(input) && deleted == {}
    {
      this.lines := Initial(input);
      this.deleted := {};
      this.total := |input|;
      this.lib := lib;
      InitialAccounted(input);
    }

    /** The loop over drained lines that records their origins as deleted. */
    method Forget(removed: seq<Line>)
      modifies this`deleted
      ensures deleted == old(deleted) + Origins(removed)
    {
      for i := 0 to |removed|
        invariant deleted == old(deleted) + Origins(removed[..i])
      {
        assert removed[..i + 1] == removed[..i] + [removed[i]];
        OriginsAppend(removed[..i], [removed[i]]);
        if removed[i].origin.Some? {
          deleted := deleted + {removed[i].origin.value};
        }
      }
      assert removed[..|removed|] == removed;
    }

    /** `splice(at..at, new_lines)` with the lines built from `text`. */
    method Splice(at: nat, text: seq<string>)
      requires Valid() && at <= |lines|
      modifies this`lines
      ensures Valid() && MarkCount(lines) == old(MarkCount(lines))
      ensures lines == old(lines)[..at] + Fresh(text) + old(lines)[at..]
    {
      FreshUntagged(text);
      assert lines == lines[..at] + lines[at..];
      InsertBlock(lines[..at], Fresh(text), lines[at..], deleted, total);
      lines := lines[..at] + Fresh(text) + lines[at..];
    }

    /** `drain(s..=e)` with the origins of the drained lines recorded. */
    method Cut(s: nat, e: nat)
      requires Valid() && s <= e < |lines|
      modifies this
      ensures Valid() && MarkCount(lines) <= old(MarkCount(lines))
      ensures lines == old(lines)[..s] + old(lines)[e + 1..]
      ensures deleted == old(deleted) + Origins(old(lines)[s..e + 1])
    {
      var removed := lines[s..e + 1];
      assert lines == lines[..s] + removed + lines[e + 1..];
      RemoveBlock(lines[..s], removed, lines[e + 1..], deleted, total);
      lines := lines[..s] + lines[e + 1..];
      Forget(removed);
    }

    /** A loop that rewrites each line of `s..e` with `f`. */
    method UpdateEach(s: nat, e: int, f: Line -> Line)
      requires s <= e + 1 && e < |lines|
      modifies this`lines
      ensures lines == UpdateRange(old(lines), s, e, f)
    {
      ghost var before := lines;
      assert lines == UpdateRange(before, s, s - 1, f);
      for idx := s to e + 1
        invariant lines == UpdateRange(before, s, idx - 1, f)
      {
        lines := lines[idx := f(lines[idx])];
      }
    }

    /** `d`: the lines of the range are removed and their origins deleted. */
    method DeleteRange(start: nat, end: nat) returns (r: Result<()>)
      requires Valid()
      modifies this
      ensures Valid() && MarkCount(lines) <= old(MarkCount(lines))
      ensures r.Ok? <==> ResolveRange(old(|lines|), start, end).Ok?
      ensures r.Err? ==> r.msg == ResolveRange(old(|lines|), start, end).msg && unchanged(this)
      ensures r.Ok? ==> lines == old(lines)[..start - 1] + old(lines)[end..]
      ensures r.Ok? ==> deleted == old(deleted) + Origins(old(lines)[start - 1..end])
    {
      var range := ResolveRange(|lines|, start, end);
      if range.Err? {
        return Err(range.msg);
      }
      var (s, e) := range.value;
      Cut(s, e);
      return Ok(());
    }

    /** `a`: the block goes after `end` (the range's last line, not its first),
        or in front of everything when `start` is the zero sentinel. */
    method AppendAfter(start: nat, end: nat, text: seq<string>) returns (r: Result<()>)
      requires Valid()
      modifies this
      ensures Valid() && MarkCount(lines) == old(MarkCount(lines)) && deleted == old(deleted)
      ensures var after := if start == 0 then 0 else end;
        && (after > old(|lines|) ==> r == Err(ErrAddressOutOfRange) && unchanged(this))
        && (after <= old(|lines|) ==> r.Ok? && lines == old(lines)[..after] + Fresh(text) + old(lines)[after..])
    {
      var after := if start == 0 then 0 else end;
      var insertAt := 0;
      if after != 0 {
        if after > |lines| {
          return Err(ErrAddressOutOfRange);
        }
        insertAt := after;
      }
      if text == [] {
        assert lines == lines[..insertAt] + Fresh(text) + lines[insertAt..];
        return Ok(());
      }
      Splice(insertAt, text);
      return Ok(());
    }

    /** `i`: the block goes before `before` (the range's first line), or in
        front of everything for the zero sentinel. */
    method InsertBefore(before: nat, text: seq<string>) returns (r: Result<()>)
      requires Valid()
      modifies this
      ensures Valid() && MarkCount(lines) == old(MarkCount(lines)) && deleted == old(deleted)
      ensures var at := if before == 0 then 0 else before - 1;
        && (before > old(|lines|) ==> r == Err(ErrAddressOutOfRange) && unchanged(this))
        && (before <= old(|lines|) ==> r.Ok? && lines == old(lines)[..at] + Fresh(text) + old(lines)[at..])
    {
      var insertAt := 0;
      if before != 0 {
        if before > |lines| {
          return Err(ErrAddressOutOfRange);
        }
        insertAt := before - 1;
      }
      if text == [] {
        assert lines == lines[..insertAt] + Fresh(text) + lines[insertAt..];
        return Ok(());
      }
      Splice(insertAt, text);
      return Ok(());
    }

    /** `c`: the range is deleted and the block put in its place. */
    method ChangeRange(start: nat, end: nat, text: seq<string>) returns (r: Result<()>)
      requires Valid()
      modifies this
      ensures Valid() && MarkCount(lines) <= old(MarkCount(lines))
      ensures r.Ok? <==> ResolveRange(old(|lines|), start, end).Ok?
      ensures r.Err? ==> r.msg == ResolveRange(old(|lines|), start, end).msg && unchanged(this)
      ensures r.Ok? ==> lines == old(lines)[..start - 1] + Fresh(text) + old(lines)[end..]
      ensures r.Ok? ==> deleted == old(deleted) + Origins(old(lines)[start - 1..end])
    {
      var range := ResolveRange(|lines|, start, end);
      if range.Err? {
        return Err(range.msg);
      }
      var (s, e) := range.value;
      Cut(s, e);
      if text == [] {
        assert lines == lines[..s] + Fresh(text) + lines[s..];
        return Ok(());
      }
      Splice(s, text);
      return Ok(());
    }
  
    /** A line's text replaced, and the line reported, only if it changes. */
    method SetText(idx: nat, t: string)
      requires Valid() && idx < |lines|
      modifies this`lines
      ensures Valid() && MarkCount(lines) == old(MarkCount(lines))
      ensures lines == old(lines)[idx := Retext(old(lines)[idx], t)]
    {
      ghost var before := lines;
      if t != lines[idx].text {
        lines := lines[idx := lines[idx].(text := t, modified := true)];
      }
      assert SameTags(before, lines);
      SameTagsAccount(before, lines);
    }

    /** `j` on one address: the line is joined with the next one, which is
        removed and its origin deleted. */
    method JoinWithNext(line: nat) returns (r: Result<()>)
      requires Valid()
      modifies this
      ensures Valid() && MarkCount(lines) <= old(MarkCount(lines))
      ensures r.Ok? <==> 0 < line < old(|lines|)
      ensures line == 0 ==> r == Err(ErrJoinZero)
      ensures line != 0 && old(|lines|) < 2 ==> r == Err(ErrJoinShort)
      ensures line != 0 && 2 <= old(|lines|) <= line ==> r == Err(ErrJoinLast)
      ensures r.Err? ==> unchanged(this)
      ensures r.Ok? ==> |lines| == old(|lines|) - 1
      ensures r.Ok? ==>
        var first := old(lines)[line - 1];
        lines == old(lines)[..line - 1]
          + [Retext(first, TextOps.JoinStrings(first.text, old(lines)[line].text))]
          + old(lines)[line + 1..]
      ensures r.Ok? ==> deleted == old(deleted) + OriginOf(old(lines)[line])
    {
      if line == 0 {
        return Err(ErrJoinZero);
      }
      if |lines| < 2 {
        return Err(ErrJoinShort);
      }
      if line >= |lines| {
        return Err(ErrJoinLast);
      }
      JoinAt(line - 1);
      return Ok(());
    }

    /** Line `idx` joined with the next one, which is removed. */
    method JoinAt(idx: nat)
      requires Valid() && idx + 1 < |lines|
      modifies this
      ensures Valid() && MarkCount(lines) <= old(MarkCount(lines))
      ensures lines == old(lines)[..idx]
        + [Retext(old(lines)[idx], TextOps.JoinStrings(old(lines)[idx].text, old(lines)[idx + 1].text))]
        + old(lines)[idx + 2..]
      ensures deleted == old(deleted) + OriginOf(old(lines)[idx + 1])
    {
      ghost var before := lines;
      var joined := TextOps.JoinStrings(lines[idx].text, lines[idx + 1].text);
      SetText(idx, joined);
      ghost var retexted := lines;
      Cut(idx + 1, idx + 1);
      assert retexted[idx + 1..idx + 2] == [before[idx + 1]];
      assert lines == before[..idx] + [retexted[idx]] + before[idx + 2..];
    }

    /** `j` on a range: the first line takes the join of all the texts, left to
        right; the other lines are removed and their origins deleted. */
    method JoinRange(start: nat, end: nat) returns (r: Result<()>)
      requires Valid()
      modifies this
      ensures Valid() && MarkCount(lines) <= old(MarkCount(lines))
      ensures r.Ok? <==> ResolveRange(old(|lines|), start, end).Ok?
      ensures r.Err? ==> r.msg == ResolveRange(old(|lines|), start, end).msg && unchanged(this)
      ensures r.Ok? ==> lines == JoinedRun(old(lines), start - 1, end - 1)
      ensures r.Ok? ==> deleted == old(deleted) + Origins(old(lines)[start..end])
    {
      var range := ResolveRange(|lines|, start, end);
      if range.Err? {
        return Err(range.msg);
      }
      var (s, e) := range.value;
      JoinBlock(s, e);
      return Ok(());
    }

    /** The lines `s..e` joined into the first one; a single line is left as
        it is. */
    method JoinBlock(s: nat, e: nat)
      requires Valid() && s <= e < |lines|
      modifies this
      ensures Valid() && MarkCount(lines) <= old(MarkCount(lines))
      ensures lines == JoinedRun(old(lines), s, e)
      ensures deleted == old(deleted) + Origins(old(lines)[s + 1..e + 1])
    {
      if s == e {
        JoinSingle(lines, s);
        return;
      }
      ghost var before := lines;
      var joined := JoinTexts(s, e);
      SetText(s, joined);
      ghost var retexted := lines;
      Cut(s + 1, e);
      JoinedRunSplit(before, retexted, s, e);
    }

    /** The accumulating loop of `join_range`. */
    method JoinTexts(s: nat, e: nat) returns (joined: string)
      requires s <= e < |lines|
      ensures joined == TextOps.JoinAll(Texts(lines[s..e + 1]))
    {
      ghost var ts := Texts(lines[s..e + 1]);
      joined := lines[s].text;
      assert ts[..1] == [ts[0]];
      for i := s + 1 to e + 1
        invariant joined == TextOps.JoinAll(ts[..i - s])
      {
        assert ts[i - s] == lines[i].text;
        assert ts[..i + 1 - s] == ts[..i - s] + [ts[i - s]];
        TextOps.JoinAllSnoc(ts[..i - s], ts[i - s]);
        joined := TextOps.JoinStrings(joined, lines[i].text);
      }
      assert ts[..e + 1 - s] == ts;
    }

    /** `m`: the range is taken out and put back after line `dest` of the
        buffer as it was, every moved line reported as modified. */
    method MoveRange(start: nat, end: nat, dest: nat) returns (r: Result<()>)
      requires Valid()
      modifies this
      ensures Valid() && MarkCount(lines) == old(MarkCount(lines))
      ensures ResolveRange(old(|lines|), start, end).Err? ==> r == Err(ResolveRange(old(|lines|), start, end).msg)
      ensures ResolveRange(old(|lines|), start, end).Ok? ==>
        && (dest == 0 ==> r == Err(ErrDestZero))
        && (0 < dest && old(|lines|) < dest ==> r == Err(ErrDestRange))
        && (0 < dest <= old(|lines|) && start <= dest <= end ==> r == Err(ErrDestInside))
      ensures r.Ok? <==>
        ResolveRange(old(|lines|), start, end).Ok? && 0 < dest <= old(|lines|) && !(start <= dest <= end)
      ensures r.Err? ==> unchanged(this)
      ensures r.Ok? ==> deleted == old(deleted) && |lines| == old(|lines|)
      ensures r.Ok? ==> multiset(Texts(lines)) == multiset(Texts(old(lines)))
      ensures r.Ok? && dest < start ==>
        lines == old(lines)[..dest] + Touched(old(lines)[start - 1..end]) + old(lines)[dest..start - 1] + old(lines)[end..]
      ensures r.Ok? && end < dest ==>
        lines == old(lines)[..start - 1] + old(lines)[end..dest] + Touched(old(lines)[start - 1..end]) + old(lines)[dest..]
    {
      var range := ResolveRange(|lines|, start, end);
      if range.Err? {
        return Err(range.msg);
      }
      var (s, e) := range.value;
      if dest == 0 {
        return Err(ErrDestZero);
      }
      if dest > |lines| {
        return Err(ErrDestRange);
      }
      if dest >= start && dest <= end {
        return Err(ErrDestInside);
      }
      MoveBlock(s, e, dest);
      return Ok(());
    }

    /** The block `s..e` taken out and put back after line `dest` of the
        buffer as it was. */
    method MoveBlock(s: nat, e: nat, dest: nat)
      requires Valid() && s <= e < |lines| && 0 < dest <= |lines| && !(s + 1 <= dest <= e + 1)
      modifies this`lines
      ensures Valid() && MarkCount(lines) == old(MarkCount(lines))
      ensures multiset(Texts(lines)) == multiset(Texts(old(lines)))
      ensures dest < s + 1 ==>
        lines == old(lines)[..dest] + Touched(old(lines)[s..e + 1]) + old(lines)[dest..s] + old(lines)[e + 1..]
      ensures e + 1 < dest ==>
        lines == old(lines)[..s] + old(lines)[e + 1..dest] + Touched(old(lines)[s..e + 1]) + old(lines)[dest..]
    {
      ghost var before := lines;
      var segLen := e - s + 1;
      var seg := lines[s..e + 1];
      lines := lines[..s] + lines[e + 1..];
      seg := TouchAll(seg);
      var insertAt := if dest < s + 1 then dest else dest - segLen;
      MovedShape(before, s, e, dest);
      lines := lines[..insertAt] + seg + lines[insertAt..];
      MoveAccount(before, s, e, dest, deleted, total);
    }

    /** The loop of `move_range` that marks every moved line as modified. */
    static method TouchAll(seg: seq<Line>) returns (t: seq<Line>)
      ensures t == Touched(seg)
    {
      t := seg;
      for k := 0 to |t|
        invariant |t| == |seg|
        invariant forall j :: 0 <= j < k ==> t[j] == seg[j].(modified := true)
        invariant forall j :: k <= j < |t| ==> t[j] == seg[j]
      {
        t := t[k := t[k].(modified := true)];
      }
    }

    /** `t`: origin-less, modified copies of the range go after line `dest`;
        the originals stay where they are. */
    method CopyRange(start: nat, end: nat, dest: nat) returns (r: Result<()>)
      requires Valid()
      modifies this
      ensures Valid() && MarkCount(lines) == old(MarkCount(lines))
      ensures ResolveRange(old(|lines|), start, end).Err? ==> r == Err(ResolveRange(old(|lines|), start, end).msg)
      ensures ResolveRange(old(|lines|), start, end).Ok? ==>
        && (dest == 0 ==> r == Err(ErrDestZero))
        && (0 < dest && old(|lines|) < dest ==> r == Err(ErrDestRange))
      ensures r.Ok? <==> ResolveRange(old(|lines|), start, end).Ok? && 0 < dest <= old(|lines|)
      ensures r.Err? ==> unchanged(this)
      ensures r.Ok? ==> deleted == old(deleted) && |lines| == old(|lines|) + (end - start + 1)
      ensures r.Ok? ==> lines == old(lines)[..dest] + Clones(old(lines)[start - 1..end]) + old(lines)[dest..]
    {
      var range := ResolveRange(|lines|, start, end);
      if range.Err? {
        return Err(range.msg);
      }
      var (s, e) := range.value;
      if dest == 0 {
        return Err(ErrDestZero);
      }
      if dest > |lines| {
        return Err(ErrDestRange);
      }
      var seg := Clones(lines[s..e + 1]);
      ClonesUntagged(lines[s..e + 1]);
      assert lines == lines[..dest] + lines[dest..];
      InsertBlock(lines[..dest], seg, lines[dest..], deleted, total);
      lines := lines[..dest] + seg + lines[dest..];
      return Ok(());
    }

    /** `UpdateEach` with a rewrite that keeps origins and marks. */
    method RewriteEach(s: nat, e: nat, f: Line -> Line)
      requires Valid() && s <= e < |lines|
      requires forall l :: f(l).origin == l.origin && f(l).globalMark == l.globalMark
      modifies this`lines
      ensures Valid() && MarkCount(lines) == old(MarkCount(lines))
      ensures lines == UpdateRange(old(lines), s, e, f)
    {
      ghost var before := lines;
      UpdateEach(s, e, f);
      UpdateRangeTags(before, s, e, f);
      SameTagsAccount(before, lines);
    }

    /** `>`: every line of the range gets `levels` four-space indents and is
        reported as modified; zero levels change nothing. */
    method IndentRange(start: nat, end: nat, levels: nat) returns (r: Result<()>)
      requires Valid()
      modifies this
      ensures Valid() && MarkCount(lines) == old(MarkCount(lines)) && deleted == old(deleted)
      ensures r.Ok? <==> ResolveRange(old(|lines|), start, end).Ok?
      ensures r.Err? ==> r.msg == ResolveRange(old(|lines|), start, end).msg
      ensures r.Err? || levels == 0 ==> lines == old(lines)
      ensures r.Ok? ==> |lines| == old(|lines|) && forall k :: 0 <= k < |lines| ==>
        lines[k] == if levels > 0 && start <= k + 1 <= end then Indented(TextOps.IndentPrefix(levels), old(lines)[k]) else old(lines)[k]
    {
      var range := ResolveRange(|lines|, start, end);
      if range.Err? {
        return Err(range.msg);
      }
      var (s, e) := range.value;
      if levels == 0 {
        return Ok(());
      }
      var prefix := TextOps.IndentPrefix(levels);
      RewriteEach(s, e, l => Indented(prefix, l));
      return Ok(());
    }

    /** `<`: every line of the range loses up to `levels` indentation levels and
        is reported only if its text changes; zero levels change nothing. */
    method DedentRange(start: nat, end: nat, levels: nat) returns (r: Result<()>)
      requires Valid()
      modifies this
      ensures Valid() && MarkCount(lines) == old(MarkCount(lines)) && deleted == old(deleted)
      ensures r.Ok? <==> ResolveRange(old(|lines|), start, end).Ok?
      ensures r.Err? ==> r.msg == ResolveRange(old(|lines|), start, end).msg
      ensures r.Err? || levels == 0 ==> lines == old(lines)
      ensures r.Ok? ==> |lines| == old(|lines|) && forall k :: 0 <= k < |lines| ==>
        lines[k] == if levels > 0 && start <= k + 1 <= end then DedentLine(levels, old(lines)[k]) else old(lines)[k]
    {
      var range := ResolveRange(|lines|, start, end);
      if range.Err? {
        return Err(range.msg);
      }
      var (s, e) := range.value;
      if levels == 0 {
        return Ok(());
      }
      DedentEach(s, e, levels);
      return Ok(());
    }

    /** The loop of `dedent_range`. */
    method DedentEach(s: nat, e: nat, levels: nat)
      requires Valid() && s <= e < |lines|
      modifies this`lines
      ensures Valid() && MarkCount(lines) == old(MarkCount(lines))
      ensures |lines| == old(|lines|) && forall k :: 0 <= k < |lines| ==>
        lines[k] == if s <= k <= e then DedentLine(levels, old(lines)[k]) else old(lines)[k]
    {
      for idx := s to e + 1
        invariant Valid() && MarkCount(lines) == old(MarkCount(lines))
        invariant |lines| == old(|lines|) && forall k :: 0 <= k < |lines| ==>
          lines[k] == if s <= k < idx then DedentLine(levels, old(lines)[k]) else old(lines)[k]
      {
        var t := TextOps.Dedent(lines[idx].text, levels);
        SetText(idx, t);
      }
    }

    /** `s`: the range's lines rewritten by the pattern; a line is reported only
        if its text changes. */
    method SubstituteRange(start: nat, end: nat, sub: Subst) returns (r: Result<()>)
      requires Valid()
      modifies this
      ensures Valid() && MarkCount(lines) == old(MarkCount(lines)) && deleted == old(deleted)
      ensures r.Ok? <==> ResolveRange(old(|lines|), start, end).Ok? && lib.compiles(sub.pattern, sub.caseInsensitive)
      ensures ResolveRange(old(|lines|), start, end).Err? ==> r == Err(ResolveRange(old(|lines|), start, end).msg)
      ensures ResolveRange(old(|lines|), start, end).Ok? && !lib.compiles(sub.pattern, sub.caseInsensitive) ==>
        r == Err(ErrInvalidRegex)
      ensures r.Err? ==> lines == old(lines)
      ensures r.Ok? ==> |lines| == old(|lines|) && forall k :: 0 <= k < |lines| ==>
        lines[k] == if start <= k + 1 <= end then SubstLine(lib, sub, old(lines)[k]) else old(lines)[k]
    {
      var range := ResolveRange(|lines|, start, end);
      if range.Err? {
        return Err(range.msg);
      }
      var (s, e) := range.value;
      var re := BuildRegex(lib, sub.pattern, sub.caseInsensitive);
      if re.Err? {
        return Err(re.msg);
      }
      RewriteEach(s, e, l => SubstLine(lib, sub, l));
      return Ok(());
    }

    /** `sort`: the range ends up in text order, with the same texts; it is
        reported only if the order changed. Whole lines are sorted, so each
        line's origin and mark move with its text. */
    method SortRange(start: nat, end: nat) returns (r: Result<()>)
      requires Valid()
      modifies this
      ensures Valid() && MarkCount(lines) == old(MarkCount(lines)) && deleted == old(deleted)
      ensures r.Ok? <==> ResolveRange(old(|lines|), start, end).Ok?
      ensures r.Err? ==> r.msg == ResolveRange(old(|lines|), start, end).msg && lines == old(lines)
      ensures r.Ok? ==> 1 <= start <= end <= old(|lines|) && lines == TextOps.SortedLines(old(lines), start - 1, end - 1)
    {
      var range := ResolveRange(|lines|, start, end);
      if range.Err? {
        return Err(range.msg);
      }
      SortResolved(start - 1, end - 1);
      return Ok(());
    }

    /** `sort_range` once the range resolved to `s..e`: a single line is
        left alone and a longer run is sorted. */
    method SortResolved(s: nat, e: nat)
      requires Valid() && s <= e < |lines|
      modifies this`lines
      ensures Valid() && MarkCount(lines) == old(MarkCount(lines))
      ensures lines == TextOps.SortedLines(old(lines), s, e)
    {
      if s == e {
        TextOps.SortedSingle(lines, s);
      } else {
        SortBlock(s, e);
      }
    }

    /** The sort of `s..e` and the loop that reports a reordered range. */
    method SortBlock(s: nat, e: nat)
      requires Valid() && s <= e < |lines|
      modifies this`lines
      ensures Valid() && MarkCount(lines) == old(MarkCount(lines))
      ensures lines == TextOps.SortedLines(old(lines), s, e)
    {
      ghost var before := lines;
      var seg := lines[s..e + 1];
      PlaceSorted(s, e);
      var sorted := lines[s..e + 1];
      TextOps.SortByTextSpec(seg);
      TextOps.SortChangesUnsorted(seg);
      if Texts(seg) != Texts(sorted) {
        ReportRun(s, e);
        TextOps.SortedByTexts(Touched(sorted), sorted);
      } else {
        TextOps.SortByTextSorted(seg);
        assert before == before[..s] + seg + before[e + 1..];
      }
      TextOps.SortedLinesPlaced(before, lines, s, e);
    }

    /** The loop of `sort` that reports every line of a reordered run. */
    method ReportRun(s: nat, e: nat)
      requires Valid() && s <= e < |lines|
      modifies this`lines
      ensures Valid() && MarkCount(lines) == old(MarkCount(lines))
      ensures |lines| == old(|lines|) && lines[..s] == old(lines)[..s] && lines[e + 1..] == old(lines)[e + 1..]
      ensures lines[s..e + 1] == Touched(old(lines)[s..e + 1])
      ensures forall k :: s <= k <= e ==> lines[k].modified
    {
      ghost var before := lines;
      RewriteEach(s, e, Touch);
      TouchRange(before, s, e);
      UpdateRangeOutside(before, s, e, Touch);
    }

    /** The sort itself: the run `s..e` replaced by its sorted order. */
    method PlaceSorted(s: nat, e: nat)
      requires Valid() && s <= e < |lines|
      modifies this`lines
      ensures Valid() && MarkCount(lines) == old(MarkCount(lines))
      ensures |lines| == old(|lines|) && lines[..s] == old(lines)[..s] && lines[e + 1..] == old(lines)[e + 1..]
      ensures lines[s..e + 1] == TextOps.SortByText(old(lines)[s..e + 1])
      ensures lines == old(lines)[..s] + lines[s..e + 1] + old(lines)[e + 1..]
      ensures multiset(Texts(lines[s..e + 1])) == multiset(Texts(old(lines)[s..e + 1]))
    {
      ghost var before := lines;
      var sorted := TextOps.SortByText(lines[s..e + 1]);
      SortAccount(lines, s, e, deleted, total);
      lines := lines[..s] + sorted + lines[e + 1..];
      assert lines[..s] == before[..s] && lines[s..e + 1] == sorted && lines[e + 1..] == before[e + 1..];
    }

    /** `p`: the range is reported as modified; no text changes. */
    method PrintRange(start: nat, end: nat) returns (r: Result<()>)
      requires Valid()
      modifies this
      ensures Valid() && MarkCount(lines) == old(MarkCount(lines)) && deleted == old(deleted)
      ensures r.Ok? <==> ResolveRange(old(|lines|), start, end).Ok?
      ensures r.Err? ==> r.msg == ResolveRange(old(|lines|), start, end).msg && lines == old(lines)
      ensures r.Ok? ==> |lines| == old(|lines|) && Texts(lines) == Texts(old(lines))
      ensures r.Ok? ==> forall k :: 0 <= k < |lines| ==>
        lines[k] == if start <= k + 1 <= end then Touch(old(lines)[k]) else old(lines)[k]
    {
      var range := ResolveRange(|lines|, start, end);
      if range.Err? {
        return Err(range.msg);
      }
      var (s, e) := range.value;
      RewriteEach(s, e, Touch);
      return Ok(());
    }

    /** The loops of `global` that clear every mark. */
    method ClearMarks()
      requires Valid()
      modifies this`lines
      ensures Valid() && Unmarked(lines)
      ensures lines == UpdateRange(old(lines), 0, |old(lines)| - 1, Unmark)
    {
      ghost var before := lines;
      UpdateEach(0, |lines| - 1, Unmark);
      UpdateRangeOrigins(before, 0, |before| - 1, Unmark);
      SameOriginsAccount(before, lines);
    }

    /** The mark of line `idx` taken off before its subcommand runs. */
    method ClearMark(idx: nat)
      requires Valid() && idx < |lines| && lines[idx].globalMark
      modifies this`lines
      ensures Valid() && MarkCount(lines) == old(MarkCount(lines)) - 1
      ensures lines == old(lines)[idx := Unmark(old(lines)[idx])]
    {
      ghost var before := lines;
      ClearOneMark(lines, idx);
      lines := lines[idx := lines[idx].(globalMark := false)];
      assert SameOrigins(before, lines);
      SameOriginsAccount(before, lines);
    }

    /** `g`, `g!` and `v`: the range and the pattern are checked before the
        walk; a delete keeps exactly the survivors of the selection. */
    method GlobalRange(start: nat, end: nat, invert: bool, pattern: string, sub: Subcommand) returns (r: Result<()>)
      requires Valid()
      modifies this
      decreases sub, 4
      ensures Valid()
      ensures r.Ok? ==> Unmarked(lines)
      ensures ResolveRange(old(|lines|), start, end).Err? ==>
        r == Err(ResolveRange(old(|lines|), start, end).msg) && unchanged(this)
      ensures ResolveRange(old(|lines|), start, end).Ok? && !lib.compiles(pattern, false) ==>
        r == Err(ErrInvalidRegex) && unchanged(this)
      ensures sub == Delete && ResolveRange(old(|lines|), start, end).Ok? && lib.compiles(pattern, false) ==> r.Ok?
      ensures r.Ok? && sub == Delete ==>
        lines == Survivors(old(lines), start - 1, end - 1, Selects(lib, pattern, invert))
    {
      var range := ResolveRange(|lines|, start, end);
      if range.Err? {
        return Err(range.msg);
      }
      var (s, e) := range.value;
      var re := BuildRegex(lib, pattern, false);
      if re.Err? {
        return Err(re.msg);
      }
      r := GlobalWalk(s, e, Selects(lib, pattern, invert), sub);
    }

    /** The body of `global` once the range and pattern are known: every mark in
        the buffer is cleared, the lines of `s..e` the selector accepts are
        marked, the marked lines get the subcommand, and every mark is cleared
        again. */
    method GlobalWalk(s: nat, e: nat, sel: string -> bool, sub: Subcommand) returns (r: Result<()>)
      requires Valid() && s <= e < |lines|
      modifies this
      decreases sub, 3
      ensures Valid()
      ensures r.Ok? ==> Unmarked(lines)
      ensures sub == Delete ==> r.Ok?
      ensures r.Ok? && sub == Delete ==> lines == Survivors(old(lines), s, e, sel)
    {
      ghost var before := lines;
      ClearMarks();
      MarkRange(s, e, sel);
      assert lines == Marked(before, s, e, sel);
      r := RunMarked(sub);
      if r.Err? {
        return r;
      }
      ghost var walked := lines;
      ClearMarks();
      if sub == Delete {
        MarkedSurvivors(before, s, e, sel);
        UnmarkAllNoop(walked);
      }
      return Ok(());
    }

    /** The loop of `global` that marks the lines of `s..e` the selector accepts. */
    method MarkRange(s: nat, e: nat, sel: string -> bool)
      requires Valid() && s <= e < |lines|
      modifies this`lines
      ensures Valid()
      ensures lines == UpdateRange(old(lines), s, e, MarkWith(sel))
    {
      ghost var before := lines;
      UpdateEach(s, e, MarkWith(sel));
      UpdateRangeOrigins(before, s, e, MarkWith(sel));
      SameOriginsAccount(before, lines);
    }

    /** The walk of `global`: a marked line loses its mark and gets the
        subcommand; the index only advances past unmarked lines. Every step
        either lowers the number of marks or advances. */
    method RunMarked(sub: Subcommand) returns (r: Result<()>)
      requires Valid()
      modifies this
      decreases sub, 2
      ensures Valid()
      ensures sub == Delete ==> r.Ok?
      ensures r.Ok? && sub == Delete ==> lines == Unmarks(old(lines))
    {
      var idx := 0;
      while idx < |lines|
        invariant Valid()
        invariant sub == Delete ==> idx <= |lines| && Unmarked(lines[..idx]) && Unmarks(lines) == Unmarks(old(lines))
        decreases MarkCount(lines), |lines| - idx
      {
        if lines[idx].globalMark {
          ghost var marked := lines;
          ClearMark(idx);
          var res := ApplySubcommand(idx + 1, idx + 1, false, sub);
          if res.Err? {
            return res;
          }
          if sub == Delete {
            DeleteMarkedStep(marked, marked[idx := Unmark(marked[idx])], idx);
          }
          continue;
        }
        idx := idx + 1;
      }
      if sub == Delete {
        assert lines[..idx] == lines;
        UnmarksNone(lines);
      }
      return Ok(());
    }

    /** `apply_subcommand`: the subcommand on the range `start..end`; `j` joins
        the range with a comma and the line with the next one without. No
        subcommand adds a mark. */
    method ApplySubcommand(start: nat, end: nat, hasComma: bool, sub: Subcommand) returns (r: Result<()>)
      requires Valid()
      modifies this
      decreases sub, 1
      ensures Valid()
      ensures r.Ok? ==> MarkCount(lines) <= old(MarkCount(lines))
      ensures !sub.Global? ==> Routed(lib, old(lines), lines, start, end, hasComma, sub, r)
    {
      match sub {
        case Global(invert, pattern, cmd) =>
          r := GlobalRange(start, end, invert, pattern, cmd);
          if r.Ok? {
            UnmarkedCount(lines);
          }
        case Substitute(_) | Indent(_) | Dedent(_) | Sort | Print => r := ApplyLineEdit(start, end, sub);
        case _ => r := ApplyEdit(start, end, hasComma, sub);
      }
    }

    /** The arms of `apply_subcommand` that add, remove or move lines. */
    method ApplyEdit(start: nat, end: nat, hasComma: bool, sub: Subcommand) returns (r: Result<()>)
      requires Valid()
      requires sub.Delete? || sub.Append? || sub.Insert? || sub.Change? || sub.Join? || sub.Move? || sub.Copy?
      modifies this
      ensures Valid() && MarkCount(lines) <= old(MarkCount(lines))
      ensures Routed(lib, old(lines), lines, start, end, hasComma, sub, r)
    {
      match sub {
        case Delete => r := DeleteRange(start, end);
        case Append(text) => r := AppendAfter(start, end, text);
        case Insert(text) => r := InsertBefore(start, text);
        case Change(text) => r := ChangeRange(start, end, text);
        case Join =>
          if hasComma {
            r := JoinRange(start, end);
          } else {
            r := JoinWithNext(start);
          }
        case Move(dest) => r := MoveRange(start, end, dest.lineno);
        case Copy(dest) => r := CopyRange(start, end, dest.lineno);
      }
    }

    /** The arms of `apply_subcommand` that rewrite the lines of the range in
        place: `s`, `>`, `<`, `sort` and `p`. */
    method ApplyLineEdit(start: nat, end: nat, sub: Subcommand) returns (r: Result<()>)
      requires Valid()
      requires sub.Substitute? || sub.Indent? || sub.Dedent? || sub.Sort? || sub.Print?
      modifies this
      ensures Valid() && MarkCount(lines) == old(MarkCount(lines))
      ensures Routed(lib, old(lines), lines, start, end, false, sub, r)
    {
      match sub {
        case Substitute(s) => r := SubstituteRange(start, end, s);
        case Indent(levels) => r := IndentRange(start, end, levels);
        case Dedent(levels) => r := DedentRange(start, end, levels);
        case Sort => r := SortRange(start, end);
        case Print => r := PrintRange(start, end);
      }
    }

    /** `apply_command`: a second address defaults to the first; a backwards
        range is refused unless it starts at the zero sentinel. */
    method ApplyCommand(c: Command) returns (r: Result<()>)
      requires Valid()
      modifies this
      ensures Valid()
      ensures var start := c.addr1.lineno;
        var end := if c.addr2.Some? then c.addr2.value.lineno else start;
        && (end < start && start != 0 ==> r == Err(ErrInvalidRange) && unchanged(this))
        && (c.cmd == Delete && 1 <= start <= end <= old(|lines|) ==>
              r.Ok? && lines == old(lines)[..start - 1] + old(lines)[end..])
        && (!(end < start && start != 0) && !c.cmd.Global? ==>
              Routed(lib, old(lines), lines, start, end, c.hasComma, c.cmd, r))
    {
      var start := c.addr1.lineno;
      var end := if c.addr2.Some? then c.addr2.value.lineno else start;
      if start > end && start != 0 {
        return Err(ErrInvalidRange);
      }
      r := ApplySubcommand(start, end, c.hasComma, c.cmd);
    }
  }

  /** Where `move_range` puts the block: after taking it out, inserting at
      `dest` (moving up) or `dest - seg_len` (moving down) puts it right after
      the line that was line `dest` before the move. */
  lemma MovedShape(before: seq<Line>, s: nat, e: nat, dest: nat)
    requires s <= e < |before| && 0 < dest <= |before| && !(s + 1 <= dest <= e + 1)
    ensures var rest := before[..s] + before[e + 1..];
      var at := if dest < s + 1 then dest else dest - (e - s + 1);
      var seg := Touched(before[s..e + 1]);
      && at <= |rest|
      && (dest < s + 1 ==> rest[..at] + seg + rest[at..] == before[..dest] + seg + before[dest..s] + before[e + 1..])
      && (e + 1 < dest ==> rest[..at] + seg + rest[at..] == before[..s] + before[e + 1..dest] + seg + before[dest..])
  {
    var rest := before[..s] + before[e + 1..];
    if dest < s + 1 {
      assert rest[..dest] == before[..dest];
      assert rest[dest..] == before[dest..s] + before[e + 1..];
    } else {
      var at := dest - (e - s + 1);
      assert rest[..at] == before[..s] + before[e + 1..dest];
      assert rest[at..] == before[dest..];
    }
  }

  /** Both shapes of a move keep the account, the marks and the texts. */
  lemma MoveAccount(before: seq<Line>, s: nat, e: nat, dest: nat, deleted: set<nat>, n: nat)
    requires s <= e < |before| && 0 < dest <= |before| && !(s + 1 <= dest <= e + 1)
    requires Accounted(before, deleted, n)
    ensures var seg := before[s..e + 1];
      var after := if dest < s + 1 then before[..dest] + Touched(seg) + before[dest..s] + before[e + 1..]
                   else before[..s] + before[e + 1..dest] + Touched(seg) + before[dest..];
      && Accounted(after, deleted, n)
      && MarkCount(after) == MarkCount(before)
      && multiset(Texts(after)) == multiset(Texts(before))
  {
    var seg := before[s..e + 1];
    assert Texts(Touched(seg)) == Texts(seg);
    if dest < s + 1 {
      var a, b, z := before[..dest], before[dest..s], before[e + 1..];
      assert before == a + b + seg + z;
      SwapBlocks(a, b, seg, z, b, Touched(seg), deleted, n);
      SwapTexts(a, b, seg, z, b, Touched(seg));
    } else {
      var a, c, z := before[..s], before[e + 1..dest], before[dest..];
      assert before == a + seg + c + z;
      SwapBlocks(a, seg, c, z, Touched(seg), c, deleted, n);
      SwapTexts(a, seg, c, z, Touched(seg), c);
    }
  }

  /** Retexting the first line of a run and cutting the rest gives the joined
      run; the lines cut are the run's own. */
  lemma JoinedRunSplit(before: seq<Line>, retexted: seq<Line>, s: nat, e: nat)
    requires s < e < |before|
    requires retexted == before[s := Retext(before[s], TextOps.JoinAll(Texts(before[s..e + 1])))]
    ensures retexted[..s + 1] + retexted[e + 1..] == JoinedRun(before, s, e)
    ensures retexted[s + 1..e + 1] == before[s + 1..e + 1]
  {
    assert retexted[..s + 1] == before[..s] + [retexted[s]];
    assert retexted[e + 1..] == before[e + 1..];
  }

  /** Joining a single line changes nothing and removes nothing. */
  lemma JoinSingle(ls: seq<Line>, s: nat)
    requires s < |ls|
    ensures ls == JoinedRun(ls, s, s)
    ensures Origins(ls[s + 1..s + 1]) == {}
  {
    assert Texts(ls[s..s + 1]) == [ls[s].text];
  }

  /** A routed `>` or `<` with zero levels succeeds without changing a line. */
  lemma ZeroLevelsKeep(lib: RegexLib, before: seq<Line>, after: seq<Line>, start: nat, end: nat,
                        hasComma: bool, sub: Subcommand)
    requires sub == Indent(0) || sub == Dedent(0)
    requires Routed(lib, before, after, start, end, hasComma, sub, Ok(()))
    ensures after == before
  {
  }

  /** Sorting a run keeps the account, the marks and the texts. */
  lemma SortAccount(ls: seq<Line>, s: nat, e: nat, deleted: set<nat>, n: nat)
    requires s <= e < |ls| && Accounted(ls, deleted, n)
    ensures var sorted := TextOps.SortByText(ls[s..e + 1]);
      && |sorted| == e + 1 - s
      && Accounted(ls[..s] + sorted + ls[e + 1..], deleted, n)
      && MarkCount(ls[..s] + sorted + ls[e + 1..]) == MarkCount(ls)
      && multiset(Texts(sorted)) == multiset(Texts(ls[s..e + 1]))
  {
    assert ls == ls[..s] + ls[s..e + 1] + ls[e + 1..];
    SortBlockAccount(ls[..s], ls[s..e + 1], ls[e + 1..], deleted, n);
  }

  /** Sorting the middle block of `a + b + c` keeps the account and the marks. */
  lemma SortBlockAccount(a: seq<Line>, b: seq<Line>, c: seq<Line>, deleted: set<nat>, n: nat)
    requires Accounted(a + b + c, deleted, n)
    ensures var sorted := TextOps.SortByText(b);
      && |sorted| == |b|
      && Accounted(a + sorted + c, deleted, n)
      && MarkCount(a + sorted + c) == MarkCount(a + b + c)
      && multiset(Texts(sorted)) == multiset(Texts(b))
  {
    var sorted := TextOps.SortByText(b);
    TextOps.SortByTextSpec(b);
    PermutationTags(b, sorted);
    ReplaceBlock(a, b, sorted, c, deleted, n);
  }

  /** Reporting the lines `s..e` of a buffer reports exactly that run. */
  lemma TouchRange(ls: seq<Line>, s: nat, e: nat)
    requires s <= e < |ls|
    ensures UpdateRange(ls, s, e, Touch)[s..e + 1] == Touched(ls[s..e + 1])
  {
    var a := UpdateRange(ls, s, e, Touch)[s..e + 1];
    var b := Touched(ls[s..e + 1]);
    forall i | 0 <= i < |a|
      ensures a[i] == b[i]
    {
      assert a[i] == UpdateRange(ls, s, e, Touch)[s + i] == Touch(ls[s + i]);
      assert b[i] == ls[s..e + 1][i].(modified := true) == ls[s + i].(modified := true);
    }
  }

  /** Dropping a marked line does not change the unmarked lines. */
  lemma DropMarked(a: seq<Line>, x: Line, b: seq<Line>)
    requires x.globalMark
    ensures Unmarks(a + [x] + b) == Unmarks(a + b)
  {
    UnmarksAppend(a + [x], b);
    UnmarksAppend(a, [x]);
    UnmarksAppend(a, b);
    assert Unmarks([x]) == Unmarks([]) + [];
  }

  /** One step of a global delete: the marked line at `idx` is cleared and then
      deleted, which leaves the unmarked lines as they were. */
  lemma DeleteMarkedStep(marked: seq<Line>, cleared: seq<Line>, idx: nat)
    requires idx < |marked| && marked[idx].globalMark && Unmarked(marked[..idx])
    requires cleared == marked[idx := Unmark(marked[idx])]
    ensures Unmarks(cleared[..idx] + cleared[idx + 1..]) == Unmarks(marked)
    ensures Unmarked((cleared[..idx] + cleared[idx + 1..])[..idx])
  {
    assert cleared[..idx] == marked[..idx] && cleared[idx + 1..] == marked[idx + 1..];
    assert marked == marked[..idx] + [marked[idx]] + marked[idx + 1..];
    DropMarked(marked[..idx], marked[idx], marked[idx + 1..]);
    assert (cleared[..idx] + cleared[idx + 1..])[..idx] == marked[..idx];
  }

  // ----- edit_text -----

  /** What `edit_text` returns: the edited lines, the address of each, the
      1-based new-file numbers of the reported lines and the old-file numbers
      of the deleted ones. */
  datatype EditResult = EditResult(lines: seq<string>, hashes: seq<string>, modified: seq<nat>, deleted: seq<nat>)

  /** The address printed for each line of the output. */
  function Hashes(hasher: LineHasher, lines: seq<string>): seq<string> {
    seq(|lines|, i requires 0 <= i < |lines| => FormatLnHash(hasher, i + 1, lines[i]))
  }

  /** The new-file line numbers of the reported lines, in order. */
  function ModifiedPositions(ls: seq<Line>): (r: seq<nat>)
    ensures StrictlyIncreasing(r)
    ensures forall k :: k in r <==> 1 <= k <= |ls| && ls[k - 1].modified
    decreases |ls|
  {
    if ls == [] then []
    else
      var rest := ModifiedPositions(ls[..|ls| - 1]);
      if ls[|ls| - 1].modified then IncreasingSnoc(rest, |ls|); rest + [|ls|] else rest
  }

  /** A number above every element extends an increasing sequence. */
  lemma IncreasingSnoc(s: seq<nat>, x: nat)
    requires StrictlyIncreasing(s) && forall y :: y in s ==> y < x
    ensures StrictlyIncreasing(s + [x])
  {
    var t := s + [x];
    forall i, j | 0 <= i < j < |t|
      ensures t[i] < t[j]
    {
      assert t[i] == s[i] && s[i] in s;
      if j < |s| {
        assert t[j] == s[j];
      }
    }
  }

  /** The numbers of `d` below `n`, ascending: the iteration order of the
      ordered set of deleted numbers. */
  function Ascending(d: set<nat>, n: nat): (r: seq<nat>)
    ensures StrictlyIncreasing(r)
    ensures forall x :: x in r <==> x in d && x < n
    decreases n
  {
    if n == 0 then []
    else
      var rest := Ascending(d, n - 1);
      if n - 1 in d then IncreasingSnoc(rest, n - 1); rest + [n - 1] else rest
  }

  /** The shape every successful result has over an input of `n` lines: one
      address per output line, naming that line; reported and deleted numbers
      ascending, without repeats, within the new and the old file. */
  predicate WellFormed(hasher: LineHasher, n: nat, res: EditResult) {
    && |res.hashes| == |res.lines|
    && (forall i :: 0 <= i < |res.lines| ==> res.hashes[i] == FormatLnHash(hasher, i + 1, res.lines[i]))
    && StrictlyIncreasing(res.modified) && (forall k :: k in res.modified ==> 1 <= k <= |res.lines|)
    && StrictlyIncreasing(res.deleted) && (forall k :: k in res.deleted ==> 1 <= k <= n)
  }

  /** The result of an empty script: the input as it was, nothing reported. */
  function Unedited(hasher: LineHasher, input: seq<string>): EditResult {
    EditResult(input, Hashes(hasher, input), [], [])
  }

  /** `edit_text`: the input split into lines, every address of the script
      checked against it, the commands applied in order (the first failure
      ends the edit), and the result read off the buffer. */
  method EditText(hasher: LineHasher, lib: RegexLib, input: string, commands: seq<Command>) returns (r: Result<EditResult>)
    ensures VerifyEach(hasher, Lines(input), commands).Err? ==> r == Err(VerifyEach(hasher, Lines(input), commands).msg)
    ensures r.Ok? ==> forall k :: 0 <= k < |commands| ==> CommandCurrent(hasher, Lines(input), commands[k])
    ensures r.Ok? ==> WellFormed(hasher, |Lines(input)|, r.value)
    ensures commands == [] ==> r == Ok(Unedited(hasher, Lines(input)))
  {
    var inputLines := Lines(input);
    var v := VerifyAll(hasher, inputLines, commands);
    if v.Err? {
      return Err(v.msg);
    }
    VerifyEachSpec(hasher, inputLines, commands);
    var eng := new Engine(inputLines, lib);
    for i := 0 to |commands|
      invariant eng.Valid() && eng.total == |inputLines|
      invariant commands == [] ==> eng.lines == Initial(inputLines) && eng.deleted == {}
    {
      var res := eng.ApplyCommand(commands[i]);
      if res.Err? {
        return Err(res.msg);
      }
    }
    r := Ok(Result(hasher, eng.lines, eng.deleted, |inputLines|));
    if commands == [] {
      NothingToReport(hasher, inputLines);
    }
  }

  /** The result read off a buffer over an input of `n` lines. */
  function Result(hasher: LineHasher, ls: seq<Line>, deleted: set<nat>, n: nat): (r: EditResult)
    requires Accounted(ls, deleted, n)
    ensures WellFormed(hasher, n, r)
  {
    var lines := Texts(ls);
    var d := Ascending(deleted, n + 1);
    assert forall k :: k in d ==> k in OneTo(n);
    EditResult(lines, Hashes(hasher, lines), ModifiedPositions(ls), d)
  }

  /** A pristine buffer yields the input back with nothing reported. */
  lemma NothingToReport(hasher: LineHasher, input: seq<string>)
    ensures Accounted(Initial(input), {}, |input|)
    ensures Result(hasher, Initial(input), {}, |input|) == Unedited(hasher, input)
  {
    InitialAccounted(input);
    var ls := Initial(input);
    assert Texts(ls) == input;
    NoneReported(ls);
    NoneBelow(|input| + 1);
    assert Hashes(hasher, Texts(ls)) == Hashes(hasher, input);
  }

  lemma {:induction false} NoneReported(ls: seq<Line>)
    requires forall i :: 0 <= i < |ls| ==> !ls[i].modified
    ensures ModifiedPositions(ls) == []
    decreases |ls|
  {
    if ls != [] {
      NoneReported(ls[..|ls| - 1]);
    }
  }

  lemma {:induction false} NoneBelow(n: nat)
    ensures Ascending({}, n) == []
  {
    if n > 0 {
      NoneBelow(n - 1);
    }
  }

  /** Every address `edit_text` prints is one the next edit of its output
      accepts: it parses back to its line number and that line's hash, and it
      verifies against the output lines. */
  lemma HashesVerify(hasher: LineHasher, n: nat, res: EditResult)
    requires WellFormed(hasher, n, res) && |res.lines| <= USIZE_MAX
    ensures forall i :: 0 <= i < |res.lines| ==>
      ParseLnHash(res.hashes[i]) == Ok(LnHash(i + 1, hasher(res.lines[i])))
      && VerifyLnHashBasic(hasher, res.lines, LnHash(i + 1, hasher(res.lines[i]))) == Ok(())
  {
    forall i | 0 <= i < |res.lines|
      ensures ParseLnHash(res.hashes[i]) == Ok(LnHash(i + 1, hasher(res.lines[i])))
    {
      LnHashRoundTrip(hasher, i + 1, res.lines[i]);
    }
  }
}
