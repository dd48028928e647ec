/** The text-level helpers of the edit engine: joining two lines, removing
    indentation, and ordering lines by their text. */
module TextOps {
  import opened Strings
  import opened Buffer

  /** `join_strings`: an empty side gives the other side; otherwise the two are
      concatenated, with one space between them unless the left one ends or the
      right one starts with whitespace. */
  function JoinStrings(a: string, b: string): (r: string)
    ensures a == [] ==> r == b
    ensures a != [] && b == [] ==> r == a
    ensures r == a + b || r == a + " " + b
    ensures r == a + " " + b <==>
      a != [] && b != [] && !IsWhitespace(a[|a| - 1]) && !IsWhitespace(b[0])
  {
    if a == [] then b
    else if b == [] then a
    else if IsWhitespace(a[|a| - 1]) || IsWhitespace(b[0]) then a + b
    else a + " " + b
  }

  /** The left-to-right join of a run of texts, as `join_range` accumulates it. */
  function JoinAll(ts: seq<string>): (r: string)
    requires |ts| >= 1
    ensures |ts| == 1 ==> r == ts[0]
    decreases |ts|
  {
    if |ts| == 1 then ts[0] else JoinStrings(JoinAll(ts[..|ts| - 1]), ts[|ts| - 1])
  }

  /** The joined text of a run starts with the run's first text. */
  lemma {:induction false} JoinAllPrefix(ts: seq<string>)
    requires |ts| >= 1
    ensures ts[0] <= JoinAll(ts)
    decreases |ts|
  {
    if |ts| > 1 {
      var init := ts[..|ts| - 1];
      JoinAllPrefix(init);
      var a := JoinAll(init);
      var r := JoinStrings(a, ts[|ts| - 1]);
      assert a <= r;
      assert init[0] == ts[0];
    }
  }

  /** One more text joined at the end. */
  lemma JoinAllSnoc(ts: seq<string>, t: string)
    requires |ts| >= 1
    ensures JoinAll(ts + [t]) == JoinStrings(JoinAll(ts), t)
  {
    assert (ts + [t])[..|ts|] == ts;
  }

  /** Texts that are not empty and neither start nor end with whitespace. */
  predicate Trimmed(ts: seq<string>) {
    forall k :: 0 <= k < |ts| ==> ts[k] != [] && !IsWhitespace(ts[k][0]) && !IsWhitespace(ts[k][|ts[k]| - 1])
  }

  lemma {:induction false} JoinWithSnoc(ts: seq<string>, t: string, c: char)
    requires |ts| >= 1
    ensures JoinWith(ts + [t], c) == JoinWith(ts, c) + [c] + t
    decreases |ts|
  {
    if |ts| > 1 {
      assert (ts + [t])[1..] == ts[1..] + [t];
      JoinWithSnoc(ts[1..], t, c);
    }
  }

  /** Joining texts that carry no whitespace at their edges puts exactly one
      space between neighbours. */
  lemma {:induction false} JoinAllSpaced(ts: seq<string>)
    requires |ts| >= 1 && Trimmed(ts)
    ensures JoinAll(ts) == JoinWith(ts, ' ')
    ensures JoinAll(ts) != [] && !IsWhitespace(JoinAll(ts)[|JoinAll(ts)| - 1])
    decreases |ts|
  {
    if |ts| > 1 {
      var init := ts[..|ts| - 1];
      var t := ts[|ts| - 1];
      assert Trimmed(init);
      JoinAllSpaced(init);
      assert init + [t] == ts;
      JoinWithSnoc(init, t, ' ');
      SpacedStep(JoinAll(init), t);
    }
  }

  /** One step of `JoinAllSpaced`: two trimmed texts join with one space, and
      the result ends as the right one does. */
  lemma SpacedStep(a: string, t: string)
    requires a != [] && !IsWhitespace(a[|a| - 1])
    requires t != [] && !IsWhitespace(t[0]) && !IsWhitespace(t[|t| - 1])
    ensures JoinStrings(a, t) == a + [' '] + t
    ensures JoinStrings(a, t) != [] && !IsWhitespace(JoinStrings(a, t)[|JoinStrings(a, t)| - 1])
  {
    var r := a + [' '] + t;
    assert r[|r| - 1] == t[|t| - 1];
  }

  // ----- Indentation -----

  /** `"    ".repeat(levels)`. */
  function IndentPrefix(levels: nat): (r: string)
    ensures |r| == 4 * levels
    ensures forall i :: 0 <= i < |r| ==> r[i] == ' '
  {
    if levels == 0 then [] else "    " + IndentPrefix(levels - 1)
  }

  /** Number of leading spaces of `s`, at most `max`. */
  function LeadingSpaces(s: string, max: nat): (n: nat)
    ensures n <= max && n <= |s|
    decreases max
  {
    if max == 0 || s == [] || s[0] != ' ' then 0 else 1 + LeadingSpaces(s[1..], max - 1)
  }

  /** `starts_with("    ")`. */
  predicate StartsWithIndent(s: string) {
    |s| >= 4 && s[0] == ' ' && s[1] == ' ' && s[2] == ' ' && s[3] == ' '
  }

  /** `starts_with('\t')`. */
  predicate StartsWithTab(s: string) {
    s != [] && s[0] == '\t'
  }

  /** How many characters one level of `dedent` removes: four spaces, else one
      tab, else up to four spaces. */
  function DedentCount(s: string): (n: nat)
    ensures n <= |s| && n <= 4
    ensures n == 0 <==> s == [] || (s[0] != ' ' && s[0] != '\t')
  {
    if StartsWithIndent(s) then 4
    else if StartsWithTab(s) then 1
    else LeadingSpaces(s, 4)
  }

  /** What one level removes: one tab, or one to four spaces. */
  lemma DedentCountRemoves(s: string)
    ensures var n := DedentCount(s);
      || (n == 1 && s[0] == '\t')
      || (forall i :: 0 <= i < n ==> s[i] == ' ')
  {
    if !StartsWithIndent(s) && !StartsWithTab(s) {
      LeadingSpacesAre(s, 4);
    }
  }

  lemma {:induction false} LeadingSpacesAre(s: string, max: nat)
    ensures forall i :: 0 <= i < LeadingSpaces(s, max) ==> s[i] == ' '
    decreases max
  {
    if max > 0 && s != [] && s[0] == ' ' {
      LeadingSpacesAre(s[1..], max - 1);
      forall i | 0 < i < LeadingSpaces(s, max) ensures s[i] == ' ' {
        assert s[i] == s[1..][i - 1];
      }
    }
  }

  /** `dedent(line, levels)`: up to `levels` levels, stopping at the first one
      that removes nothing. */
  function Dedented(s: string, levels: nat): (r: string)
    ensures |r| <= |s|
    decreases levels
  {
    if levels == 0 || DedentCount(s) == 0 then s else Dedented(s[DedentCount(s)..], levels - 1)
  }

  /** One level of `Dedented`: it removes `DedentCount` characters, or stops. */
  lemma DedentedStep(s: string, levels: nat)
    requires levels > 0
    ensures DedentCount(s) == 0 ==> Dedented(s, levels) == s
    ensures DedentCount(s) > 0 ==> Dedented(s, levels) == Dedented(s[DedentCount(s)..], levels - 1)
  {
  }

  /** Dedenting only ever removes a prefix. */
  lemma {:induction false} DedentedSuffix(s: string, levels: nat)
    ensures IsSuffix(Dedented(s, levels), s)
    decreases levels
  {
    if levels > 0 && DedentCount(s) > 0 {
      var k := DedentCount(s);
      DedentedSuffix(s[k..], levels - 1);
      DedentedStep(s, levels);
      SuffixOfDrop(s, k, Dedented(s[k..], levels - 1));
    }
  }

  /** A suffix of `s[k..]` is a suffix of `s`. */
  lemma SuffixOfDrop(s: string, k: nat, r: string)
    requires k <= |s| && IsSuffix(r, s[k..])
    ensures IsSuffix(r, s)
  {
    assert s[k..][|s| - k - |r|..] == s[|s| - |r|..];
  }

  /** Dedenting by as many levels as were indented gives the line back. */
  lemma {:induction false} DedentIndent(s: string, levels: nat)
    ensures Dedented(IndentPrefix(levels) + s, levels) == s
    decreases levels
  {
    if levels > 0 {
      var t := IndentPrefix(levels - 1) + s;
      var u := IndentPrefix(levels) + s;
      assert u == "    " + t;
      assert StartsWithIndent(u);
      assert u[4..] == t;
      DedentIndent(s, levels - 1);
    } else {
      assert IndentPrefix(levels) + s == s;
    }
  }

  /** The inner loop of `dedent`: counts up to four leading spaces. */
  method CountLeadingSpaces(s: string) returns (removed: nat)
    ensures removed == LeadingSpaces(s, 4)
  {
    removed := 0;
    while removed < 4 && removed < |s| && s[removed] == ' '
      invariant removed <= 4 && removed <= |s|
      invariant LeadingSpaces(s, 4) == removed + LeadingSpaces(s[removed..], 4 - removed)
    {
      assert s[removed..][1..] == s[removed + 1..];
      removed := removed + 1;
    }
  }

  /** `dedent` as exhash writes it: a counted loop over the levels, each
      level trying four spaces, then a tab, then counting up to four spaces. */
  method Dedent(line: string, levels: nat) returns (s: string)
    ensures s == Dedented(line, levels)
  {
    s := line;
    var i := 0;
    while i < levels
      invariant i <= levels
      invariant Dedented(line, levels) == Dedented(s, levels - i)
      decreases levels - i
    {
      DedentedStep(s, levels - i);
      if StartsWithIndent(s) {
        s := s[4..];
        i := i + 1;
        continue;
      }
      if StartsWithTab(s) {
        s := s[1..];
        i := i + 1;
        continue;
      }
      var removed := CountLeadingSpaces(s);
      assert DedentCount(s) == removed;
      if removed > 0 {
        s := s[removed..];
        i := i + 1;
        continue;
      }
      break;
    }
  }

  // ----- Ordering by text -----

  /** Rust's `str` ordering: lexicographic over the UTF-8 bytes, which for
      well-formed text is the lexicographic order of the characters. */
  predicate TextLe(a: string, b: string)
    decreases |a|
  {
    a == [] || (b != [] && (a[0] < b[0] || (a[0] == b[0] && TextLe(a[1..], b[1..]))))
  }

  lemma {:induction false} TextLeTotal(a: string, b: string)
    ensures TextLe(a, b) || TextLe(b, a)
    decreases |a|
  {
    if a != [] && b != [] && a[0] == b[0] {
      TextLeTotal(a[1..], b[1..]);
    }
  }

  lemma {:induction false} TextLeTrans(a: string, b: string, c: string)
    requires TextLe(a, b) && TextLe(b, c)
    ensures TextLe(a, c)
    decreases |a|
  {
    if a != [] && a[0] == b[0] && b[0] == c[0] {
      TextLeTrans(a[1..], b[1..], c[1..]);
    }
  }

  /** Every pair of lines, in order, is ordered by text. */
  predicate SortedByText(ls: seq<Line>) {
    forall i, j :: 0 <= i < j < |ls| ==> TextLe(ls[i].text, ls[j].text)
  }

  /** Insertion of `x` before the first line whose text is not below it: a line
      placed earlier stays before the lines with the same text. */
  function InsertByText(x: Line, ls: seq<Line>): (r: seq<Line>)
    ensures |r| == |ls| + 1
    decreases |ls|
  {
    if ls == [] || TextLe(x.text, ls[0].text) then [x] + ls
    else [ls[0]] + InsertByText(x, ls[1..])
  }

  /** `sort_by(|a, b| a.text.cmp(&b.text))` on a run of lines: a stable sort by
      text, written as an insertion sort. */
  function SortByText(ls: seq<Line>): (r: seq<Line>)
    ensures |r| == |ls|
    decreases |ls|
  {
    if ls == [] then [] else InsertByText(ls[0], SortByText(ls[1..]))
  }

  lemma {:induction false} InsertByTextPerm(x: Line, ls: seq<Line>)
    ensures multiset(InsertByText(x, ls)) == multiset(ls) + multiset{x}
    ensures |InsertByText(x, ls)| == |ls| + 1
    decreases |ls|
  {
    if ls != [] && !TextLe(x.text, ls[0].text) {
      InsertByTextPerm(x, ls[1..]);
      assert ls == [ls[0]] + ls[1..];
    }
  }

  /** A lower bound of `x` and of every line of `ls` bounds the insertion. */
  lemma {:induction false} InsertByTextBound(x: Line, ls: seq<Line>, b: string)
    requires TextLe(b, x.text)
    requires forall j :: 0 <= j < |ls| ==> TextLe(b, ls[j].text)
    ensures forall j :: 0 <= j < |InsertByText(x, ls)| ==> TextLe(b, InsertByText(x, ls)[j].text)
    decreases |ls|
  {
    if ls != [] && !TextLe(x.text, ls[0].text) {
      InsertByTextBound(x, ls[1..], b);
      var r := InsertByText(x, ls);
      forall j | 0 <= j < |r| ensures TextLe(b, r[j].text) {
        if j > 0 { assert r[j] == InsertByText(x, ls[1..])[j - 1]; }
      }
    }
  }

  lemma {:induction false} InsertByTextSorted(x: Line, ls: seq<Line>)
    requires SortedByText(ls)
    ensures SortedByText(InsertByText(x, ls))
    decreases |ls|
  {
    var r := InsertByText(x, ls);
    if ls == [] {
    } else if TextLe(x.text, ls[0].text) {
      forall i, j | 0 <= i < j < |r| ensures TextLe(r[i].text, r[j].text) {
        if i == 0 && j > 1 {
          TextLeTrans(x.text, ls[0].text, ls[j - 1].text);
        }
      }
    } else {
      TextLeTotal(x.text, ls[0].text);
      var tail := ls[1..];
      InsertByTextSorted(x, tail);
      InsertByTextBound(x, tail, ls[0].text);
      var rt := InsertByText(x, tail);
      forall i, j | 0 <= i < j < |r| ensures TextLe(r[i].text, r[j].text) {
        assert r[j] == rt[j - 1];
        if i > 0 {
          assert r[i] == rt[i - 1];
        }
      }
    }
  }

  /** The sort returns the same lines, as a multiset, in text order. */
  lemma {:induction false} SortByTextSpec(ls: seq<Line>)
    ensures multiset(SortByText(ls)) == multiset(ls)
    ensures SortedByText(SortByText(ls))
    decreases |ls|
  {
    if ls != [] {
      SortByTextSpec(ls[1..]);
      InsertByTextPerm(ls[0], SortByText(ls[1..]));
      InsertByTextSorted(ls[0], SortByText(ls[1..]));
      assert ls == [ls[0]] + ls[1..];
    }
  }

  /** A run that is already in text order is left exactly as it is. */
  lemma {:induction false} SortByTextSorted(ls: seq<Line>)
    requires SortedByText(ls)
    ensures SortByText(ls) == ls
    decreases |ls|
  {
    if ls != [] {
      assert SortedByText(ls[1..]);
      SortByTextSorted(ls[1..]);
      if |ls| > 1 {
        assert TextLe(ls[0].text, ls[1].text);
      }
    }
  }

  /** Whether a run is in order depends on its texts alone. */
  lemma SortedByTexts(x: seq<Line>, y: seq<Line>)
    requires Texts(x) == Texts(y)
    ensures SortedByText(x) <==> SortedByText(y)
  {
    assert forall i :: 0 <= i < |x| ==> x[i].text == Texts(x)[i] == y[i].text;
  }

  /** Sorting changes the texts of a run exactly when the run was out of order. */
  lemma SortChangesUnsorted(ls: seq<Line>)
    ensures Texts(SortByText(ls)) == Texts(ls) <==> SortedByText(ls)
  {
    SortByTextSpec(ls);
    if SortedByText(ls) {
      SortByTextSorted(ls);
    } else if Texts(SortByText(ls)) == Texts(ls) {
      SortedByTexts(SortByText(ls), ls);
    }
  }

  /** What sorting the run `s..e` of `before` promises of the lines `after`
      it leaves. The lines outside the run are kept. A run already in text order is kept as it is; any other run
      becomes its sort by text, whole lines moving with their texts, each of
      them reported as modified. Either way the run ends up in text order and
      holds the same texts. */
  ghost predicate SortedRun(before: seq<Line>, after: seq<Line>, s: nat, e: nat)
    requires s <= e < |before|
  {
    var seg := before[s..e + 1];
    && |after| == |before|
    && after[..s] == before[..s] && after[e + 1..] == before[e + 1..]
    && after[s..e + 1] == (if SortedByText(seg) then seg else Touched(SortByText(seg)))
    && SortedByText(after[s..e + 1])
    && multiset(Texts(after[s..e + 1])) == multiset(Texts(seg))
    && (SortedByText(seg) ==> after == before)
    && (!SortedByText(seg) ==> forall k :: s <= k <= e ==> after[k].modified)
  }

  /** `sort_range` on the lines `s..e` of `ls`: the run is kept when it is
      already in text order and becomes its sort by text otherwise. */
  function SortedLines(ls: seq<Line>, s: nat, e: nat): seq<Line>
    requires s <= e < |ls|
  {
    var seg := ls[s..e + 1];
    ls[..s] + (if SortedByText(seg) then seg else Touched(SortByText(seg))) + ls[e + 1..]
  }

  /** What the sort promises about the lines it leaves: see `SortedRun`. */
  lemma SortedLinesRun(ls: seq<Line>, s: nat, e: nat)
    requires s <= e < |ls|
    ensures SortedRun(ls, SortedLines(ls, s, e), s, e)
  {
    var r := SortedLines(ls, s, e);
    var seg := ls[s..e + 1];
    var run := if SortedByText(seg) then seg else Touched(SortByText(seg));
    assert r[..s] == ls[..s] && r[s..e + 1] == run && r[e + 1..] == ls[e + 1..];
    SortedRunHolds(ls, r, s, e);
  }

  /** A run of one line is in order, so the sort leaves the buffer as it was. */
  lemma SortedSingle(ls: seq<Line>, s: nat)
    requires s < |ls|
    ensures SortedLines(ls, s, s) == ls
  {
    assert ls[s..s + 1] == [ls[s]];
    SameThreeParts(SortedLines(ls, s, s), ls, s, s + 1);
  }

  /** A buffer that has the run `s..e` placed by the sort is `SortedLines`. */
  lemma SortedLinesPlaced(before: seq<Line>, after: seq<Line>, s: nat, e: nat)
    requires RunPlaced(before, after, s, e)
    ensures after == SortedLines(before, s, e)
  {
    var r := SortedLines(before, s, e);
    assert r[..s] == before[..s] && r[e + 1..] == before[e + 1..];
    SameThreeParts(after, r, s, e + 1);
  }

  /** A run that is kept outside `s..e` and is sorted or kept inside has
      every property `SortedRun` names. */
  lemma SortedRunHolds(before: seq<Line>, after: seq<Line>, s: nat, e: nat)
    requires RunPlaced(before, after, s, e)
    ensures SortedRun(before, after, s, e)
  {
    SortedSegment(before[s..e + 1], after[s..e + 1]);
    SortedRunKept(before, after, s, e);
    SortedRunReported(before, after, s, e);
  }

  /** The buffer after sorting the run `s..e`, lines outside it kept: the
      run is kept when it is in text order and sorted by text otherwise. */
  ghost predicate RunPlaced(before: seq<Line>, after: seq<Line>, s: nat, e: nat) {
    && s <= e < |before| == |after|
    && after[..s] == before[..s] && after[e + 1..] == before[e + 1..]
    && after[s..e + 1] ==
      if SortedByText(before[s..e + 1]) then before[s..e + 1]
      else Touched(SortByText(before[s..e + 1]))
  }

  /** A run already in text order leaves the whole buffer as it was. */
  lemma SortedRunKept(before: seq<Line>, after: seq<Line>, s: nat, e: nat)
    requires RunPlaced(before, after, s, e)
    ensures SortedByText(before[s..e + 1]) ==> after == before
  {
    if SortedByText(before[s..e + 1]) {
      SameThreeParts(after, before, s, e + 1);
    }
  }

  /** A run out of text order has every one of its lines reported. */
  lemma SortedRunReported(before: seq<Line>, after: seq<Line>, s: nat, e: nat)
    requires RunPlaced(before, after, s, e)
    ensures !SortedByText(before[s..e + 1]) ==> forall k :: s <= k <= e ==> after[k].modified
  {
    if !SortedByText(before[s..e + 1]) {
      SortedSegment(before[s..e + 1], after[s..e + 1]);
      SliceModified(after, after[s..e + 1], s, e);
    }
  }

  /** Every line of the run `s..e` is reported when every line of its slice is. */
  lemma SliceModified(ls: seq<Line>, run: seq<Line>, s: nat, e: nat)
    requires s <= e < |ls| && run == ls[s..e + 1]
    requires forall i :: 0 <= i < |run| ==> run[i].modified
    ensures forall k :: s <= k <= e ==> ls[k].modified
  {
    forall k | s <= k <= e
      ensures ls[k].modified
    {
      assert ls[k] == run[k - s];
    }
  }

  /** The run the sort leaves: sorted, with the same texts, and reported
      when the order changed. */
  lemma SortedSegment(seg: seq<Line>, out: seq<Line>)
    requires out == if SortedByText(seg) then seg else Touched(SortByText(seg))
    ensures SortedByText(out)
    ensures multiset(Texts(out)) == multiset(Texts(seg))
    ensures !SortedByText(seg) ==> forall i :: 0 <= i < |out| ==> out[i].modified
  {
    if !SortedByText(seg) {
      var sorted := SortByText(seg);
      SortByTextSpec(seg);
      SortedByTexts(out, sorted);
      PermutationTags(seg, sorted);
    }
  }

  /** Two sequences that agree before `i`, between `i` and `j` and from `j`
      on are equal. */
  lemma SameThreeParts(x: seq<Line>, y: seq<Line>, i: nat, j: nat)
    requires i <= j <= |x| == |y|
    requires x[..i] == y[..i] && x[i..j] == y[i..j] && x[j..] == y[j..]
    ensures x == y
  {
    assert x == x[..i] + x[i..j] + x[j..];
    assert y == y[..i] + y[i..j] + y[j..];
  }
}
