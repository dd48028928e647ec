/** The working buffer of the edit engine: a sequence of lines, each remembering
    where it came from, and the bookkeeping that ties the buffer back to the
    input (every input line number is either still carried by a line or has been
    recorded as deleted, never both). */
module Buffer {
  import opened Wrappers

  /** One line of the buffer: its text, the 1-based input line number it was read
      from (none for inserted and copied lines), whether it is reported as
      modified, and the mark the global command sets and consumes. */
  datatype Line = Line(text: string, origin: Option<nat>, modified: bool, globalMark: bool)

  /** The buffer the engine starts from: input line `i` has origin `i + 1`. */
  function Initial(input: seq<string>): (r: seq<Line>)
    ensures Texts(r) == input
    ensures forall k :: 0 <= k < |r| ==> !r[k].modified && !r[k].globalMark
  {
    seq(|input|, i requires 0 <= i < |input| => Line(input[i], Some(i + 1), false, false))
  }

  /** The lines `a`, `i` and `c` insert: no origin, modified, unmarked. */
  function Fresh(text: seq<string>): seq<Line> {
    seq(|text|, i requires 0 <= i < |text| => Line(text[i], None, true, false))
  }

  /** The clones `t` inserts: the texts of `seg`, no origin, modified, unmarked. */
  function Clones(seg: seq<Line>): seq<Line> {
    seq(|seg|, i requires 0 <= i < |seg| => Line(seg[i].text, None, true, false))
  }

  /** The texts of a run of lines. */
  function Texts(ls: seq<Line>): seq<string> {
    seq(|ls|, i requires 0 <= i < |ls| => ls[i].text)
  }

  lemma TextsAppend(a: seq<Line>, b: seq<Line>)
    ensures Texts(a + b) == Texts(a) + Texts(b)
  {
  }

  /** `ls` with every line for which `f` is given rewritten by `f` between
      indices `s` and `e` inclusive. */
  function UpdateRange(ls: seq<Line>, s: nat, e: int, f: Line -> Line): seq<Line> {
    seq(|ls|, i requires 0 <= i < |ls| => if s <= i <= e then f(ls[i]) else ls[i])
  }

  /** `UpdateRange` leaves the lines outside its range alone. */
  lemma UpdateRangeOutside(ls: seq<Line>, s: nat, e: int, f: Line -> Line)
    requires s <= e + 1 && e < |ls|
    ensures |UpdateRange(ls, s, e, f)| == |ls|
    ensures UpdateRange(ls, s, e, f)[..s] == ls[..s] && UpdateRange(ls, s, e, f)[e + 1..] == ls[e + 1..]
  {
    var u := UpdateRange(ls, s, e, f);
    var tail := u[e + 1..];
    assert forall i :: 0 <= i < |tail| ==> tail[i] == u[e + 1 + i] == ls[e + 1 + i];
  }

  // ----- Origins -----

  function OriginOf(l: Line): set<nat> {
    if l.origin.Some? then {l.origin.value} else {}
  }

  /** The input line numbers still carried by the lines of `ls`. */
  function Origins(ls: seq<Line>): set<nat>
    decreases |ls|
  {
    if ls == [] then {} else OriginOf(ls[0]) + Origins(ls[1..])
  }

  /** No input line number is carried by two lines. */
  predicate DistinctOrigins(ls: seq<Line>)
    decreases |ls|
  {
    ls == [] || (OriginOf(ls[0]) !! Origins(ls[1..]) && DistinctOrigins(ls[1..]))
  }

  /** The numbers from `lo` up to but excluding `hi`. */
  function Span(lo: nat, hi: nat): (r: set<nat>)
    ensures forall x :: x in r <==> lo <= x < hi
    decreases hi - lo
  {
    if hi <= lo then {} else {lo} + Span(lo + 1, hi)
  }

  /** `{1, …, n}`: the line numbers of an input of `n` lines. */
  function OneTo(n: nat): set<nat> {
    Span(1, n + 1)
  }

  /** The bookkeeping invariant of the engine over an input of `n` lines: the
      origins of the buffer's lines are distinct, none of them is recorded as
      deleted, and together with the deleted numbers they are exactly `1..n`. */
  predicate Accounted(ls: seq<Line>, deleted: set<nat>, n: nat) {
    && DistinctOrigins(ls)
    && Origins(ls) !! deleted
    && Origins(ls) + deleted == OneTo(n)
  }

  lemma {:induction false} OriginsAppend(a: seq<Line>, b: seq<Line>)
    ensures Origins(a + b) == Origins(a) + Origins(b)
    decreases |a|
  {
    if a != [] {
      assert (a + b)[1..] == a[1..] + b;
      OriginsAppend(a[1..], b);
    } else {
      assert a + b == b;
    }
  }

  /** Distinctness of a concatenation: each part distinct, parts disjoint. */
  lemma {:induction false} DistinctAppend(a: seq<Line>, b: seq<Line>)
    ensures DistinctOrigins(a + b) <==>
      DistinctOrigins(a) && DistinctOrigins(b) && Origins(a) !! Origins(b)
    decreases |a|
  {
    if a != [] {
      assert (a + b)[1..] == a[1..] + b;
      DistinctAppend(a[1..], b);
      OriginsAppend(a[1..], b);
    } else {
      assert a + b == b;
    }
  }

  /** Origins and distinctness of three consecutive parts. */
  lemma Origins3(a: seq<Line>, b: seq<Line>, c: seq<Line>)
    ensures Origins(a + b + c) == Origins(a) + Origins(b) + Origins(c)
    ensures DistinctOrigins(a + b + c) <==>
      && DistinctOrigins(a) && DistinctOrigins(b) && DistinctOrigins(c)
      && Origins(a) !! Origins(b) && Origins(a) !! Origins(c) && Origins(b) !! Origins(c)
  {
    OriginsAppend(a, b);
    OriginsAppend(a + b, c);
    DistinctAppend(a, b);
    DistinctAppend(a + b, c);
  }

  /** Lines whose origins are numbered consecutively from `base`. */
  lemma {:induction false} NumberedOrigins(ls: seq<Line>, base: nat)
    requires forall k :: 0 <= k < |ls| ==> ls[k].origin == Some(base + k)
    ensures Origins(ls) == Span(base, base + |ls|)
    ensures DistinctOrigins(ls)
    decreases |ls|
  {
    if ls != [] {
      NumberedOrigins(ls[1..], base + 1);
      assert Origins(ls) == {base} + Origins(ls[1..]);
      assert Span(base, base + |ls|) == {base} + Span(base + 1, base + |ls|);
    }
  }

  /** The engine's starting point is accounted for with nothing deleted. */
  lemma InitialAccounted(input: seq<string>)
    ensures Accounted(Initial(input), {}, |input|)
  {
    NumberedOrigins(Initial(input), 1);
  }

  /** Lines that carry no input line number. */
  predicate NoOrigins(ls: seq<Line>) {
    forall k :: 0 <= k < |ls| ==> ls[k].origin.None?
  }

  lemma {:induction false} NoOriginsEmpty(ls: seq<Line>)
    requires NoOrigins(ls)
    ensures Origins(ls) == {} && DistinctOrigins(ls)
    decreases |ls|
  {
    if ls != [] {
      NoOriginsEmpty(ls[1..]);
    }
  }

  /** Two runs of lines that agree, line by line, on origin. */
  predicate SameOrigins(a: seq<Line>, b: seq<Line>) {
    && |a| == |b|
    && forall k :: 0 <= k < |a| ==> a[k].origin == b[k].origin
  }

  lemma {:induction false} SameOriginsAccount(a: seq<Line>, b: seq<Line>)
    requires SameOrigins(a, b)
    ensures Origins(a) == Origins(b)
    ensures DistinctOrigins(a) <==> DistinctOrigins(b)
    decreases |a|
  {
    if a != [] {
      SameOriginsAccount(a[1..], b[1..]);
    }
  }

  /** Two runs of lines that agree, line by line, on origin and mark. */
  predicate SameTags(a: seq<Line>, b: seq<Line>) {
    && SameOrigins(a, b)
    && forall k :: 0 <= k < |a| ==> a[k].globalMark == b[k].globalMark
  }

  lemma {:induction false} SameTagsAccount(a: seq<Line>, b: seq<Line>)
    requires SameTags(a, b)
    ensures Origins(a) == Origins(b)
    ensures DistinctOrigins(a) <==> DistinctOrigins(b)
    ensures MarkCount(a) == MarkCount(b)
    decreases |a|
  {
    SameOriginsAccount(a, b);
    if a != [] {
      SameTagsAccount(a[1..], b[1..]);
    }
  }

  /** Rewriting lines with a function that keeps origins keeps the origins. */
  lemma UpdateRangeOrigins(ls: seq<Line>, s: nat, e: int, f: Line -> Line)
    requires forall l :: f(l).origin == l.origin
    ensures SameOrigins(ls, UpdateRange(ls, s, e, f))
  {
  }

  /** Rewriting lines with a function that keeps origins and marks keeps both. */
  lemma UpdateRangeTags(ls: seq<Line>, s: nat, e: int, f: Line -> Line)
    requires forall l :: f(l).origin == l.origin && f(l).globalMark == l.globalMark
    ensures SameTags(ls, UpdateRange(ls, s, e, f))
  {
  }

  /** The moved lines of `m`: the same lines, all reported as modified. */
  function Touched(ls: seq<Line>): (r: seq<Line>)
    ensures SameTags(ls, r) && Texts(r) == Texts(ls)
    ensures forall i :: 0 <= i < |r| ==> r[i].modified
  {
    seq(|ls|, i requires 0 <= i < |ls| => ls[i].(modified := true))
  }

  /** Inserted lines carry no input line number and no mark. */
  lemma FreshUntagged(text: seq<string>)
    ensures NoOrigins(Fresh(text)) && MarkCount(Fresh(text)) == 0
  {
    UnmarkedCount(Fresh(text));
  }

  /** Copies carry no input line number and no mark. */
  lemma ClonesUntagged(seg: seq<Line>)
    ensures NoOrigins(Clones(seg)) && MarkCount(Clones(seg)) == 0
  {
    UnmarkedCount(Clones(seg));
  }

  // ----- How the operations keep the account -----

  /** Taking a block out and recording its origins as deleted keeps the
      account, and cannot add a mark. */
  lemma RemoveBlock(a: seq<Line>, b: seq<Line>, c: seq<Line>, deleted: set<nat>, n: nat)
    requires Accounted(a + b + c, deleted, n)
    ensures Accounted(a + c, deleted + Origins(b), n)
    ensures MarkCount(a + c) <= MarkCount(a + b + c)
  {
    Origins3(a, b, c);
    MarkCount3(a, b, c);
    OriginsAppend(a, c);
    DistinctAppend(a, c);
    MarkCountAppend(a, c);
  }

  /** Putting in a block of lines without origins keeps the account. */
  lemma InsertBlock(a: seq<Line>, f: seq<Line>, c: seq<Line>, deleted: set<nat>, n: nat)
    requires Accounted(a + c, deleted, n) && NoOrigins(f)
    ensures Accounted(a + f + c, deleted, n)
    ensures MarkCount(a + f + c) == MarkCount(a + c) + MarkCount(f)
  {
    NoOriginsEmpty(f);
    Origins3(a, f, c);
    MarkCount3(a, f, c);
    OriginsAppend(a, c);
    DistinctAppend(a, c);
    MarkCountAppend(a, c);
  }

  /** Exchanging two adjacent blocks, each possibly retouched without changing
      origins or marks, keeps the account and the number of marks. */
  lemma SwapBlocks(a: seq<Line>, b: seq<Line>, c: seq<Line>, z: seq<Line>,
                   b': seq<Line>, c': seq<Line>, deleted: set<nat>, n: nat)
    requires Accounted(a + b + c + z, deleted, n)
    requires SameTags(b, b') && SameTags(c, c')
    ensures Accounted(a + c' + b' + z, deleted, n)
    ensures MarkCount(a + c' + b' + z) == MarkCount(a + b + c + z)
  {
    SameTagsAccount(b, b');
    SameTagsAccount(c, c');
    OriginsAppend(a + b + c, z);
    DistinctAppend(a + b + c, z);
    MarkCountAppend(a + b + c, z);
    Origins3(a, b, c);
    MarkCount3(a, b, c);
    OriginsAppend(a + c' + b', z);
    DistinctAppend(a + c' + b', z);
    MarkCountAppend(a + c' + b', z);
    Origins3(a, c', b');
    MarkCount3(a, c', b');
  }

  /** Taking line `k` out of a run: what it contributes to the account. */
  lemma TakeOut(b: seq<Line>, k: nat)
    requires k < |b|
    ensures var rest := b[..k] + b[k + 1..];
      && Origins(b) == OriginOf(b[k]) + Origins(rest)
      && (DistinctOrigins(b) <==> OriginOf(b[k]) !! Origins(rest) && DistinctOrigins(rest))
      && MarkCount(b) == (if b[k].globalMark then 1 else 0) + MarkCount(rest)
      && multiset(Texts(b)) == multiset{b[k].text} + multiset(Texts(rest))
  {
    assert b == b[..k] + [b[k]] + b[k + 1..];
    Origins3(b[..k], [b[k]], b[k + 1..]);
    MarkCount3(b[..k], [b[k]], b[k + 1..]);
    OriginsAppend(b[..k], b[k + 1..]);
    DistinctAppend(b[..k], b[k + 1..]);
    MarkCountAppend(b[..k], b[k + 1..]);
    TextsTakeOut(b, k);
  }

  /** Replacing a block by one with the same origins and marks, in any order,
      keeps the account. */
  lemma ReplaceBlock(a: seq<Line>, b: seq<Line>, b': seq<Line>, c: seq<Line>, deleted: set<nat>, n: nat)
    requires Accounted(a + b + c, deleted, n)
    requires Origins(b') == Origins(b) && (DistinctOrigins(b') <==> DistinctOrigins(b))
    requires MarkCount(b') == MarkCount(b)
    ensures Accounted(a + b' + c, deleted, n)
    ensures MarkCount(a + b' + c) == MarkCount(a + b + c)
  {
    Origins3(a, b, c);
    MarkCount3(a, b, c);
    Origins3(a, b', c);
    MarkCount3(a, b', c);
  }

  /** Exchanging two adjacent blocks, each possibly retouched without changing
      texts, keeps the texts as a multiset. */
  lemma SwapTexts(a: seq<Line>, b: seq<Line>, c: seq<Line>, z: seq<Line>, b': seq<Line>, c': seq<Line>)
    requires Texts(b') == Texts(b) && Texts(c') == Texts(c)
    ensures multiset(Texts(a + c' + b' + z)) == multiset(Texts(a + b + c + z))
  {
    TextsAppend(a + b + c, z);
    TextsAppend(a + b, c);
    TextsAppend(a, b);
    TextsAppend(a + c' + b', z);
    TextsAppend(a + c', b');
    TextsAppend(a, c');
  }

  /** The origins, their distinctness and the number of marks depend only on
      which lines there are, not on their order. */
  lemma PermutationTags(a: seq<Line>, b: seq<Line>)
    requires multiset(a) == multiset(b)
    ensures Origins(a) == Origins(b)
    ensures DistinctOrigins(a) <==> DistinctOrigins(b)
    ensures MarkCount(a) == MarkCount(b)
    ensures multiset(Texts(a)) == multiset(Texts(b))
  {
    PermutationOrigins(a, b);
    PermutationMarks(a, b);
    PermutationTexts(a, b);
  }

  lemma {:induction false} PermutationOrigins(a: seq<Line>, b: seq<Line>)
    requires multiset(a) == multiset(b)
    ensures Origins(a) == Origins(b)
    ensures DistinctOrigins(a) <==> DistinctOrigins(b)
    decreases |a|
  {
    if a == [] {
      assert |b| == |multiset(b)| == 0;
    } else {
      var k := PermutationRest(a, b);
      var ra, rb := a[1..], b[..k] + b[k + 1..];
      PermutationOrigins(ra, rb);
      TakeOut(b, k);
      TakeOut(a, 0);
      assert a[..0] + a[1..] == ra;
      assert OriginOf(a[0]) == OriginOf(b[k]);
    }
  }

  lemma {:induction false} PermutationMarks(a: seq<Line>, b: seq<Line>)
    requires multiset(a) == multiset(b)
    ensures MarkCount(a) == MarkCount(b)
    decreases |a|
  {
    if a == [] {
      assert |b| == |multiset(b)| == 0;
    } else {
      var k := PermutationRest(a, b);
      var ra, rb := a[1..], b[..k] + b[k + 1..];
      PermutationMarks(ra, rb);
      TakeOut(b, k);
      TakeOut(a, 0);
      assert a[..0] + a[1..] == ra;
      calc {
        MarkCount(a);
        (if a[0].globalMark then 1 else 0) + MarkCount(ra);
        (if b[k].globalMark then 1 else 0) + MarkCount(rb);
        MarkCount(b);
      }
    }
  }

  lemma {:induction false} PermutationTexts(a: seq<Line>, b: seq<Line>)
    requires multiset(a) == multiset(b)
    ensures multiset(Texts(a)) == multiset(Texts(b))
    decreases |a|
  {
    if a == [] {
      assert |b| == |multiset(b)| == 0;
    } else {
      var k := PermutationRest(a, b);
      var ra, rb := a[1..], b[..k] + b[k + 1..];
      PermutationTexts(ra, rb);
      TextsTakeOut(b, k);
      TextsCons(a);
    }
  }

  lemma TextsCons(a: seq<Line>)
    requires a != []
    ensures multiset(Texts(a)) == multiset{a[0].text} + multiset(Texts(a[1..]))
  {
    assert a == [a[0]] + a[1..];
    TextsAppend([a[0]], a[1..]);
    assert Texts([a[0]]) == [a[0].text];
  }

  /** Taking line `k` out of a run takes its text out of the run's texts. */
  lemma TextsTakeOut(b: seq<Line>, k: nat)
    requires k < |b|
    ensures multiset(Texts(b)) == multiset{b[k].text} + multiset(Texts(b[..k] + b[k + 1..]))
  {
    var p, q := b[..k], b[k + 1..];
    assert b == p + [b[k]] + q;
    TextsAppend(p + [b[k]], q);
    TextsAppend(p, [b[k]]);
    TextsAppend(p, q);
    assert Texts([b[k]]) == [b[k].text];
  }

  /** Where the first line of `a` sits in a permutation `b` of it; the rest of
      `b` is a permutation of the rest of `a`. */
  lemma PermutationRest(a: seq<Line>, b: seq<Line>) returns (k: nat)
    requires multiset(a) == multiset(b) && a != []
    ensures k < |b| && b[k] == a[0]
    ensures multiset(a[1..]) == multiset(b[..k] + b[k + 1..])
  {
    assert a[0] in multiset(b);
    k :| 0 <= k < |b| && b[k] == a[0];
    assert b == b[..k] + [b[k]] + b[k + 1..];
    assert multiset(b) == multiset(b[..k]) + multiset{b[k]} + multiset(b[k + 1..]);
    assert a == [a[0]] + a[1..];
    assert multiset(a) == multiset{a[0]} + multiset(a[1..]);
    assert multiset(b[..k] + b[k + 1..]) == multiset(b[..k]) + multiset(b[k + 1..]);
    assert multiset(a[1..]) == multiset(a) - multiset{a[0]};
    assert multiset(b) - multiset{b[k]} == multiset(b[..k]) + multiset(b[k + 1..]);
  }

  // ----- Global marks -----

  /** Number of marked lines. */
  function MarkCount(ls: seq<Line>): nat
    decreases |ls|
  {
    if ls == [] then 0 else (if ls[0].globalMark then 1 else 0) + MarkCount(ls[1..])
  }

  lemma {:induction false} MarkCountAppend(a: seq<Line>, b: seq<Line>)
    ensures MarkCount(a + b) == MarkCount(a) + MarkCount(b)
    decreases |a|
  {
    if a != [] {
      assert (a + b)[1..] == a[1..] + b;
      MarkCountAppend(a[1..], b);
    } else {
      assert a + b == b;
    }
  }

  lemma MarkCount3(a: seq<Line>, b: seq<Line>, c: seq<Line>)
    ensures MarkCount(a + b + c) == MarkCount(a) + MarkCount(b) + MarkCount(c)
  {
    MarkCountAppend(a, b);
    MarkCountAppend(a + b, c);
  }

  predicate Unmarked(ls: seq<Line>) {
    forall k :: 0 <= k < |ls| ==> !ls[k].globalMark
  }

  /** A run without marks contributes nothing to the count, and conversely. */
  lemma {:induction false} UnmarkedCount(ls: seq<Line>)
    ensures Unmarked(ls) <==> MarkCount(ls) == 0
    decreases |ls|
  {
    if ls != [] {
      UnmarkedCount(ls[1..]);
      assert Unmarked(ls) <==> !ls[0].globalMark && Unmarked(ls[1..]) by {
        if !ls[0].globalMark && Unmarked(ls[1..]) {
          forall k | 0 <= k < |ls| ensures !ls[k].globalMark {
            if k > 0 { assert ls[k] == ls[1..][k - 1]; }
          }
        }
      }
    }
  }

  /** Clearing the mark of one marked line lowers the count by one. */
  lemma ClearOneMark(ls: seq<Line>, i: nat)
    requires i < |ls| && ls[i].globalMark
    ensures MarkCount(ls[i := ls[i].(globalMark := false)]) == MarkCount(ls) - 1
  {
    var cleared := ls[i := ls[i].(globalMark := false)];
    assert ls == ls[..i] + [ls[i]] + ls[i + 1..];
    assert cleared == ls[..i] + [cleared[i]] + ls[i + 1..];
    MarkCount3(ls[..i], [ls[i]], ls[i + 1..]);
    MarkCount3(ls[..i], [cleared[i]], ls[i + 1..]);
  }

  /** The lines of `ls` that are not marked, in order. */
  function Unmarks(ls: seq<Line>): (r: seq<Line>)
    ensures Unmarked(r)
    decreases |ls|
  {
    if ls == [] then []
    else Unmarks(ls[..|ls| - 1]) + (if ls[|ls| - 1].globalMark then [] else [ls[|ls| - 1]])
  }

  lemma {:induction false} UnmarksAppend(a: seq<Line>, b: seq<Line>)
    ensures Unmarks(a + b) == Unmarks(a) + Unmarks(b)
    decreases |b|
  {
    if b == [] {
      assert a + b == a;
    } else {
      var b0 := b[..|b| - 1];
      assert (a + b)[..|a + b| - 1] == a + b0;
      UnmarksAppend(a, b0);
    }
  }

  /** A run without marks is its own unmarked part. */
  lemma {:induction false} UnmarksNone(ls: seq<Line>)
    requires Unmarked(ls)
    ensures Unmarks(ls) == ls
    decreases |ls|
  {
    if ls != [] {
      var p, x := ls[..|ls| - 1], ls[|ls| - 1];
      assert ls == p + [x];
      UnmarkedSplit(p, x);
      UnmarksNone(p);
      UnmarksSnoc(p, x);
    }
  }

  lemma UnmarkedSplit(p: seq<Line>, x: Line)
    requires Unmarked(p + [x])
    ensures Unmarked(p) && !x.globalMark
  {
    assert forall k :: 0 <= k < |p| ==> p[k] == (p + [x])[k];
    assert x == (p + [x])[|p|];
  }

  lemma UnmarksSnoc(p: seq<Line>, x: Line)
    ensures Unmarks(p + [x]) == Unmarks(p) + (if x.globalMark then [] else [x])
  {
    assert (p + [x])[..|p|] == p;
  }

  function Unmark(l: Line): Line {
    l.(globalMark := false)
  }

  /** The mark `g` gives a line of its range: whether the selector accepts its text. */
  function MarkBy(sel: string -> bool, l: Line): Line {
    l.(globalMark := sel(l.text))
  }

  function MarkWith(sel: string -> bool): Line -> Line {
    l => MarkBy(sel, l)
  }

  /** The buffer as `g` leaves it before its walk: all marks cleared, then the
      lines of `s..e` marked where `sel` accepts them. */
  function Marked(ls: seq<Line>, s: nat, e: int, sel: string -> bool): seq<Line> {
    UpdateRange(UpdateRange(ls, 0, |ls| - 1, Unmark), s, e, MarkWith(sel))
  }

  /** Clearing the marks of a run that has none changes nothing. */
  lemma UnmarkAllNoop(ls: seq<Line>)
    requires Unmarked(ls)
    ensures UpdateRange(ls, 0, |ls| - 1, Unmark) == ls
  {
    var u := UpdateRange(ls, 0, |ls| - 1, Unmark);
    forall k | 0 <= k < |ls| ensures u[k] == ls[k] {
      assert !ls[k].globalMark;
    }
  }

  /** What a global delete keeps: every line outside `s..e`, and every line in
      it that the selector rejects, in order and without marks. */
  function Survivors(ls: seq<Line>, s: nat, e: int, sel: string -> bool): seq<Line>
    decreases |ls|
  {
    if ls == [] then []
    else
      var i := |ls| - 1;
      Survivors(ls[..i], s, e, sel) + (if s <= i <= e && sel(ls[i].text) then [] else [Unmark(ls[i])])
  }

  /** Dropping the marked lines of the marked buffer leaves the survivors. */
  lemma {:induction false} MarkedSurvivors(ls: seq<Line>, s: nat, e: int, sel: string -> bool)
    ensures Unmarks(Marked(ls, s, e, sel)) == Survivors(ls, s, e, sel)
    decreases |ls|
  {
    if ls != [] {
      var i := |ls| - 1;
      var m := Marked(ls, s, e, sel);
      assert m[..i] == Marked(ls[..i], s, e, sel);
      MarkedSurvivors(ls[..i], s, e, sel);
      var u := UpdateRange(ls, 0, |ls| - 1, Unmark);
      assert u[i] == Unmark(ls[i]);
      assert m[i] == if s <= i <= e then MarkWith(sel)(u[i]) else u[i];
      assert MarkBy(sel, u[i]) == MarkBy(sel, ls[i]);
      assert Unmarks(m) == Unmarks(m[..i]) + (if m[i].globalMark then [] else [m[i]]);
    }
  }
}
