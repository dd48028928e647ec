/** The parts of Rust's `str` and `char` API that the editor relies on, over
    strings modelled as sequences of Unicode scalar values. */
module Strings {
  import opened Wrappers

  /** `char::is_whitespace`: the Unicode White_Space property. */
  predicate IsWhitespace(c: char) {
    ('\U{0009}' <= c <= '\U{000D}') || c == ' ' || c == '\U{0085}' || c == '\U{00A0}'
    || c == '\U{1680}' || ('\U{2000}' <= c <= '\U{200A}') || c == '\U{2028}' || c == '\U{2029}'
    || c == '\U{202F}' || c == '\U{205F}' || c == '\U{3000}'
  }

  predicate StartsWith(s: string, prefix: string) {
    |prefix| <= |s| && s[..|prefix|] == prefix
  }

  predicate IsSuffix(r: string, s: string) {
    |r| <= |s| && s[|s| - |r|..] == r
  }

  /** `str::trim_start`: drops the leading whitespace and nothing else. */
  function TrimStart(s: string): (r: string)
    ensures IsSuffix(r, s)
    ensures r == [] || !IsWhitespace(r[0])
    ensures forall i :: 0 <= i < |s| - |r| ==> IsWhitespace(s[i])
    decreases |s|
  {
    if s != [] && IsWhitespace(s[0]) then TrimStart(s[1..]) else s
  }

  /** `str::trim_end`: drops the trailing whitespace and nothing else. */
  function TrimEnd(s: string): (r: string)
    ensures |r| <= |s| && s[..|r|] == r
    ensures r == [] || !IsWhitespace(r[|r| - 1])
    ensures forall i :: |r| <= i < |s| ==> IsWhitespace(s[i])
    decreases |s|
  {
    if s != [] && IsWhitespace(s[|s| - 1]) then TrimEnd(s[..|s| - 1]) else s
  }

  /** `str::trim`: both ends. */
  function Trim(s: string): (r: string)
  {
    TrimEnd(TrimStart(s))
  }

  /** A string that neither starts nor ends with whitespace is its own trim. */
  lemma TrimNoop(s: string)
    requires s == [] || (!IsWhitespace(s[0]) && !IsWhitespace(s[|s| - 1]))
    ensures Trim(s) == s && TrimStart(s) == s
  {
  }

  /** Trimming an all-whitespace string leaves nothing. */
  lemma TrimAllWhitespace(s: string)
    requires forall i :: 0 <= i < |s| ==> IsWhitespace(s[i])
    ensures Trim(s) == []
  {
  }

  /** Index of the first occurrence of `c`, as `str::find` with a char pattern. */
  function Find(s: string, c: char): (r: Option<nat>)
    ensures r.None? <==> c !in s
    ensures r.Some? ==> r.value < |s| && s[r.value] == c && c !in s[..r.value]
    decreases |s|
  {
    if s == [] then None
    else if s[0] == c then Some(0)
    else match Find(s[1..], c)
      case None => None
      case Some(i) => Some(i + 1)
  }

  /** Find stops at the first separator: text free of `c`, then `c`. */
  lemma FindAfter(prefix: string, c: char, rest: string)
    requires c !in prefix
    ensures Find(prefix + [c] + rest, c) == Some(|prefix|)
    ensures (prefix + [c] + rest)[..|prefix|] == prefix
    ensures (prefix + [c] + rest)[|prefix| + 1..] == rest
  {
    var s := prefix + [c] + rest;
    assert s[|prefix|] == c;
    assert s[..|prefix|] == prefix;
  }

  /** `str::split` with a char pattern: always at least one piece. */
  function Split(s: string, c: char): (r: seq<string>)
    ensures |r| >= 1
    ensures forall k :: 0 <= k < |r| ==> c !in r[k]
    decreases |s|
  {
    match Find(s, c)
    case None => [s]
    case Some(i) => [s[..i]] + Split(s[i + 1..], c)
  }

  /** Concatenation of the pieces with `c` between consecutive ones. */
  function JoinWith(parts: seq<string>, c: char): string
    requires |parts| >= 1
    decreases |parts|
  {
    if |parts| == 1 then parts[0] else parts[0] + [c] + JoinWith(parts[1..], c)
  }

  /** Splitting loses nothing: joining the pieces gives the input back. */
  lemma {:induction false} SplitJoin(s: string, c: char)
    ensures JoinWith(Split(s, c), c) == s
    decreases |s|
  {
    var f := Find(s, c);
    if f.Some? {
      var i := f.value;
      var rest := s[i + 1..];
      SplitJoin(rest, c);
      SplitJoinStep(s, c, i);
    } else {
      assert Split(s, c) == [s];
    }
  }

  /** The pieces before and after the first separator join back around it. */
  lemma SplitJoinStep(s: string, c: char, i: nat)
    requires Find(s, c) == Some(i)
    requires JoinWith(Split(s[i + 1..], c), c) == s[i + 1..]
    ensures JoinWith(Split(s, c), c) == s
  {
    var head := s[..i];
    var rest := s[i + 1..];
    var tail := Split(rest, c);
    SplitCons(s, c, i);
    JoinWithCons(head, tail, c);
    assert s == head + [c] + rest;
  }

  /** Unfolding of Split at the first separator. */
  lemma SplitCons(s: string, c: char, i: nat)
    requires Find(s, c) == Some(i)
    ensures Split(s, c) == [s[..i]] + Split(s[i + 1..], c)
  {
  }

  /** Unfolding of JoinWith at the first piece. */
  lemma JoinWithCons(head: string, tail: seq<string>, c: char)
    requires |tail| >= 1
    ensures JoinWith([head] + tail, c) == head + [c] + JoinWith(tail, c)
  {
    assert ([head] + tail)[1..] == tail;
  }

  /** Joining pieces free of `c` and splitting again gives the pieces back. */
  lemma {:induction false} JoinSplit(parts: seq<string>, c: char)
    requires |parts| >= 1
    requires forall k :: 0 <= k < |parts| ==> c !in parts[k]
    ensures Split(JoinWith(parts, c), c) == parts
    decreases |parts|
  {
    if |parts| > 1 {
      var head := parts[0];
      var tail := parts[1..];
      var rest := JoinWith(tail, c);
      var s := head + [c] + rest;
      assert parts == [head] + tail;
      JoinWithCons(head, tail, c);
      FindAfter(head, c, rest);
      assert s[..|head|] == head;
      assert s[|head| + 1..] == rest;
      SplitCons(s, c, |head|);
      JoinSplit(tail, c);
    } else {
      assert c !in parts[0];
    }
  }

  /** `s.strip_suffix('\r').unwrap_or(s)`. */
  function StripCr(s: string): string {
    if s != [] && s[|s| - 1] == '\r' then s[..|s| - 1] else s
  }

  /** `str::lines`: split after every `\n`; a `\r` directly before a `\n` is
      dropped with it; a final empty piece after a trailing `\n` is no line. */
  function Lines(s: string): (r: seq<string>)
    ensures forall k :: 0 <= k < |r| ==> '\n' !in r[k]
    decreases |s|
  {
    if s == [] then []
    else match Find(s, '\n')
      case None => [s]
      case Some(i) => [StripCr(s[..i])] + Lines(s[i + 1..])
  }

  /** The text of a file whose every line ends with `\n`. */
  function Terminated(ls: seq<string>): string
    decreases |ls|
  {
    if ls == [] then [] else ls[0] + "\n" + Terminated(ls[1..])
  }

  /** Reading back a newline-terminated file gives its lines. */
  lemma {:induction false} LinesTerminated(ls: seq<string>)
    requires forall k :: 0 <= k < |ls| ==> '\n' !in ls[k] && (ls[k] == [] || ls[k][|ls[k]| - 1] != '\r')
    ensures Lines(Terminated(ls)) == ls
    decreases |ls|
  {
    if ls != [] {
      var rest := Terminated(ls[1..]);
      FindAfter(ls[0], '\n', rest);
      assert ls[0] + "\n" + rest == ls[0] + ['\n'] + rest;
      assert (ls[0] + ['\n'] + rest)[|ls[0]| + 1..] == rest;
      assert (ls[0] + ['\n'] + rest)[..|ls[0]|] == ls[0];
      LinesTerminated(ls[1..]);
    }
  }

  /** Number of bytes of a character in UTF-8. */
  function Utf8Width(c: char): nat {
    if c as int < 0x80 then 1 else if c as int < 0x800 then 2 else if c as int < 0x10000 then 3 else 4
  }

  /** `str::len`: the UTF-8 byte length. */
  function Utf8Len(s: string): (n: nat)
    ensures n >= |s|
    ensures n == |s| <==> forall i :: 0 <= i < |s| ==> s[i] as int < 0x80
    decreases |s|
  {
    if s == [] then 0 else Utf8Width(s[0]) + Utf8Len(s[1..])
  }
}
