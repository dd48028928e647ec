/** The address codec: a verified line address `lineno|hash|` pairs a 1-based line
    number with the low 16 bits of a hash of the line's content. */
module Lnhash {
  import opened Wrappers
  import opened Strings
  import opened Numerals

  type U16 = x: int | 0 <= x < 0x1_0000

  /** `line_hash_u16`: the low 16 bits of SipHash over the line. The hash itself is
      foreign to the model and is passed in; all that is known of it is that it is
      a total, deterministic function of the content into `0..65535`. */
  type LineHasher = string -> U16

  /** A verified line address; `lineno == 0` is the "before the first line" sentinel. */
  datatype LnHash = LnHash(lineno: nat, hash: U16)

  const ErrMissingLineSep := Error(0)
  const ErrEmptyLineno := Error(1)
  const ErrBadLineno := Error(2)
  const ErrMissingHashSep := Error(3)
  const ErrHashWidth := Error(4)
  const ErrBadHash := Error(5)
  const ErrTrailing := Error(6)

  /** `format!("{}|{:04x}|", lineno, hash)`. */
  function FormatAddress(a: LnHash): (r: string)
    ensures |r| == |Decimal(a.lineno)| + 6
    ensures '0' <= r[0] <= '9' && r[|r| - 1] == '|'
  {
    Decimal(a.lineno) + "|" + Hex4(a.hash) + "|"
  }

  /** `format_lnhash`: the address of `line` when it sits at `lineno`. */
  function FormatLnHash(hasher: LineHasher, lineno: nat, line: string): (r: string)
    ensures |r| >= 7 && '0' <= r[0] <= '9' && r[|r| - 1] == '|'
  {
    FormatAddress(LnHash(lineno, hasher(line)))
  }

  /** `parse_lnhash_prefix`: one address from the front of `input`, and the
      unconsumed text after its second `|`. */
  function ParseLnHashPrefix(input: string): (r: Result<(LnHash, string)>)
    ensures r.Ok? ==> r.value.0.lineno <= USIZE_MAX
    ensures r.Ok? ==> |r.value.1| < |input| && IsSuffix(r.value.1, input)
    ensures r.Ok? ==> input[|input| - |r.value.1| - 1] == '|'
    ensures '|' !in input ==> r == Err(ErrMissingLineSep)
  {
    match Find(input, '|')
    case None => Err(ErrMissingLineSep)
    case Some(i) =>
      var linenoStr := input[..i];
      var rest := input[i + 1..];
      if linenoStr == [] then Err(ErrEmptyLineno)
      else match ParseUnsigned(linenoStr, 10, USIZE_MAX)
        case None => Err(ErrBadLineno)
        case Some(lineno) =>
          match Find(rest, '|')
          case None => Err(ErrMissingHashSep)
          case Some(j) =>
            var hashStr := rest[..j];
            var suffix := rest[j + 1..];
            assert input[|input| - |suffix|..] == suffix;
            if Utf8Len(hashStr) != 4 then Err(ErrHashWidth)
            else match ParseUnsigned(hashStr, 16, 0xFFFF)
              case None => Err(ErrBadHash)
              case Some(h) => Ok((LnHash(lineno, h), suffix))
  }

  /** `parse_lnhash`: a whole string that is exactly one address. */
  function ParseLnHash(s: string): (r: Result<LnHash>)
    ensures r.Ok? <==> ParseLnHashPrefix(s).Ok? && ParseLnHashPrefix(s).value.1 == []
    ensures r.Ok? ==> r.value == ParseLnHashPrefix(s).value.0
  {
    var (lh, rest) :- ParseLnHashPrefix(s);
    if rest != [] then Err(ErrTrailing) else Ok(lh)
  }

  /** The whole behaviour of the prefix parser on an input that has both
      separators: the fields are checked left to right and the text after the
      second `|` comes back untouched. */
  lemma PrefixFields(linenoStr: string, hashStr: string, rest: string)
    requires '|' !in linenoStr && '|' !in hashStr
    ensures ParseLnHashPrefix(linenoStr + "|" + hashStr + "|" + rest) ==
      if linenoStr == [] then Err(ErrEmptyLineno)
      else if ParseUnsigned(linenoStr, 10, USIZE_MAX).None? then Err(ErrBadLineno)
      else if Utf8Len(hashStr) != 4 then Err(ErrHashWidth)
      else if ParseUnsigned(hashStr, 16, 0xFFFF).None? then Err(ErrBadHash)
      else Ok((LnHash(ParseUnsigned(linenoStr, 10, USIZE_MAX).value,
                      ParseUnsigned(hashStr, 16, 0xFFFF).value), rest))
  {
    var tail := hashStr + ['|'] + rest;
    assert linenoStr + "|" + hashStr + "|" + rest == linenoStr + ['|'] + tail;
    FindAfter(linenoStr, '|', tail);
    FindAfter(hashStr, '|', rest);
  }

  /** Without a second `|` the address is rejected; a good line number makes the
      missing separator the reported error. */
  lemma PrefixMissingHashSep(linenoStr: string, hashStr: string)
    requires '|' !in linenoStr && '|' !in hashStr
    ensures ParseLnHashPrefix(linenoStr + "|" + hashStr).Err?
    ensures linenoStr != [] && ParseUnsigned(linenoStr, 10, USIZE_MAX).Some? ==>
      ParseLnHashPrefix(linenoStr + "|" + hashStr) == Err(ErrMissingHashSep)
  {
    var input := linenoStr + "|" + hashStr;
    assert input == linenoStr + ['|'] + hashStr;
    FindAfter(linenoStr, '|', hashStr);
    assert input[..|linenoStr|] == linenoStr;
    assert input[|linenoStr| + 1..] == hashStr;
  }

  lemma AsciiUtf8Len(s: string)
    requires forall i :: 0 <= i < |s| ==> s[i] as int < 0x80
    ensures Utf8Len(s) == |s|
  {
  }

  /** A printed address followed by anything reads back as itself, with the
      following text returned as the remainder. */
  lemma PrefixRoundTrip(a: LnHash, rest: string)
    requires a.lineno <= USIZE_MAX
    ensures ParseLnHashPrefix(FormatAddress(a) + rest) == Ok((a, rest))
  {
    var d := Decimal(a.lineno);
    var h := Hex4(a.hash);
    assert '|' !in d by {
      forall i | 0 <= i < |d| ensures d[i] != '|' { }
    }
    assert '|' !in h by {
      forall i | 0 <= i < |h| ensures h[i] != '|' { }
    }
    assert FormatAddress(a) + rest == d + "|" + h + "|" + rest;
    AsciiUtf8Len(h);
    DecimalRoundTrip(a.lineno);
    Hex4RoundTrip(a.hash);
    PrefixFields(d, h, rest);
  }

  /** `parse_lnhash(format_lnhash(n, line))` gives back `n` and the line's hash. */
  lemma LnHashRoundTrip(hasher: LineHasher, lineno: nat, line: string)
    requires lineno <= USIZE_MAX
    ensures ParseLnHash(FormatLnHash(hasher, lineno, line)) == Ok(LnHash(lineno, hasher(line)))
  {
    PrefixRoundTrip(LnHash(lineno, hasher(line)), []);
    assert FormatLnHash(hasher, lineno, line) + [] == FormatLnHash(hasher, lineno, line);
  }

  /** The printed form: decimal line number, `|`, four lower-case hex digits, `|`. */
  lemma FormatShape(hasher: LineHasher, lineno: nat, line: string)
    ensures var r := FormatLnHash(hasher, lineno, line);
      var n := |Decimal(lineno)|;
      && |r| == n + 6
      && (forall i :: 0 <= i < n ==> '0' <= r[i] <= '9')
      && r[n] == '|' && r[n + 5] == '|'
      && (forall i :: n < i < n + 5 ==> '0' <= r[i] <= '9' || 'a' <= r[i] <= 'f')
  {
    var r := FormatLnHash(hasher, lineno, line);
    var n := |Decimal(lineno)|;
    var h := Hex4(hasher(line));
    assert forall i :: n < i < n + 5 ==> r[i] == h[i - n - 1];
  }

  /** The example of the prefix parser's own unit test: `3|00ff|d`. */
  lemma PrefixExample()
    ensures ParseLnHashPrefix("3|00ff|d") == Ok((LnHash(3, 0x00ff), "d"))
  {
    ExampleFields();
    PrefixFields("3", "00ff", "d");
    ExampleInput();
  }

  lemma ExampleInput()
    ensures "3" + "|" + "00ff" + "|" + "d" == "3|00ff|d"
  {
    assert "3" + "|" == "3|";
    assert "3|" + "00ff" == "3|00ff";
    assert "3|00ff" + "|" == "3|00ff|";
  }

  lemma ExampleFields()
    ensures ParseUnsigned("3", 10, USIZE_MAX) == Some(3)
    ensures ParseUnsigned("00ff", 16, 0xFFFF) == Some(0xff)
    ensures Utf8Len("00ff") == 4
  {
    DigitsValueSnoc([], '3', 10);
    assert [] + ['3'] == "3";
    ExampleHashDigits();
    ExampleHashWidth();
  }

  lemma ExampleHashWidth()
    ensures Utf8Len("00ff") == 4
  {
    AsciiUtf8Len("00ff");
  }

  lemma ExampleHashDigits()
    ensures AllDigits("00ff", 16) && DigitsValue("00ff", 16) == 0xff
  {
    DigitsValueSnoc([], '0', 16);
    assert [] + ['0'] == "0";
    DigitsValueSnoc("0", '0', 16);
    assert "0" + ['0'] == "00";
    DigitsValueSnoc("00", 'f', 16);
    assert "00" + ['f'] == "00f";
    DigitsValueSnoc("00f", 'f', 16);
    assert "00f" + ['f'] == "00ff";
  }
}
