/** Reading and printing of unsigned integers as Rust's standard library does
    it: `usize::from_str`, `u16::from_str_radix`, `{}` and `{:04x}`. */
module Numerals {
  import opened Wrappers

  /** Largest `usize` on the 64-bit targets the editor is built for. */
  const USIZE_MAX: nat := 0xFFFF_FFFF_FFFF_FFFF

  /** `char::to_digit(radix)`: decimal digits, then letters of either case. */
  function DigitValue(c: char, radix: nat): (r: Option<nat>)
    requires 2 <= radix <= 36
    ensures r.Some? ==> r.value < radix
    ensures radix == 10 ==> (r.Some? <==> '0' <= c <= '9')
    ensures radix == 16 ==> (r.Some? <==> ('0' <= c <= '9' || 'a' <= c <= 'f' || 'A' <= c <= 'F'))
  {
    var d: int :=
      if '0' <= c <= '9' then c as int - '0' as int
      else if 'a' <= c <= 'z' then c as int - 'a' as int + 10
      else if 'A' <= c <= 'Z' then c as int - 'A' as int + 10
      else radix;
    if d < radix then Some(d) else None
  }

  predicate AllDigits(ds: string, radix: nat)
    requires 2 <= radix <= 36
  {
    forall i :: 0 <= i < |ds| ==> DigitValue(ds[i], radix).Some?
  }

  /** Positional value of a digit string, most significant digit first. */
  function DigitsValue(ds: string, radix: nat): nat
    requires 2 <= radix <= 36
    requires AllDigits(ds, radix)
    decreases |ds|
  {
    if ds == [] then 0
    else DigitsValue(ds[..|ds| - 1], radix) * radix + DigitValue(ds[|ds| - 1], radix).value
  }

  /** `from_str_radix` for an unsigned integer type whose largest value is `max`:
      an optional leading `+`, then at least one digit; overflow is an error. */
  function ParseUnsigned(s: string, radix: nat, max: nat): (r: Option<nat>)
    requires 2 <= radix <= 36
    ensures r.Some? ==> r.value <= max
    ensures r.Some? ==> s != [] && (s[0] == '+' || DigitValue(s[0], radix).Some?)
    ensures s == [] || s == "+" || s == "-" ==> r.None?
  {
    if s == [] || s == "+" || s == "-" then None
    else
      var digits := if s[0] == '+' then s[1..] else s;
      if AllDigits(digits, radix) && DigitsValue(digits, radix) <= max
      then Some(DigitsValue(digits, radix))
      else None
  }

  function DecimalDigit(d: nat): (c: char)
    requires d < 10
    ensures '0' <= c <= '9'
  {
    ('0' as int + d) as char
  }

  /** `{}` of an unsigned integer: its decimal digits, no sign, no padding. */
  function Decimal(n: nat): (r: string)
    ensures |r| >= 1
    ensures forall i :: 0 <= i < |r| ==> '0' <= r[i] <= '9'
    ensures n >= 10 ==> r[0] != '0'
    decreases n
  {
    if n < 10 then [DecimalDigit(n)] else Decimal(n / 10) + [DecimalDigit(n % 10)]
  }

  function HexDigit(d: nat): (c: char)
    requires d < 16
    ensures '0' <= c <= '9' || 'a' <= c <= 'f'
  {
    if d < 10 then ('0' as int + d) as char else ('a' as int + d - 10) as char
  }

  /** `{:04x}` of a 16-bit value: exactly four lower-case hex digits, zero padded. */
  function Hex4(h: nat): (r: string)
    requires h < 0x1_0000
    ensures |r| == 4
    ensures forall i :: 0 <= i < 4 ==> '0' <= r[i] <= '9' || 'a' <= r[i] <= 'f'
  {
    var q1 := h / 16;
    var q2 := q1 / 16;
    var q3 := q2 / 16;
    [HexDigit(q3), HexDigit(q2 % 16), HexDigit(q1 % 16), HexDigit(h % 16)]
  }

  lemma DigitsValueSnoc(ds: string, c: char, radix: nat)
    requires 2 <= radix <= 36
    requires AllDigits(ds, radix) && DigitValue(c, radix).Some?
    ensures AllDigits(ds + [c], radix)
    ensures DigitsValue(ds + [c], radix) == DigitsValue(ds, radix) * radix + DigitValue(c, radix).value
  {
    assert (ds + [c])[..|ds|] == ds;
  }

  /** Reading back a printed decimal gives the number. */
  lemma {:induction false} DecimalValue(n: nat)
    ensures AllDigits(Decimal(n), 10) && DigitsValue(Decimal(n), 10) == n
    decreases n
  {
    if n >= 10 {
      DecimalValue(n / 10);
      DigitsValueSnoc(Decimal(n / 10), DecimalDigit(n % 10), 10);
    }
  }

  /** Every `usize` survives `{}` followed by `parse::<usize>()`. */
  lemma DecimalRoundTrip(n: nat)
    requires n <= USIZE_MAX
    ensures ParseUnsigned(Decimal(n), 10, USIZE_MAX) == Some(n)
  {
    DecimalValue(n);
  }

  /** Every 16-bit value survives `{:04x}` followed by `u16::from_str_radix(_, 16)`. */
  lemma Hex4RoundTrip(h: nat)
    requires h < 0x1_0000
    ensures ParseUnsigned(Hex4(h), 16, 0xFFFF) == Some(h)
  {
    var q1 := h / 16;
    var q2 := q1 / 16;
    var q3 := q2 / 16;
    var r := Hex4(h);
    assert DigitValue(HexDigit(q3), 16) == Some(q3);
    assert DigitValue(HexDigit(q2 % 16), 16) == Some(q2 % 16);
    assert DigitValue(HexDigit(q1 % 16), 16) == Some(q1 % 16);
    assert DigitValue(HexDigit(h % 16), 16) == Some(h % 16);
    assert AllDigits([], 16);
    DigitsValueSnoc([], r[0], 16);
    assert [] + [r[0]] == r[..1];
    DigitsValueSnoc(r[..1], r[1], 16);
    assert r[..1] + [r[1]] == r[..2];
    DigitsValueSnoc(r[..2], r[2], 16);
    assert r[..2] + [r[2]] == r[..3];
    DigitsValueSnoc(r[..3], r[3], 16);
    assert r[..3] + [r[3]] == r;
    assert DigitsValue(r, 16) == ((q3 * 16 + q2 % 16) * 16 + q1 % 16) * 16 + h % 16;
    assert q3 * 16 + q2 % 16 == q2;
    assert q2 * 16 + q1 % 16 == q1;
    assert q1 * 16 + h % 16 == h;
  }
}
