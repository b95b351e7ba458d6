/** Java's 32-bit `int`, `Integer.parseInt` and the decimal `String.valueOf`
    of a number or a boolean. */
module JavaNumbers {
  import opened Wrappers

  const IntMin: int := -0x8000_0000
  const IntMax: int := 0x7FFF_FFFF

  predicate IsInt32(x: int) {
    IntMin <= x <= IntMax
  }

  /** The `int` Java holds after an arithmetic result `x`: two's complement
      wrap-around modulo 2^32. */
  function Wrap(x: int): (r: int)
    ensures IsInt32(r)
    ensures (r - x) % 0x1_0000_0000 == 0
  {
    var u := x % 0x1_0000_0000;
    if u <= IntMax then u else u - 0x1_0000_0000
  }

  /** A value already in range is kept, and `Wrap` is what `++` does. */
  lemma WrapInRange(x: int)
    requires IsInt32(x)
    ensures Wrap(x) == x
  {
  }

  lemma IncrementWraps()
    ensures Wrap(IntMax + 1) == IntMin
  {
  }

  predicate IsDigit(c: char) {
    '0' <= c <= '9'
  }

  predicate AllDigits(s: string) {
    forall i :: 0 <= i < |s| ==> IsDigit(s[i])
  }

  function DigitValue(c: char): nat
    requires IsDigit(c)
  {
    (c as int) - ('0' as int)
  }

  function DigitChar(d: nat): (c: char)
    requires d < 10
    ensures IsDigit(c) && DigitValue(c) == d
  {
    (('0' as int) + d) as char
  }

  /** The number a string of decimal digits denotes, most significant
      first. */
  function DigitsValue(s: string): nat
    requires AllDigits(s)
    decreases |s|
  {
    if s == [] then 0 else DigitsValue(s[..|s| - 1]) * 10 + DigitValue(s[|s| - 1])
  }

  /** An optional '+' or '-' and at least one decimal digit, read as an
      unbounded integer; `None` for a null string or any other text. */
  function ParseDecimal(s: Option<string>): Option<int> {
    if s.None? || s.value == [] then None
    else
      var t := s.value;
      var signed := t[0] == '-' || t[0] == '+';
      var body := if signed then t[1..] else t;
      if body == [] || !AllDigits(body) then None
      else if t[0] == '-' then Some(-(DigitsValue(body) as int))
      else Some(DigitsValue(body))
  }

  /** `Integer.parseInt(s)`: the decimal text of a value that fits in an
      `int`; `None` stands for the NumberFormatException thrown otherwise
      (a null string included). */
  function ParseInt(s: Option<string>): (r: Option<int>)
    ensures r.Some? ==> IsInt32(r.value)
    ensures r.Some? <==> ParseDecimal(s).Some? && IsInt32(ParseDecimal(s).value)
    ensures r.Some? ==> r == ParseDecimal(s)
  {
    var d := ParseDecimal(s);
    if d.Some? && IsInt32(d.value) then d else None
  }

  const LongMin: int := -0x8000_0000_0000_0000
  const LongMax: int := 0x7FFF_FFFF_FFFF_FFFF

  predicate IsInt64(x: int) {
    LongMin <= x <= LongMax
  }

  /** `Long.parseLong(s)`: as `parseInt`, with the range of a `long`. */
  function ParseLong(s: Option<string>): (r: Option<int>)
    ensures r.Some? ==> IsInt64(r.value)
    ensures r.Some? <==> ParseDecimal(s).Some? && IsInt64(ParseDecimal(s).value)
    ensures r.Some? ==> r == ParseDecimal(s)
  {
    var d := ParseDecimal(s);
    if d.Some? && IsInt64(d.value) then d else None
  }

  /** Decimal digits of a natural number, without leading zeros. */
  function NatToString(n: nat): (s: string)
    ensures s != [] && AllDigits(s)
  {
    if n < 10 then [DigitChar(n)] else NatToString(n / 10) + [DigitChar(n % 10)]
  }

  /** `String.valueOf(n)` for an `int` or a `long`. */
  function IntToString(n: int): string {
    if n < 0 then "-" + NatToString(-n) else NatToString(n)
  }

  /** `String.valueOf(b)`. */
  function BoolToString(b: bool): string {
    if b then "true" else "false"
  }

  lemma {:induction false} NatToStringValue(n: nat)
    ensures DigitsValue(NatToString(n)) == n
  {
    if n >= 10 {
      NatToStringValue(n / 10);
      var s := NatToString(n);
      assert s[..|s| - 1] == NatToString(n / 10);
    }
  }

  /** Parsing what `String.valueOf` prints gives the number back. */
  lemma DecimalRoundTrip(n: int)
    ensures ParseDecimal(Some(IntToString(n))) == Some(n)
  {
    var t := IntToString(n);
    if n < 0 {
      NatToStringValue(-n);
      assert t[1..] == NatToString(-n);
    } else {
      NatToStringValue(n);
      assert t == NatToString(n);
      assert IsDigit(t[0]);
    }
  }

  lemma IntToStringRoundTrip(n: int)
    requires IsInt32(n)
    ensures ParseInt(Some(IntToString(n))) == Some(n)
  {
    DecimalRoundTrip(n);
  }

  lemma LongToStringRoundTrip(n: int)
    requires IsInt64(n)
    ensures ParseLong(Some(IntToString(n))) == Some(n)
  {
    DecimalRoundTrip(n);
  }

  /** A leading '+' is accepted. */
  lemma ParsePlusSign(n: nat)
    requires n <= IntMax
    ensures ParseInt(Some("+" + NatToString(n))) == Some(n)
  {
    NatToStringValue(n);
    assert ("+" + NatToString(n))[1..] == NatToString(n);
  }

  /** A number one past the range on either side is rejected. */
  lemma ParseOutOfRange(n: int)
    requires !IsInt32(n)
    ensures ParseInt(Some(IntToString(n))) == None
  {
    DecimalRoundTrip(n);
  }

  /** No digits: a NumberFormatException. */
  lemma ParseNoDigits()
    ensures ParseInt(None) == None && ParseInt(Some("")) == None
    ensures ParseInt(Some("-")) == None && ParseInt(Some("+")) == None
  {
    assert "-"[1..] == [];
    assert "+"[1..] == [];
  }
}
