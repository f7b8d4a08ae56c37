/** ECMAScript `parseInt(s)` (no radix argument) and `Number#toString()` on integers, the two
    conversions the project form applies to `year`. A result of `None` stands for `NaN`. */
module Numbers {
  import opened Wrappers
  import Text

  predicate IsDecimalDigit(c: char) {
    '0' <= c <= '9'
  }

  /** The value of `c` as a digit of `radix` (10 or 16), or -1 when it is not one. */
  function DigitValue(c: char, radix: nat): (d: int)
    requires radix == 10 || radix == 16
    ensures -1 <= d < radix as int
    ensures radix == 10 ==> (d >= 0 <==> IsDecimalDigit(c))
  {
    if '0' <= c <= '9' then c as int - '0' as int
    else if radix == 16 && 'a' <= c <= 'f' then c as int - 'a' as int + 10
    else if radix == 16 && 'A' <= c <= 'F' then c as int - 'A' as int + 10
    else -1
  }

  /** Length of the longest prefix of `s` made of digits of `radix`. */
  function DigitRun(s: string, radix: nat): (n: nat)
    requires radix == 10 || radix == 16
    ensures n <= |s|
    ensures forall i | 0 <= i < n :: DigitValue(s[i], radix) >= 0
    ensures n < |s| ==> DigitValue(s[n], radix) < 0
  {
    if s == [] || DigitValue(s[0], radix) < 0 then 0 else 1 + DigitRun(s[1..], radix)
  }

  /** Positional value of a string of digits, most significant first. */
  function ValueOf(s: string, radix: nat): (v: nat)
    requires radix == 10 || radix == 16
    requires forall i | 0 <= i < |s| :: DigitValue(s[i], radix) >= 0
  {
    if s == [] then 0
    else ValueOf(s[..|s| - 1], radix) * radix + DigitValue(s[|s| - 1], radix)
  }

  /** `parseInt(s)`: skip leading whitespace, take one optional sign, read a `0x`/`0X` prefix as
      radix 16, then the longest run of digits; no digit at all is `NaN`. Values beyond the
      53-bit precision of a double are kept exact here. */
  function ParseInt(s: string): Option<int> {
    ParseSigned(Text.TrimStart(s))
  }

  /** The sign step of `parseInt`: one `-` negates, one `+` is skipped. */
  function ParseSigned(t: string): (r: Option<int>)
    ensures t != [] && t[0] == '-' ==>
      r == (match ParseUnsigned(t[1..]) case None => None case Some(v) => Some(-(v as int)))
    ensures (t == [] || t[0] != '-') && r.Some? ==> r.value >= 0
  {
    if t != [] && t[0] == '-' then
      match ParseUnsigned(t[1..])
      case None => None
      case Some(v) => Some(-(v as int))
    else if t != [] && t[0] == '+' then ParseUnsigned(t[1..])
    else ParseUnsigned(t)
  }

  /** The radix step of `parseInt`: a `0x` or `0X` prefix selects hexadecimal. */
  function ParseUnsigned(u: string): Option<nat> {
    if |u| >= 2 && u[0] == '0' && (u[1] == 'x' || u[1] == 'X') then ParseDigits(u[2..], 16)
    else ParseDigits(u, 10)
  }

  /** The digit step of `parseInt`: the value of the longest run of digits, `NaN` for none. */
  function ParseDigits(body: string, radix: nat): (r: Option<nat>)
    requires radix == 10 || radix == 16
    ensures r.Some? <==> body != [] && DigitValue(body[0], radix) >= 0
  {
    var n := DigitRun(body, radix);
    if n == 0 then None else Some(ValueOf(body[..n], radix))
  }

  /** Decimal digits of a natural number, without leading zeros. */
  function NatToString(n: nat): (s: string)
    ensures s != [] && (forall i | 0 <= i < |s| :: IsDecimalDigit(s[i]))
    ensures |s| > 1 ==> s[0] != '0'
  {
    var d := ['0' + (n % 10) as char];
    if n < 10 then d else NatToString(n / 10) + d
  }

  /** `Number#toString()` on an integer whose magnitude is below 10^21, where JavaScript
      writes all its digits. */
  function IntToString(n: int): (s: string)
    ensures s != [] && (s[0] == '-' <==> n < 0)
  {
    if n < 0 then "-" + NatToString(-n) else NatToString(n)
  }

  lemma {:induction false} ValueOfNatToString(n: nat)
    ensures ValueOf(NatToString(n), 10) == n
    decreases n
  {
    var s := NatToString(n);
    if n >= 10 {
      ValueOfNatToString(n / 10);
      assert s[..|s| - 1] == NatToString(n / 10);
    }
  }

  lemma {:induction false} DigitRunOfDigits(s: string)
    requires forall i | 0 <= i < |s| :: IsDecimalDigit(s[i])
    ensures DigitRun(s, 10) == |s|
    decreases |s|
  {
    if s != [] {
      DigitRunOfDigits(s[1..]);
    }
  }

  /** The digits `toString` writes for a natural number parse back to it. */
  lemma ParseUnsignedOfNatToString(m: nat)
    ensures ParseUnsigned(NatToString(m)) == Some(m)
  {
    var d := NatToString(m);
    ValueOfNatToString(m);
    DigitRunOfDigits(d);
    assert d[..|d|] == d;
    assert ParseDigits(d, 10) == Some(m);
    assert !(|d| >= 2 && d[0] == '0');
  }

  /** `parseInt` reads back every integer `toString` writes. */
  lemma ParseIntToString(n: int)
    ensures ParseInt(IntToString(n)) == Some(n)
  {
    var m: nat := if n < 0 then -n else n;
    var s := IntToString(n);
    ParseUnsignedOfNatToString(m);
    assert !Text.IsSpace(s[0]);
    assert Text.TrimStart(s) == s;
    if n < 0 {
      assert s[1..] == NatToString(m);
    }
  }
}
