/** strconv.FormatInt and ParseInt in base 10, as the resolver uses them. */
module Decimal {
  const MAX_INT64: int := 0x7FFF_FFFF_FFFF_FFFF
  const MIN_INT64: int := -0x8000_0000_0000_0000

  type Int64 = n: int | MIN_INT64 <= n <= MAX_INT64

  predicate IsDigit(c: char) {
    '0' <= c <= '9'
  }

  predicate Digits(s: string) {
    s != [] && forall i :: 0 <= i < |s| ==> IsDigit(s[i])
  }

  function FormatNat(n: nat): (s: string)
    ensures Digits(s)
  {
    if n < 10 then ['0' + n as char] else FormatNat(n / 10) + ['0' + (n % 10) as char]
  }

  function FormatInt(n: int): string {
    if n < 0 then "-" + FormatNat(-n) else FormatNat(n)
  }

  function ParseNat(s: string): (n: nat)
    requires forall i :: 0 <= i < |s| ==> IsDigit(s[i])
  {
    if s == [] then 0
    else
      var last := s[|s| - 1];
      assert IsDigit(last);
      10 * ParseNat(s[..|s| - 1]) + (last as int - '0' as int)
  }

  /** Out-of-range input stops at the nearest end of the range. */
  function Clamp(n: int): Int64 {
    if n > MAX_INT64 then MAX_INT64 else if n < MIN_INT64 then MIN_INT64 else n
  }

  /** ParseInt with its error dropped: 0 for anything that is not a number. */
  function ParseInt(s: string): Int64 {
    if Digits(s) then Clamp(ParseNat(s))
    else if s != [] && Digits(s[1..]) && s[0] == '-' then Clamp(0 - ParseNat(s[1..]))
    else if s != [] && Digits(s[1..]) && s[0] == '+' then Clamp(ParseNat(s[1..]))
    else 0
  }

  lemma {:induction false} ParseFormatNat(n: nat)
    ensures ParseNat(FormatNat(n)) == n
  {
    if n >= 10 {
      var s := FormatNat(n / 10);
      assert (s + ['0' + (n % 10) as char])[..|s|] == s;
      ParseFormatNat(n / 10);
    } else {
      assert FormatNat(n)[..0] == [];
    }
  }

  lemma ParseNegative(s: string)
    requires Digits(s)
    ensures ParseInt("-" + s) == Clamp(0 - ParseNat(s))
  {
    var t := "-" + s;
    assert t[0] == '-' && !IsDigit(t[0]);
    assert t[1..] == s;
  }

  /** Reading back what was written gives the number. */
  lemma ParseFormat(n: Int64)
    ensures ParseInt(FormatInt(n)) == n
  {
    if n < 0 {
      ParseFormatNat(0 - n);
      ParseNegative(FormatNat(0 - n));
    } else {
      ParseFormatNat(n);
    }
  }
}
