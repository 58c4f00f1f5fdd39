/** Decimal numerals as `Display` prints them and `FromStr` reads them. */
module Decimals {
  import opened Octets
  import opened Results

  const ZERO: byte := 0x30

  predicate IsDigit(b: byte) {
    ZERO <= b <= ZERO + 9
  }

  function Decimal(n: nat): (s: seq<byte>)
    ensures |s| > 0 && forall i :: 0 <= i < |s| ==> IsDigit(s[i])
  {
    if n < 10 then [ZERO + n] else Decimal(n / 10) + [ZERO + n % 10]
  }

  /** Digit by digit, most significant first; `None` on anything that is not a digit. */
  function ParseDigits(s: seq<byte>): Option<nat> {
    if s == [] then Some(0)
    else
      var last := s[|s| - 1];
      match ParseDigits(s[..|s| - 1])
      case None => None
      case Some(high) => if IsDigit(last) then Some(10 * high + (last - ZERO)) else None
  }

  lemma {:induction false} ParseDecimal(n: nat)
    ensures ParseDigits(Decimal(n)) == Some(n)
  {
    var s := Decimal(n);
    if n < 10 {
      assert s[..0] == [];
    } else {
      ParseDecimal(n / 10);
      assert s[..|s| - 1] == Decimal(n / 10);
    }
  }

  /** A numeral is a string of digits, and only such strings are read. */
  lemma {:induction false} ParseDigitsIff(s: seq<byte>)
    ensures ParseDigits(s).Some? <==> forall i :: 0 <= i < |s| ==> '0' as int <= s[i] <= '9' as int
    ensures ParseDigits(s).Some? && s != [] ==>
      ParseDigits(s[..|s| - 1]).Some?
      && ParseDigits(s).value == 10 * ParseDigits(s[..|s| - 1]).value + s[|s| - 1] - '0' as int
  {
    if s != [] {
      var front := s[..|s| - 1];
      ParseDigitsIff(front);
      assert forall i :: 0 <= i < |front| ==> front[i] == s[i];
    }
  }

  lemma DecimalInjective(a: nat, b: nat)
    requires Decimal(a) == Decimal(b)
    ensures a == b
  {
    ParseDecimal(a);
    ParseDecimal(b);
  }
}
