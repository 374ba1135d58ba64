/** Digits, numbers written in them, and division. */
module Numbers {
  import opened Wrappers

  predicate IsDigit(c: char) {
    '0' <= c <= '9'
  }

  function Digit(c: char): nat {
    if IsDigit(c) then c as int - '0' as int else 0
  }

  function HexDigit(c: char): (n: Option<nat>)
    ensures n.Some? ==> n.value < 16
  {
    if '0' <= c <= '9' then Some(c as int - '0' as int)
    else if 'a' <= c <= 'f' then Some(c as int - 'a' as int + 10)
    else if 'A' <= c <= 'F' then Some(c as int - 'A' as int + 10)
    else None
  }

  function HexValue(c: char): (n: nat)
    ensures n < 16
  {
    match HexDigit(c) case None => 0 case Some(n) => n
  }

  /** The number a string of digits denotes. */
  function DigitsValue(s: string): nat {
    if s == "" then 0 else DigitsValue(s[..|s| - 1]) * 10 + Digit(s[|s| - 1])
  }

  function DigitChar(n: nat): char
    requires n < 10
  {
    '0' + n as char
  }

  function Decimal(n: nat): (s: string)
    ensures s != "" && forall k | 0 <= k < |s| :: IsDigit(s[k])
  {
    if n < 10 then [DigitChar(n)] else Decimal(n / 10) + [DigitChar(n % 10)]
  }

  /** An integer written with its decimal digits denotes itself, and no zero is before it. */
  lemma {:induction false} DecimalReads(n: nat)
    ensures DigitsValue(Decimal(n)) == n && (n > 0 ==> Decimal(n)[0] != '0')
  {
    var s := Decimal(n);
    if n < 10 {
      assert s[..0] == "" && DigitsValue("") == 0;
    } else {
      DecimalReads(n / 10);
      assert s[..|s| - 1] == Decimal(n / 10);
    }
  }

  /** strconv.ParseInt in base ten, of integers from -limit to less than it: a sign perhaps, and digits. */
  function ParseInt(s: string, limit: nat): Option<int> {
    var signed := s != "" && (s[0] == '+' || s[0] == '-');
    var digits := if signed then s[1..] else s;
    if digits == "" || exists k | 0 <= k < |digits| :: !IsDigit(digits[k]) then None
    else
      var v: int := if signed && s[0] == '-' then 0 - DigitsValue(digits) else DigitsValue(digits);
      if 0 - limit <= v < limit then Some(v) else None
  }

  lemma ParseDecimal(n: nat, limit: nat)
    requires n < limit
    ensures ParseInt(Decimal(n), limit) == Some(n)
  {
    DecimalReads(n);
    assert IsDigit(Decimal(n)[0]);
  }

  // --------------------------------------------------------------- division

  /** A quotient and a remainder are the only ones. */
  lemma Quotient(x: int, d: int, q: int, r: int)
    requires 0 <= r < d && x == q * d + r
    ensures x / d == q && x % d == r
  {
    var e := x / d - q;
    assert e * d == r - x % d;
    assert e > 0 ==> e * d >= d;
    assert e < 0 ==> e * d <= 0 - d;
  }

  lemma Divide(x: int, d: int) returns (q: int, r: int)
    requires d > 0
    ensures r == x % d && 0 <= r < d && x == q * d + r && (x >= 0 ==> q >= 0)
  {
    q, r := x / d, x % d;
  }
}
