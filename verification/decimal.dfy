/**
 * Decimal rendering and parsing of integers: `strconv.FormatInt` /
 * `strconv.FormatUint` (base 10), which the encoder and the change diff use,
 * and `strconv.Atoi` as wrapped by `strToInt` in query.go, which the query
 * parser and the error status code use.
 */
module Decimal {
  import opened Wrappers
  import opened Text

  function DigitChar(d: nat): (c: char)
    requires d < 10
    ensures IsDigit(c)
  {
    ('0' as int + d) as char
  }

  function DigitValue(c: char): (d: nat)
    requires IsDigit(c)
    ensures d < 10
  {
    c as int - '0' as int
  }

  predicate AllDigits(s: string) {
    forall i :: 0 <= i < |s| ==> IsDigit(s[i])
  }

  /** `strconv.FormatUint(n, 10)`: the shortest decimal numeral of `n`. */
  function FormatNat(n: nat): (s: string)
    ensures |s| > 0 && AllDigits(s)
    ensures |s| > 1 ==> s[0] != '0'
  {
    if n < 10 then [DigitChar(n)] else FormatNat(n / 10) + [DigitChar(n % 10)]
  }

  /** `strconv.FormatInt(i, 10)`: a minus sign for negatives, then the numeral of the magnitude. */
  function FormatInt(i: int): string {
    if i < 0 then "-" + FormatNat(-i) else FormatNat(i)
  }

  /** The number a non-empty run of digits denotes, most significant digit first. */
  function DigitsValue(s: string): nat
    requires AllDigits(s)
  {
    if |s| == 0 then 0 else DigitsValue(s[..|s| - 1]) * 10 + DigitValue(s[|s| - 1])
  }

  /**
   * `strconv.Atoi` without its range check: an optional `+` or `-`, then one
   * or more decimal digits and nothing else; any other input is a syntax error.
   */
  function ParseInt(s: string): (r: Option<int>)
    ensures r.Some? <==>
      (|s| > 0 && (AllDigits(s) || (|s| > 1 && (s[0] == '+' || s[0] == '-') && AllDigits(s[1..]))))
  {
    var k := if |s| > 0 && (s[0] == '+' || s[0] == '-') then 1 else 0;
    var body := s[k..];
    if |body| == 0 || !AllDigits(body) then
      None
    else
      var v: int := DigitsValue(body);
      Some(if k == 1 && s[0] == '-' then -v else v)
  }

  /** `strToInt` of query.go: the Atoi value, or 0 when Atoi reports an error. */
  function StrToInt(s: string): int {
    ParseInt(s).GetOr(0)
  }

  lemma {:induction false} DigitsOfFormat(n: nat)
    ensures DigitsValue(FormatNat(n)) == n
  {
    if n >= 10 {
      var s := FormatNat(n);
      DigitsOfFormat(n / 10);
      assert s[..|s| - 1] == FormatNat(n / 10);
    }
  }

  /** Reading back a rendered integer gives the integer: FormatInt and Atoi are inverse. */
  lemma ParseFormat(i: int)
    ensures ParseInt(FormatInt(i)) == Some(i)
    ensures StrToInt(FormatInt(i)) == i
  {
    if i < 0 {
      DigitsOfFormat(-i);
      assert ("-" + FormatNat(-i))[1..] == FormatNat(-i);
    } else {
      DigitsOfFormat(i);
      assert FormatInt(i)[0..] == FormatInt(i);
    }
  }
}
