/** Integer.parseInt and the decimal rendering of an int, for 32-bit Java ints. */
module Integers {
  import opened Lang

  const MinInt: int := -0x8000_0000
  const MaxInt: int := 0x7FFF_FFFF

  predicate IsDigit(c: char) {
    '0' <= c <= '9'
  }

  predicate AllDigits(s: string) {
    forall k :: 0 <= k < |s| ==> IsDigit(s[k])
  }

  function DigitValue(c: char): nat
    requires IsDigit(c)
  {
    c as int - '0' as int
  }

  function DigitChar(d: nat): (c: char)
    requires d < 10
    ensures IsDigit(c) && DigitValue(c) == d
  {
    ('0' as int + d) as char
  }

  /** The value of a string of decimal digits, most significant first. */
  function DigitsValue(s: string): nat
    requires AllDigits(s)
    decreases |s|
  {
    if s == [] then 0 else DigitsValue(s[..|s| - 1]) * 10 + DigitValue(s[|s| - 1])
  }

  /** The text after an optional leading sign. */
  function Unsigned(s: string): string {
    if s != [] && (s[0] == '-' || s[0] == '+') then s[1..] else s
  }

  /** -1 for a text with a leading minus, 1 otherwise. */
  function Sign(s: string): int {
    if s != [] && s[0] == '-' then -1 else 1
  }

  /**
   * Integer.parseInt(s) in radix 10: an optional '+' or '-', then at least one digit,
   * and a value that fits in 32 bits; anything else throws NumberFormatException.
   */
  function ParseInt(s: string): (r: Try<int>)
    ensures r.Ok? || r == NumberFormat
    ensures r.Ok? <==> Unsigned(s) != [] && AllDigits(Unsigned(s))
                       && MinInt <= Sign(s) * DigitsValue(Unsigned(s)) <= MaxInt
    ensures r.Ok? ==> r.value == Sign(s) * DigitsValue(Unsigned(s))
    ensures r.Ok? ==> MinInt <= r.value <= MaxInt
    ensures r.Ok? ==> ' ' !in s
  {
    if s == [] then NumberFormat
    else
      var signed := s[0] == '-' || s[0] == '+';
      var digits := if signed then s[1..] else s;
      if digits == [] || !AllDigits(digits) then NumberFormat
      else
        var magnitude: int := DigitsValue(digits);
        var v: int := if s[0] == '-' then -magnitude else magnitude;
        assert ' ' !in s by {
          forall k | 0 <= k < |s| ensures s[k] != ' ' {
            if k > 0 || !signed {
              assert s[k] == digits[if signed then k - 1 else k];
            }
          }
        }
        if MinInt <= v <= MaxInt then Ok(v) else NumberFormat
  }

  /** The decimal digits of n without leading zeros (Integer.toString of a non-negative int). */
  function NatToString(n: nat): (r: string)
    ensures r != [] && AllDigits(r)
    ensures r[0] != '0' || n == 0
    decreases n
  {
    if n < 10 then [DigitChar(n)] else NatToString(n / 10) + [DigitChar(n % 10)]
  }

  /** Integer.toString(n). */
  function IntToString(n: int): (r: string)
    ensures r != [] && IsDigit(r[|r| - 1])
  {
    if n < 0 then "-" + NatToString(-n) else NatToString(n)
  }

  /** Reading back the digits of n gives n. */
  lemma {:induction false} DigitsOfNat(n: nat)
    ensures DigitsValue(NatToString(n)) == n
    decreases n
  {
    var s := NatToString(n);
    if n >= 10 {
      DigitsOfNat(n / 10);
      assert s[..|s| - 1] == NatToString(n / 10);
    }
  }

  /** Integer.parseInt(Integer.toString(n)) == n for every 32-bit n. */
  lemma ParseIntOfString(n: int)
    requires MinInt <= n <= MaxInt
    ensures ParseInt(IntToString(n)) == Ok(n)
  {
    var s := IntToString(n);
    if n < 0 {
      DigitsOfNat(-n);
      assert s[1..] == NatToString(-n);
    } else {
      DigitsOfNat(n);
      assert s[0] != '-' && s[0] != '+';
    }
  }

  /** A decimal that does not fit in 32 bits is a NumberFormatException, not a large index. */
  lemma ParseIntOverflow(n: nat)
    requires n > MaxInt
    ensures ParseInt(NatToString(n)) == NumberFormat
  {
    var s := NatToString(n);
    DigitsOfNat(n);
    assert s[0] != '-' && s[0] != '+';
  }

  /** A leading zero does not change the value of a digit string. */
  lemma {:induction false} DigitsLeadingZero(d: string)
    requires AllDigits(d)
    ensures AllDigits("0" + d) && DigitsValue("0" + d) == DigitsValue(d)
    decreases |d|
  {
    var z := "0" + d;
    assert AllDigits(z) by {
      forall k | 0 <= k < |z| ensures IsDigit(z[k]) {
        if k > 0 {
          assert z[k] == d[k - 1];
        }
      }
    }
    if d != [] {
      assert z[..|z| - 1] == "0" + d[..|d| - 1];
      DigitsLeadingZero(d[..|d| - 1]);
    }
  }

  /** parseInt ignores leading zeros: "007" is 7. */
  lemma ParseIntLeadingZero(d: string)
    requires d != [] && AllDigits(d)
    ensures ParseInt("0" + d) == ParseInt(d)
  {
    DigitsLeadingZero(d);
    assert Unsigned("0" + d) == "0" + d;
  }

  /** A leading '+' is accepted and changes nothing: "+5" is 5. */
  lemma ParseIntPlusSign(d: string)
    requires AllDigits(d)
    ensures ParseInt("+" + d) == ParseInt(d)
  {
    assert ("+" + d)[1..] == d;
    if d != [] {
      assert IsDigit(d[0]);
    }
  }
}
