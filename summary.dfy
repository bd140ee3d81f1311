/**
 * The banner chosen by `print_tests_summary` (main.py), without the colour
 * codes and the divider around it. The count is written in decimal, as
 * Python formats an `int` in an f-string.
 */
module Summary {

  const AllPassed: string := "All Tests Passed! "

  predicate IsDigit(c: char)
  {
    '0' <= c <= '9'
  }

  function DigitChar(d: nat): char
    requires d < 10
  {
    "0123456789"[d]
  }

  /** Decimal rendering of a natural number, without leading zeros. */
  function Decimal(n: nat): string
    decreases n
  {
    if n < 10 then [DigitChar(n)] else Decimal(n / 10) + [DigitChar(n % 10)]
  }

  /** Reading a string of decimal digits back as a number. */
  function ParseDecimal(s: string): nat
    decreases |s|
  {
    if s == [] then 0
    else ParseDecimal(s[..|s| - 1]) * 10 + (if IsDigit(s[|s| - 1]) then (s[|s| - 1] - '0') as nat else 0)
  }

  /** The banner for `failed` failed tests. */
  function Message(failed: nat): string
  {
    if failed == 0 then AllPassed
    else Decimal(failed) + " " + (if failed == 1 then "Test" else "Tests") + " Failed!"
  }

  lemma {:induction false} DecimalRoundTrip(n: nat)
    ensures |Decimal(n)| > 0
    ensures forall i :: 0 <= i < |Decimal(n)| ==> IsDigit(Decimal(n)[i])
    ensures n > 0 ==> Decimal(n)[0] != '0'
    ensures ParseDecimal(Decimal(n)) == n
    decreases n
  {
    if n >= 10 {
      DecimalRoundTrip(n / 10);
      var s := Decimal(n);
      assert s[..|s| - 1] == Decimal(n / 10);
      assert (DigitChar(n % 10) - '0') as nat == n % 10;
    } else {
      assert (DigitChar(n) - '0') as nat == n;
    }
  }

  /** "All Tests Passed!" exactly when nothing failed. */
  lemma AllPassedIffZero(failed: nat)
    ensures Message(failed) == AllPassed <==> failed == 0
  {
    if failed > 0 {
      DecimalRoundTrip(failed);
      assert Message(failed)[0] == Decimal(failed)[0];
      assert IsDigit(Message(failed)[0]);
    }
  }

  /** Otherwise the banner is the count, then "Test" for one failure and
      "Tests" for more, then "Failed!"; the count can be read back. */
  lemma FailedBanner(failed: nat)
    requires failed > 0
    ensures exists digits :: Message(failed) == digits + (if failed == 1 then " Test Failed!" else " Tests Failed!")
                             && |digits| > 0 && digits[0] != '0'
                             && ParseDecimal(digits) == failed
                             && (forall i :: 0 <= i < |digits| ==> IsDigit(digits[i]))
  {
    DecimalRoundTrip(failed);
    var digits := Decimal(failed);
    if failed == 1 {
      assert Message(failed) == digits + " Test Failed!";
    } else {
      assert Message(failed) == digits + " Tests Failed!";
    }
  }

  lemma MessageExamples()
    ensures Message(0) == "All Tests Passed! "
    ensures Message(1) == "1 Test Failed!"
    ensures Message(12) == "12 Tests Failed!"
  {
    assert Decimal(12) == Decimal(1) + ['2'];
  }
}
