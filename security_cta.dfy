/**
 * `formatNumber` of the security call-to-action counters: thousands and
 * millions are abbreviated with `K+` / `M+`, the quotient rounded by
 * `toFixed(0)`.
 */
module SecurityCta {

  import opened Text
  import opened Rounding

  /** `formatNumber(num)`; the branch is chosen on `num` before rounding. */
  function FormatNumber(num: int): string {
    if num >= 1000000 then NatToString(RoundHalfUp(num, 1000000)) + "M+"
    else if num >= 1000 then NatToString(RoundHalfUp(num, 1000)) + "K+"
    else IntToString(num)
  }

  /** Below a thousand the number is printed as it is, without a suffix. */
  lemma FormatSmall(num: int)
    requires num < 1000
    ensures FormatNumber(num) == IntToString(num)
    ensures '+' !in FormatNumber(num) && 'K' !in FormatNumber(num) && 'M' !in FormatNumber(num)
  {
    var s := FormatNumber(num);
    if num < 0 {
      assert s == "-" + NatToString(-num);
      assert forall i | 1 <= i < |s| :: IsDigit(s[i]) by {
        forall i | 1 <= i < |s| ensures IsDigit(s[i]) { assert s[i] == NatToString(-num)[i - 1]; }
      }
    }
  }

  /**
   * The abbreviated form is a decimal count of `unit`s followed by `suffix`,
   * and that count is `num / unit` rounded to the nearest integer, ties up.
   */
  ghost predicate Abbreviates(s: string, num: int, unit: nat, suffix: string)
    requires unit > 0
  {
    |s| > |suffix| && s[|s| - |suffix|..] == suffix &&
    (forall i | 0 <= i < |s| - |suffix| :: IsDigit(s[i])) &&
    var k := ParseDecimal(s[..|s| - |suffix|]);
    2 * unit * k <= 2 * num + unit < 2 * unit * (k + 1)
  }

  lemma AbbreviationOf(num: nat, unit: nat, suffix: string)
    requires unit > 0 && |suffix| > 0
    ensures Abbreviates(NatToString(RoundHalfUp(num, unit)) + suffix, num, unit, suffix)
  {
    var digits := NatToString(RoundHalfUp(num, unit));
    var s := digits + suffix;
    assert s[..|s| - |suffix|] == digits;
    assert s[|s| - |suffix|..] == suffix;
    ParseNatToString(RoundHalfUp(num, unit));
  }

  lemma FormatThousands(num: int)
    requires 1000 <= num < 1000000
    ensures Abbreviates(FormatNumber(num), num, 1000, "K+")
  {
    AbbreviationOf(num, 1000, "K+");
  }

  lemma FormatMillions(num: int)
    requires num >= 1000000
    ensures Abbreviates(FormatNumber(num), num, 1000000, "M+")
  {
    AbbreviationOf(num, 1000000, "M+");
  }

  /** Because the branch is picked before rounding, values just under a million read `1000K+`. */
  lemma JustUnderAMillion(num: int)
    requires 999500 <= num < 1000000
    ensures FormatNumber(num) == "1000K+"
  {
    assert RoundHalfUp(num, 1000) == 1000;
    assert NatToString(1) == "1";
    assert NatToString(10) == "10";
    assert NatToString(100) == "100";
    assert NatToString(1000) == "1000";
  }

  /** Halves round up: 1500 reads `2K+`, 2500000 reads `3M+`. */
  lemma TiesRoundUp()
    ensures FormatNumber(1500) == "2K+"
    ensures FormatNumber(2500000) == "3M+"
  {
    assert RoundHalfUp(1500, 1000) == 2;
    assert RoundHalfUp(2500000, 1000000) == 3;
  }
}
