/**
 * The Brazilian licence pattern. The engine matches `/^[A-Z]*?(\d{4})/`, the
 * CRT issuer `/^[A-Z]*(\d{4})/` and the carrier service tests `/^[A-Z]*\d{4}/`.
 * All three are one string function here: drop the maximal run of leading
 * ASCII capitals and take the next four characters if they are all digits.
 * `RegexMatchAt` is the reference reading of the regular expression (some split
 * of the string into capitals and four digits); the lemmas show that it has at
 * most one split, so lazy and greedy `[A-Z]*` capture the same four digits.
 */
module LicenceCode {
  import opened Wrappers
  import opened JsText

  /** Length of the longest prefix of `s` made of ASCII capitals. */
  function LeadingCapitals(s: string): (k: nat)
    ensures k <= |s|
    ensures AllUpper(s[..k])
    ensures k == |s| || !IsUpper(s[k])
  {
    if s == [] || !IsUpper(s[0]) then 0
    else
      var k' := LeadingCapitals(s[1..]);
      assert s[..k' + 1] == [s[0]] + s[1..][..k'];
      k' + 1
  }

  /** `^[A-Z]*(\d{4})` matches `s` with the capitals ending at `k`. */
  ghost predicate RegexMatchAt(s: string, k: nat) {
    k + 4 <= |s| && AllUpper(s[..k]) && AllDigits(s[k..k + 4])
  }

  /** The captured group `match[1]`, or None when the pattern does not match. */
  function LicenceDigits(licenca: string): (r: Option<string>)
    ensures r.Some? ==> |r.value| == 4 && AllDigits(r.value)
  {
    var k := LeadingCapitals(licenca);
    if k + 4 <= |licenca| && AllDigits(licenca[k..k + 4]) then Some(licenca[k..k + 4]) else None
  }

  /** `/^[A-Z]*\d{4}/.test(licenca)`. */
  predicate MatchesBrazilianPattern(licenca: string) {
    LicenceDigits(licenca).Some?
  }

  /** Capitals and digits are disjoint, so a match can only split `s` where its capitals end. */
  lemma RegexSplitIsUnique(s: string, k: nat)
    requires RegexMatchAt(s, k)
    ensures k == LeadingCapitals(s)
  {
    var n := LeadingCapitals(s);
    assert IsDigit(s[k..k + 4][0]);
    if n < k {
      assert false;
    } else if k < n {
      assert false;
    }
  }

  /** The function captures exactly what the regular expression captures. */
  lemma LicenceDigitsMatchesRegex(s: string)
    ensures LicenceDigits(s).Some? <==> exists k :: RegexMatchAt(s, k)
    ensures forall k: nat | RegexMatchAt(s, k) :: LicenceDigits(s) == Some(s[k..k + 4])
  {
    forall k: nat | RegexMatchAt(s, k) ensures LicenceDigits(s) == Some(s[k..k + 4]) {
      RegexSplitIsUnique(s, k);
    }
    if LicenceDigits(s).Some? {
      assert RegexMatchAt(s, LeadingCapitals(s));
    }
  }

  /** The licence quoted in the extraction test as the real case. */
  lemma BrazilianLicenceExample()
    ensures LicenceDigits("BR6023/1800648") == Some("6023")
  {
    var s := "BR6023/1800648";
    assert LeadingCapitals(s[2..]) == 0;
    assert s[1..][1..] == s[2..];
    assert LeadingCapitals(s) == 2;
    assert s[2..6] == "6023";
  }

  /** Six bare digits pass the pattern: the first four are captured. */
  lemma SixDigitLicenceExample()
    ensures LicenceDigits("123456") == Some("1234")
  {
    assert "123456"[0..4] == "1234";
  }

  /** Too few digits after the capitals: no match. */
  lemma ShortLicenceExample()
    ensures LicenceDigits("BR123") == None
  {
    var s := "BR123";
    assert LeadingCapitals(s[2..]) == 0;
    assert s[1..][1..] == s[2..];
    assert LeadingCapitals(s) == 2;
  }
}
