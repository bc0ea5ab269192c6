/**
 * The pieces of JavaScript string behaviour the engine relies on: the ASCII
 * character classes of regular expressions (`\d`, `[A-Z]`), `String(n)` for an
 * integer, and `padStart`. `ParseDigits` is the reading of a decimal string
 * back into a number, used to state the round trip of the formatted suffix.
 */
module JsText {

  /** `\d` in a JavaScript regular expression without the `u` flag. */
  predicate IsDigit(c: char) {
    '0' <= c <= '9'
  }

  /** `[A-Z]`. */
  predicate IsUpper(c: char) {
    'A' <= c <= 'Z'
  }

  predicate AllDigits(s: string) {
    forall i | 0 <= i < |s| :: IsDigit(s[i])
  }

  predicate AllUpper(s: string) {
    forall i | 0 <= i < |s| :: IsUpper(s[i])
  }

  function DigitValue(c: char): nat
    requires IsDigit(c)
  {
    c as int - '0' as int
  }

  function DigitChar(d: nat): (c: char)
    requires d < 10
    ensures IsDigit(c) && DigitValue(c) == d
  {
    ('0' as int + d) as char
  }

  /** `String(n)` for a non-negative integer: its decimal digits, most significant first. */
  function NatToString(n: nat): (s: string)
    ensures |s| >= 1 && AllDigits(s)
    ensures s[0] == '0' <==> n == 0
    ensures n == 0 ==> s == "0"
  {
    if n < 10 then [DigitChar(n)] else NatToString(n / 10) + [DigitChar(n % 10)]
  }

  /** `String(n)` for any integer (the engine's counters are never large enough for exponent notation). */
  function IntToString(n: int): (s: string)
    ensures |s| >= 1
    ensures s[0] == '0' ==> s == "0"
    ensures n >= 0 ==> AllDigits(s)
    ensures n < 0 ==> s[0] == '-'
  {
    if n < 0 then "-" + NatToString(-n) else NatToString(n)
  }

  /** The value of a string of decimal digits; "" reads as 0, leading zeros are ignored. */
  function ParseDigits(s: string): nat
    requires AllDigits(s)
  {
    if s == [] then 0 else ParseDigits(s[..|s| - 1]) * 10 + DigitValue(s[|s| - 1])
  }

  function Repeat(c: char, k: nat): (r: string)
    ensures |r| == k && forall i | 0 <= i < k :: r[i] == c
  {
    seq(k, _ => c)
  }

  /**
   * `s.padStart(width, fill)` with a one-character filler: the result is `s`
   * preceded by as many copies of `fill` as it takes to reach `width`; a string
   * already that long is returned as it is, never cut.
   */
  function PadStart(s: string, width: nat, fill: char): string {
    if |s| >= width then s else Repeat(fill, width - |s|) + s
  }

  /** Padding only prepends fillers, up to the width, and never cuts. */
  lemma PadStartSpec(s: string, width: nat, fill: char)
    ensures var r := PadStart(s, width, fill);
            && |r| == (if |s| >= width then |s| else width)
            && r[|r| - |s|..] == s
            && forall i | 0 <= i < |r| - |s| :: r[i] == fill
  {
  }

  /** Reading back what `String(n)` wrote gives `n`. */
  lemma {:induction false} ParseNatToString(n: nat)
    ensures ParseDigits(NatToString(n)) == n
  {
    var s := NatToString(n);
    if n >= 10 {
      ParseNatToString(n / 10);
      assert s[..|s| - 1] == NatToString(n / 10);
    }
  }

  lemma {:induction false} ParseRepeatZero(k: nat)
    ensures AllDigits(Repeat('0', k)) && ParseDigits(Repeat('0', k)) == 0
  {
    if k > 0 {
      ParseRepeatZero(k - 1);
      assert Repeat('0', k)[..k - 1] == Repeat('0', k - 1);
    }
  }

  /** Leading zeros do not change the value read. */
  lemma {:induction false} ParseIgnoresLeadingZeros(k: nat, s: string)
    requires AllDigits(s)
    ensures AllDigits(Repeat('0', k) + s)
    ensures ParseDigits(Repeat('0', k) + s) == ParseDigits(s)
  {
    var z := Repeat('0', k);
    ParseRepeatZero(k);
    if s == [] {
      assert z + s == z;
    } else {
      ParseIgnoresLeadingZeros(k, s[..|s| - 1]);
      assert (z + s)[..|z + s| - 1] == z + s[..|s| - 1];
    }
  }

  /** The five-digit zero padding of a non-negative counter reads back as the counter. */
  lemma PaddedRoundTrip(n: nat, width: nat)
    ensures AllDigits(PadStart(NatToString(n), width, '0'))
    ensures ParseDigits(PadStart(NatToString(n), width, '0')) == n
  {
    var s := NatToString(n);
    ParseNatToString(n);
    if |s| < width {
      ParseIgnoresLeadingZeros(width - |s|, s);
    }
  }

  /** `String(n)` never writes the same text for two integers. */
  lemma IntToStringInjective(m: int, n: int)
    requires IntToString(m) == IntToString(n)
    ensures m == n
  {
    if m >= 0 && n >= 0 {
      ParseNatToString(m);
      ParseNatToString(n);
    } else if m < 0 && n < 0 {
      assert NatToString(-m) == IntToString(m)[1..] == IntToString(n)[1..] == NatToString(-n);
      ParseNatToString(-m);
      ParseNatToString(-n);
    } else {
      assert false;
    }
  }

  /**
   * Zero padding keeps distinct integers distinct: `String(n)` has no leading
   * zero (except "0" itself), so the zeros padStart adds can be told apart from
   * the digits of the number.
   */
  lemma {:induction false} PaddedIntInjective(m: int, n: int, width: nat)
    requires PadStart(IntToString(m), width, '0') == PadStart(IntToString(n), width, '0')
    ensures m == n
  {
    var s, t := IntToString(m), IntToString(n);
    var ps, pt := PadStart(s, width, '0'), PadStart(t, width, '0');
    PadStartSpec(s, width, '0');
    PadStartSpec(t, width, '0');
    if |s| != |t| {
      assert false;
    } else {
      assert s == ps[|ps| - |s|..] == pt[|pt| - |t|..] == t;
      IntToStringInjective(m, n);
    }
  }
}
