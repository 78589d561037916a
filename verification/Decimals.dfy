/**
 * Decimal numerals as the release scripts read and print them: `String(n)`, `padStart(4, '0')`, `\d+`,
 * and the Persian digits of the documents.
 */
module Decimals {
  import opened Seqs

  predicate IsDigit(c: char) { '0' <= c <= '9' }

  predicate AllDigits(s: string) { forall i :: 0 <= i < |s| ==> IsDigit(s[i]) }

  function DigitValue(c: char): (d: nat)
    requires IsDigit(c)
    ensures d <= 9
  {
    (c - '0') as nat
  }

  function DigitChar(d: nat): (c: char)
    requires d <= 9
    ensures IsDigit(c) && DigitValue(c) == d
  {
    '0' + d as char
  }

  /** `String(n)`. */
  function Decimal(n: nat): (s: string)
    ensures s != [] && AllDigits(s)
  {
    if n < 10 then [DigitChar(n)] else Decimal(n / 10) + [DigitChar(n % 10)]
  }

  /** `Number(s)` of a digit string (0 for the empty one). */
  function ValueOf(s: string): nat
    requires AllDigits(s)
  {
    if s == [] then 0 else 10 * ValueOf(s[..|s| - 1]) + DigitValue(s[|s| - 1])
  }

  lemma {:induction false} ValueOfDecimal(n: nat)
    ensures ValueOf(Decimal(n)) == n
  {
    if n < 10 {
      assert Decimal(n)[..0] == [];
    } else {
      ValueOfDecimal(n / 10);
      assert Decimal(n)[..|Decimal(n)| - 1] == Decimal(n / 10);
    }
  }

  lemma {:induction false} ValueOfLeadingZero(s: string)
    requires AllDigits(s)
    ensures AllDigits("0" + s) && ValueOf("0" + s) == ValueOf(s)
  {
    var z := "0" + s;
    if s == [] {
      assert z[..0] == [];
    } else {
      ValueOfLeadingZero(s[..|s| - 1]);
      assert z[..|z| - 1] == "0" + s[..|s| - 1];
    }
  }

  /** `s.padStart(4, '0')`. */
  function Pad4(s: string): (r: string)
    ensures |s| >= 4 ==> r == s
    ensures |s| < 4 ==> |r| == 4
    decreases 4 - |s|
  {
    if |s| >= 4 then s else Pad4("0" + s)
  }

  lemma {:induction false} Pad4Digits(s: string)
    requires AllDigits(s)
    ensures AllDigits(Pad4(s)) && ValueOf(Pad4(s)) == ValueOf(s)
    decreases 4 - |s|
  {
    if |s| < 4 {
      ValueOfLeadingZero(s);
      Pad4Digits("0" + s);
    }
  }

  /** A numeral has at most `k` digits exactly when it is below `bound`, the `k`-th power of ten. */
  lemma {:induction false} DecimalLengthStep(n: nat, k: nat, bound: nat)
    requires 1 <= k <= 4 && bound == [1, 10, 100, 1000, 10_000][k]
    ensures |Decimal(n)| <= k <==> n < bound
    decreases k
  {
    if n < 10 {
    } else if k == 1 {
    } else {
      DecimalLengthStep(n / 10, k - 1, bound / 10);
    }
  }

  /** Length of the longest run of characters of `s` from `i` on that satisfy `p`. */
  function Run(s: string, p: char -> bool, i: nat): (n: nat)
    requires i <= |s|
    ensures i + n <= |s|
    ensures forall k :: i <= k < i + n ==> p(s[k])
    ensures i + n < |s| ==> !p(s[i + n])
    decreases |s| - i
  {
    if i < |s| && p(s[i]) then 1 + Run(s, p, i + 1) else 0
  }

  lemma {:induction false} RunIs(s: string, p: char -> bool, i: nat, n: nat)
    requires i + n <= |s|
    requires forall k :: i <= k < i + n ==> p(s[k])
    requires i + n < |s| ==> !p(s[i + n])
    ensures Run(s, p, i) == n
    decreases n
  {
    if n > 0 {
      RunIs(s, p, i + 1, n - 1);
    }
  }

  // ---------------------------------------------------------------------------------------------
  // Persian digits

  predicate IsPersian(c: char) { '\U{6F0}' <= c <= '\U{6F9}' }

  predicate AllPersian(s: string) { forall i :: 0 <= i < |s| ==> IsPersian(s[i]) }

  function ToPersian(c: char): (p: char)
    ensures IsDigit(c) ==> IsPersian(p) && ToLatin(p) == c
  {
    if IsDigit(c) then '\U{6F0}' + (c - '0') else c
  }

  function ToLatin(c: char): (l: char)
    ensures IsDigit(c) || IsPersian(c) ==> IsDigit(l)
  {
    if IsPersian(c) then '0' + (c - '\U{6F0}') else c
  }

  /** `toFa` of a number: its numeral in Persian digits. */
  function Persian(s: string): (p: string)
    ensures |p| == |s| && (AllDigits(s) ==> AllPersian(p))
  {
    Map(s, ToPersian)
  }

  /** `toLatinDigits`. */
  function Latin(s: string): (l: string)
    ensures |l| == |s| && (AllAnyDigits(s) ==> AllDigits(l))
  {
    Map(s, ToLatin)
  }

  lemma {:induction false} LatinOfPersian(s: string)
    requires AllDigits(s)
    ensures Latin(Persian(s)) == s
  {
  }

  predicate IsAnyDigit(c: char) { IsDigit(c) || IsPersian(c) }

  predicate AllAnyDigits(s: string) { forall i :: 0 <= i < |s| ==> IsAnyDigit(s[i]) }

  /** `fromFa`: the value of a numeral in either digits. */
  function AnyValue(s: string): nat
    requires AllAnyDigits(s)
  {
    ValueOf(Latin(s))
  }

  lemma {:induction false} AnyValueOfPersian(n: nat)
    ensures AllAnyDigits(Persian(Decimal(n))) && AnyValue(Persian(Decimal(n))) == n
  {
    LatinOfPersian(Decimal(n));
    ValueOfDecimal(n);
  }
}
