/** Release versions `vX.Y.Z`: their order, their successor rule and their text. */
module Versions {
  import opened Decimals
  import opened Seqs

  datatype Version = Version(major: nat, minor: nat, patch: nat)

  /** `compareVersions(a, b) < 0`. */
  predicate Less(a: Version, b: Version) {
    || a.major < b.major
    || (a.major == b.major && a.minor < b.minor)
    || (a.major == b.major && a.minor == b.minor && a.patch < b.patch)
  }

  predicate AtMost(a: Version, b: Version) { !Less(b, a) }

  /** The next patch, or the next minor with patch 0. */
  predicate IsNextVersion(prev: Version, v: Version) {
    && prev.major == v.major
    && (|| (v.minor == prev.minor && v.patch == prev.patch + 1)
        || (v.minor == prev.minor + 1 && v.patch == 0))
  }

  function VersionText(v: Version): string {
    "v" + Decimal(v.major) + "." + Decimal(v.minor) + "." + Decimal(v.patch)
  }

  datatype Match<T> = Match(length: nat, value: T)

  /** What `\d+` matches in `s` at `i`. */
  function MatchNumeral(s: string, i: nat): (m: Option<Match<nat>>)
    ensures m.Some? ==> m.value.length >= 1 && i + m.value.length <= |s|
    ensures m.Some? ==> IsDigit(s[i + m.value.length - 1])
    ensures m.Some? && i + m.value.length < |s| ==> !IsDigit(s[i + m.value.length])
  {
    if i > |s| || Run(s, IsDigit, i) == 0 then None
    else
      var n := Run(s, IsDigit, i);
      Some(Match(n, ValueOf(s[i..i + n])))
  }

  /** What `\d+\.` followed by the rest of a version matches. */
  function MatchPart(s: string, i: nat): (m: Option<Match<nat>>)
    ensures m.Some? ==> m.value.length >= 2 && i + m.value.length <= |s|
  {
    match MatchNumeral(s, i)
    case None => None
    case Some(m) =>
      if i + m.length < |s| && s[i + m.length] == '.' then Some(m.(length := m.length + 1)) else None
  }

  /** What `v\d+\.\d+\.\d+` matches in `s` at `i`; its last run of digits is as long as it can be. */
  function MatchVersion(s: string, i: nat): (m: Option<Match<Version>>)
    ensures m.Some? ==> m.value.length >= 6 && i + m.value.length <= |s|
    ensures m.Some? ==> s[i] == 'v' && IsDigit(s[i + m.value.length - 1])
    ensures m.Some? && i + m.value.length < |s| ==> !IsDigit(s[i + m.value.length])
  {
    if i >= |s| || s[i] != 'v' then None else
    match MatchPart(s, i + 1)
    case None => None
    case Some(x) =>
      match MatchPart(s, i + 1 + x.length)
      case None => None
      case Some(y) =>
        match MatchNumeral(s, i + 1 + x.length + y.length)
        case None => None
        case Some(z) => Some(Match(1 + x.length + y.length + z.length, Version(x.value, y.value, z.value)))
  }

  /** A printed version is read back whole wherever no further digit follows it. */
  lemma {:induction false} MatchPrinted(before: string, v: Version, after: string)
    requires after == [] || !IsDigit(after[0])
    ensures MatchVersion(before + VersionText(v) + after, |before|) == Some(Match(|VersionText(v)|, v))
  {
    hide MatchPart, MatchNumeral;
    var s := before + VersionText(v) + after;
    VersionTextSplit(v, after);
    Split3(before, VersionText(v), after);
    var r2 := Decimal(v.minor) + ("." + (Decimal(v.patch) + after));
    Split3(before, "v", Decimal(v.major) + ("." + r2));
    var b1 := before + "v";
    assert s[|before|] == b1[|before|] == 'v';
    var b2 := PartAt(s, b1, v.major, r2);
    var b3 := PartAt(s, b2, v.minor, Decimal(v.patch) + after);
    NumeralAt(s, b3, v.patch, after);
  }

  lemma {:induction false} Split3(a: string, b: string, c: string)
    ensures (a + b) + c == a + (b + c)
  {
  }

  lemma {:induction false} VersionTextSplit(v: Version, after: string)
    ensures VersionText(v) + after
         == "v" + (Decimal(v.major) + ("." + (Decimal(v.minor) + ("." + (Decimal(v.patch) + after)))))
  {
    var x, y, z := Decimal(v.major), Decimal(v.minor), Decimal(v.patch);
    Split3("v" + x + "." + y + ".", z, after);
    Split3("v" + x + "." + y, ".", z + after);
    Split3("v" + x + ".", y, "." + (z + after));
    Split3("v" + x, ".", y + ("." + (z + after)));
    Split3("v", x, "." + (y + ("." + (z + after))));
  }

  lemma {:induction false} NumeralAt(s: string, before: string, n: nat, after: string)
    requires s == before + (Decimal(n) + after)
    requires after == [] || !IsDigit(after[0])
    ensures MatchNumeral(s, |before|) == Some(Match(|Decimal(n)|, n))
  {
    var d := Decimal(n);
    assert s[|before|..|before| + |d|] == d;
    forall k | |before| <= k < |before| + |d| ensures IsDigit(s[k]) {
      assert s[k] == d[k - |before|];
    }
    RunIs(s, IsDigit, |before|, |d|);
    ValueOfDecimal(n);
  }

  lemma {:induction false} PartAt(s: string, before: string, n: nat, after: string) returns (next: string)
    requires s == before + (Decimal(n) + ("." + after))
    ensures MatchPart(s, |before|) == Some(Match(|Decimal(n)| + 1, n))
    ensures |next| == |before| + |Decimal(n)| + 1 && s == next + after
  {
    NumeralAt(s, before, n, "." + after);
    next := before + Decimal(n) + ".";
    Split3(before, Decimal(n), "." + after);
    Split3(before + Decimal(n), ".", after);
    assert s[|before| + |Decimal(n)|] == next[|before| + |Decimal(n)|] == '.';
  }

  lemma {:induction false} VersionTextInjective(v: Version, w: Version)
    requires VersionText(v) == VersionText(w)
    ensures v == w
  {
    MatchPrinted("", v, "");
    MatchPrinted("", w, "");
    assert "" + VersionText(v) + "" == VersionText(v);
    assert "" + VersionText(w) + "" == VersionText(w);
  }
}
