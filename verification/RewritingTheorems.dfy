/** Each pass of the rewriting is simultaneous, and undone by the inverse map exactly when that is possible. */
module RewritingTheorems {
  import opened Decimals
  import opened Rewriting
  import opened Seqs
  import opened Texts
  import opened Versions

  // ---------------------------------------------------------------------------------------------
  // Four-digit numbers

  predicate FourDigits(t: string) { |t| == 4 && AllDigits(t) }

  /** What the pattern says of a place: four digits, no digit or point before them, no digit after them. */
  predicate TokenAt(blocked: bool, s: string, i: int) {
    && 0 <= i && i + 4 <= |s| && (forall k :: i <= k < i + 4 ==> IsDigit(s[k]))
    && !(if i == 0 then blocked else DigitOrDot(s[i - 1]))
    && (i + 4 == |s| || !IsDigit(s[i + 4]))
  }

  predicate Covered(blocked: bool, s: string, j: int) { exists i :: i <= j < i + 4 && TokenAt(blocked, s, i) }

  predicate ToFourDigits(m: map<string, string>) { forall k :: k in m ==> FourDigits(m[k]) }

  function NumbersFrom(blocked: bool, s: string, m: map<string, string>): string {
    Replace(FOUR_DIGITS, blocked, s, (t: string) => Renamed(m, t))
  }

  lemma {:induction false} TokenFirst(blocked: bool, s: string)
    requires s != []
    ensures TokenLength(FOUR_DIGITS, blocked, s) == if TokenAt(blocked, s, 0) then 4 else 0
    ensures TokenAt(blocked, s, 0) ==> FourDigits(s[..4])
  {
    if |s| >= 4 {
      assert AllDigits(s[..4]) <==> forall k :: 0 <= k < 4 ==> IsDigit(s[k]) by {
        assert forall k :: 0 <= k < 4 ==> s[..4][k] == s[k];
      }
    }
  }

  lemma {:induction false} TokenLater(blocked: bool, s: string, n: nat, i: nat)
    requires 1 <= n <= |s|
    ensures TokenAt(blocked, s, n + i) == TokenAt(DigitOrDot(s[n - 1]), s[n..], i)
  {
    var t := s[n..];
    assert forall k :: n <= k < |s| ==> s[k] == t[k - n];
    assert forall k :: 0 <= k < |t| ==> t[k] == s[k + n];
  }

  /** The result of a pass over `s`, place by place. */
  ghost predicate MovesAt(blocked: bool, s: string, m: map<string, string>, r: string) {
    && |r| == |s|
    && (forall i :: TokenAt(blocked, s, i) ==> r[i..i + 4] == Renamed(m, s[i..i + 4]))
    && (forall j :: 0 <= j < |s| && !Covered(blocked, s, j) ==> r[j] == s[j])
  }

  lemma {:induction false} MovesPlaceByPlace(blocked: bool, s: string, m: map<string, string>)
    requires ToFourDigits(m)
    ensures MovesAt(blocked, s, m, NumbersFrom(blocked, s, m))
    decreases |s|
  {
    if s != [] {
      var n := if TokenAt(blocked, s, 0) then 4 else 1;
      NumbersStep(blocked, s, m, n);
      MovesPlaceByPlace(DigitOrDot(s[n - 1]), s[n..], m);
      hide Replace, NumbersFrom, MovesAt;
      MovesStep(blocked, s, m, n, NumbersFrom(DigitOrDot(s[n - 1]), s[n..], m));
    }
  }

  function FirstMoved(s: string, m: map<string, string>, n: nat): string
    requires n <= |s|
  {
    if n == 4 then Renamed(m, s[..n]) else s[..n]
  }

  lemma {:induction false} NumbersStep(blocked: bool, s: string, m: map<string, string>, n: nat)
    requires s != [] && n == if TokenAt(blocked, s, 0) then 4 else 1
    ensures NumbersFrom(blocked, s, m) == FirstMoved(s, m, n) + NumbersFrom(DigitOrDot(s[n - 1]), s[n..], m)
  {
    TokenFirst(blocked, s);
    FirstPart(s, n);
    hide TokenAt, DigitOrDot, TokenLength, Put;
    MoveFirst(if n == 4 then Token(s[..n]) else Plain(s[0]), Pieces(FOUR_DIGITS, DigitOrDot(s[n - 1]), s[n..]),
              (t: string) => Renamed(m, t));
  }

  lemma {:induction false} MovesStep(blocked: bool, s: string, m: map<string, string>, n: nat, rest: string)
    requires s != [] && ToFourDigits(m) && n == if TokenAt(blocked, s, 0) then 4 else 1
    requires MovesAt(DigitOrDot(s[n - 1]), s[n..], m, rest)
    ensures MovesAt(blocked, s, m, FirstMoved(s, m, n) + rest)
  {
    TokenFirst(blocked, s);
    var r := FirstMoved(s, m, n) + rest;
    assert |r| == |s|;
    forall i | TokenAt(blocked, s, i) ensures r[i..i + 4] == Renamed(m, s[i..i + 4]) {
      TokenMoved(blocked, s, m, n, rest, i);
    }
    hide TokenAt;
    forall j | 0 <= j < |s| && !Covered(blocked, s, j) ensures r[j] == s[j] {
      PlaceMoved(blocked, s, m, n, rest, j);
    }
  }

  lemma {:induction false} SliceLater(s: string, n: nat, first: string, rest: string, i: int)
    requires s == first + rest && |first| == n <= i && i + 4 <= |s|
    ensures s[i..i + 4] == rest[i - n..i - n + 4]
  {
  }

  lemma {:induction false} TokenMoved(blocked: bool, s: string, m: map<string, string>, n: nat, rest: string, i: int)
    requires s != [] && ToFourDigits(m) && n == if TokenAt(blocked, s, 0) then 4 else 1
    requires MovesAt(DigitOrDot(s[n - 1]), s[n..], m, rest)
    requires TokenAt(blocked, s, i)
    ensures |FirstMoved(s, m, n) + rest| == |s|
    ensures (FirstMoved(s, m, n) + rest)[i..i + 4] == Renamed(m, s[i..i + 4])
  {
    TokenFirst(blocked, s);
    var first := FirstMoved(s, m, n);
    assert |first| == n;
    if i >= n {
      TokenLater(blocked, s, n, i - n);
      SliceLater(s, n, s[..n], s[n..], i);
      SliceLater(first + rest, n, first, rest, i);
    } else {
      assert i == 0 && n == 4;
      assert (first + rest)[..4] == first;
    }
  }

  lemma {:induction false} PlaceMoved(blocked: bool, s: string, m: map<string, string>, n: nat, rest: string, j: int)
    requires s != [] && ToFourDigits(m) && n == if TokenAt(blocked, s, 0) then 4 else 1
    requires n <= |s| && |FirstMoved(s, m, n)| == n && MovesAt(DigitOrDot(s[n - 1]), s[n..], m, rest)
    requires 0 <= j < |s| && !Covered(blocked, s, j)
    ensures (FirstMoved(s, m, n) + rest)[j] == s[j]
  {
    hide TokenAt;
    if j >= n {
      var b, t := DigitOrDot(s[n - 1]), s[n..];
      forall i | TokenAt(b, t, i) ensures !(i <= j - n < i + 4) {
        TokenBounds(b, t, i);
        TokenLater(blocked, s, n, i);
        assert TokenAt(blocked, s, n + i);
      }
      assert !Covered(b, t, j - n);
      assert t[j - n] == s[j];
    } else {
      assert TokenAt(blocked, s, 0) ==> Covered(blocked, s, j);
    }
  }

  /**
   * One pass renames every four-digit number of the line once, where it stands: numbers stay where they were, a number
   * in the map takes its new value even if that is a key itself, and every other character stays.
   */
  lemma {:induction false} NumbersMoveAtOnce(l: Line, m: map<string, string>)
    requires ToFourDigits(m)
    ensures |Numbers(l, m)| == |l|
    ensures forall i :: TokenAt(false, Numbers(l, m), i) <==> TokenAt(false, l, i)
    ensures forall i :: TokenAt(false, l, i) ==> Numbers(l, m)[i..i + 4] == Renamed(m, l[i..i + 4])
    ensures forall j :: 0 <= j < |l| && !Covered(false, l, j) ==> Numbers(l, m)[j] == l[j]
  {
    MovesPlaceByPlace(false, l, m);
    assert Numbers(l, m) == NumbersFrom(false, l, m);
    hide Replace, Numbers, NumbersFrom, TokenAt;
    forall j | 0 <= j < |l|
      ensures IsDigit(Numbers(l, m)[j]) == IsDigit(l[j]) && DigitOrDot(Numbers(l, m)[j]) == DigitOrDot(l[j])
    {
      if Covered(false, l, j) {
        var i :| i <= j < i + 4 && TokenAt(false, l, i);
        CoveredIsDigit(l, Numbers(l, m), m, i, j);
      }
    }
    SameTokens(l, Numbers(l, m));
  }

  lemma {:induction false} CoveredIsDigit(l: string, r: string, m: map<string, string>, i: int, j: int)
    requires ToFourDigits(m) && |r| == |l| && TokenAt(false, l, i) && i <= j < i + 4
    requires r[i..i + 4] == Renamed(m, l[i..i + 4])
    ensures IsDigit(r[j]) && IsDigit(l[j])
  {
    assert FourDigits(l[i..i + 4]);
    assert r[j] == r[i..i + 4][j - i];
  }

  lemma {:induction false} SameTokens(s: string, r: string)
    requires |r| == |s|
    requires forall j :: 0 <= j < |s| ==> IsDigit(r[j]) == IsDigit(s[j]) && DigitOrDot(r[j]) == DigitOrDot(s[j])
    ensures forall i :: TokenAt(false, r, i) <==> TokenAt(false, s, i)
  {
    hide IsDigit, DigitOrDot;
    forall i ensures TokenAt(false, r, i) <==> TokenAt(false, s, i) {
      if 0 <= i && i + 4 <= |s| {
        assert (forall k :: i <= k < i + 4 ==> IsDigit(s[k])) <==> (forall k :: i <= k < i + 4 ==> IsDigit(r[k]));
      }
    }
  }

  /** `inv` maps the new names back; it exists when no two names share a new one. */
  predicate Inverts(inv: map<string, string>, m: map<string, string>) {
    && (forall k :: k in m ==> m[k] in inv && inv[m[k]] == k)
    && (forall t :: t in inv ==> inv[t] in m && m[inv[t]] == t)
  }

  /** A token that is a new name but not an old one. */
  predicate IsForeign(m: map<string, string>, inv: map<string, string>, t: string) { t in inv && t !in m }

  lemma {:induction false} RenamedBack(m: map<string, string>, inv: map<string, string>, t: string)
    requires Inverts(inv, m)
    ensures Renamed(inv, Renamed(m, t)) == t <==> !IsForeign(m, inv, t)
  {
  }

  /** The inverse map undoes the pass exactly when no number of the line is a new name without being an old one. */
  lemma {:induction false} NumbersAreUndoneIff(l: Line, m: map<string, string>, inv: map<string, string>)
    requires ToFourDigits(m) && ToFourDigits(inv) && Inverts(inv, m)
    ensures Numbers(Numbers(l, m), inv) == l <==> forall i :: TokenAt(false, l, i) ==> !IsForeign(m, inv, l[i..i + 4])
  {
    hide *;
    var r := Numbers(l, m);
    NumbersMoveAtOnce(l, m);
    NumbersMoveAtOnce(r, inv);
    forall i | TokenAt(false, l, i)
      ensures 0 <= i && i + 4 <= |l|
      ensures Numbers(r, inv)[i..i + 4] == l[i..i + 4] <==> !IsForeign(m, inv, l[i..i + 4])
    {
      TokenBounds(false, l, i);
      RenamedBack(m, inv, l[i..i + 4]);
    }
    if forall i :: TokenAt(false, l, i) ==> !IsForeign(m, inv, l[i..i + 4]) {
      forall j | 0 <= j < |l| ensures Numbers(r, inv)[j] == l[j] {
        BackAt(l, r, Numbers(r, inv), j);
      }
    }
  }

  lemma {:induction false} BackAt(l: string, r: string, back: string, j: int)
    requires |l| == |r| == |back| && 0 <= j < |l|
    requires forall i :: TokenAt(false, r, i) <==> TokenAt(false, l, i)
    requires !Covered(false, l, j) ==> r[j] == l[j]
    requires !Covered(false, r, j) ==> back[j] == r[j]
    requires forall i :: TokenAt(false, l, i) ==> 0 <= i && i + 4 <= |l| && back[i..i + 4] == l[i..i + 4]
    ensures back[j] == l[j]
  {
    hide TokenAt;
    if Covered(false, l, j) {
      var i :| i <= j < i + 4 && TokenAt(false, l, i);
      assert back[j] == back[i..i + 4][j - i] == l[i..i + 4][j - i];
    }
  }

  lemma {:induction false} TokenBounds(blocked: bool, s: string, i: int)
    requires TokenAt(blocked, s, i)
    ensures 0 <= i && i + 4 <= |s|
  {
  }

  // ---------------------------------------------------------------------------------------------
  // Versions

  /** The whole text is one version. */
  predicate IsVersion(t: string) { MatchVersion(t, 0).Some? && MatchVersion(t, 0).value.length == |t| }

  predicate ToVersions(m: map<string, string>) { forall k :: k in m ==> IsVersion(m[k]) }

  function VersionsFrom(blocks: char -> bool, blocked: bool, s: string, m: map<string, string>): string {
    Replace(VersionPattern(blocks), blocked, s, (t: string) => Renamed(m, t))
  }

  /** The pattern treats all digits alike. */
  predicate BlocksAlike(blocks: char -> bool) { forall c :: IsDigit(c) ==> blocks(c) == blocks('0') }

  lemma {:induction false} RunInside(t: string, rest: string, i: nat)
    requires i <= |t| && (rest != [] ==> !IsDigit(rest[0]))
    ensures Run(t + rest, IsDigit, i) == Run(t, IsDigit, i)
  {
    var n := Run(t, IsDigit, i);
    assert forall k :: i <= k < i + n ==> (t + rest)[k] == t[k];
    RunIs(t + rest, IsDigit, i, n);
  }

  lemma {:induction false} NumeralInside(t: string, rest: string, i: nat)
    requires i <= |t| && (rest != [] ==> !IsDigit(rest[0]))
    ensures MatchNumeral(t + rest, i) == MatchNumeral(t, i)
  {
    RunInside(t, rest, i);
    var n := Run(t, IsDigit, i);
    assert (t + rest)[i..i + n] == t[i..i + n];
  }

  lemma {:induction false} PartInside(t: string, rest: string, i: nat)
    requires i <= |t| && (rest != [] ==> !IsDigit(rest[0]))
    ensures MatchPart(t, i).Some? ==> MatchPart(t + rest, i) == MatchPart(t, i)
    ensures MatchPart(t + rest, i).Some? && i + MatchPart(t + rest, i).value.length <= |t| ==> MatchPart(t, i) == MatchPart(t + rest, i)
  {
    NumeralInside(t, rest, i);
  }

  /** The three numbers of a version. */
  predicate HasParts(s: string, x: Match<nat>, y: Match<nat>, z: Match<nat>) {
    && s != [] && s[0] == 'v'
    && MatchPart(s, 1) == Some(x) && MatchPart(s, 1 + x.length) == Some(y)
    && MatchNumeral(s, 1 + x.length + y.length) == Some(z)
  }

  lemma {:induction false} VersionParts(s: string) returns (x: Match<nat>, y: Match<nat>, z: Match<nat>)
    requires MatchVersion(s, 0).Some?
    ensures HasParts(s, x, y, z)
    ensures MatchVersion(s, 0) == Some(Match(1 + x.length + y.length + z.length, Version(x.value, y.value, z.value)))
    ensures MatchVersion(s, 0).value.length <= |s| && x.length >= 2 && y.length >= 2 && z.length >= 1
  {
    hide MatchPart, MatchNumeral;
    x := MatchPart(s, 1).value;
    y := MatchPart(s, 1 + x.length).value;
    z := MatchNumeral(s, 1 + x.length + y.length).value;
  }

  lemma {:induction false} VersionOfParts(s: string, x: Match<nat>, y: Match<nat>, z: Match<nat>)
    requires HasParts(s, x, y, z)
    ensures MatchVersion(s, 0) == Some(Match(1 + x.length + y.length + z.length, Version(x.value, y.value, z.value)))
  {
    hide MatchPart, MatchNumeral;
  }

  predicate NoDigitFirst(s: string) { s != [] ==> !IsDigit(s[0]) }

  /** The parts within `t` are the same with or without what follows it. */
  lemma {:induction false} PartsInside(t: string, rest: string, x: Match<nat>, y: Match<nat>, z: Match<nat>)
    requires NoDigitFirst(rest) && 1 + x.length + y.length + z.length == |t| && x.length >= 2 && y.length >= 2 && z.length >= 1
    ensures HasParts(t + rest, x, y, z) <==> HasParts(t, x, y, z)
  {
    hide MatchPart, MatchNumeral, IsDigit;
    var i, j := 1 + x.length, 1 + x.length + y.length;
    assert (t + rest)[0] == t[0];
    PartInside(t, rest, 1);
    assert MatchPart(t + rest, 1) == Some(x) <==> MatchPart(t, 1) == Some(x);
    PartInside(t, rest, i);
    assert MatchPart(t + rest, i) == Some(y) <==> MatchPart(t, i) == Some(y);
    NumeralInside(t, rest, j);
  }

  /** A version stays one whatever follows it, but for a further digit. */
  lemma {:induction false} VersionExtends(t: string, rest: string)
    requires IsVersion(t) && NoDigitFirst(rest)
    ensures MatchVersion(t + rest, 0) == MatchVersion(t, 0)
  {
    hide MatchPart, MatchNumeral, MatchVersion, NoDigitFirst, HasParts;
    var x, y, z := VersionParts(t);
    PartsInside(t, rest, x, y, z);
    VersionOfParts(t + rest, x, y, z);
  }

  /** The text of a token is a version on its own. */
  lemma {:induction false} VersionAlone(s: string)
    requires MatchVersion(s, 0).Some?
    ensures MatchVersion(s, 0).value.length <= |s|
    ensures IsVersion(s[..MatchVersion(s, 0).value.length])
    ensures MatchVersion(s[..MatchVersion(s, 0).value.length], 0) == MatchVersion(s, 0)
    ensures NoDigitFirst(s[MatchVersion(s, 0).value.length..])
  {
    var n := MatchVersion(s, 0).value.length;
    var x, y, z := VersionParts(s);
    assert NoDigitFirst(s[n..]);
    hide MatchPart, MatchNumeral, MatchVersion, NoDigitFirst, HasParts;
    FirstPart(s, n);
    PartsInside(s[..n], s[n..], x, y, z);
    VersionOfParts(s[..n], x, y, z);
  }

  /** Behind its letter a version is digits and points, the last one a digit. */
  lemma {:induction false} VersionLetters(t: string)
    requires IsVersion(t)
    ensures |t| >= 2 && t[0] == 'v' && IsDigit(t[|t| - 1])
    ensures forall k :: 1 <= k < |t| ==> DigitOrDot(t[k])
  {
    hide *;
    WholeVersion(t);
    var x, y, z := VersionParts(t);
    PartsAre(t, x, y, z);
    PartLetters(t, 1);
    PartLetters(t, 1 + x.length);
    NumeralLetters(t, 1 + x.length + y.length);
  }

  lemma {:induction false} WholeVersion(t: string)
    requires IsVersion(t)
    ensures MatchVersion(t, 0).Some? && MatchVersion(t, 0).value.length == |t|
  {
    hide MatchVersion;
  }

  lemma {:induction false} PartsAre(s: string, x: Match<nat>, y: Match<nat>, z: Match<nat>)
    requires HasParts(s, x, y, z)
    ensures s != [] && s[0] == 'v'
    ensures MatchPart(s, 1) == Some(x) && MatchPart(s, 1 + x.length) == Some(y)
    ensures MatchNumeral(s, 1 + x.length + y.length) == Some(z)
  {
    hide MatchPart, MatchNumeral;
  }

  lemma {:induction false} NumeralLetters(s: string, i: nat)
    requires MatchNumeral(s, i).Some?
    ensures i + MatchNumeral(s, i).value.length <= |s|
    ensures forall k :: i <= k < i + MatchNumeral(s, i).value.length ==> DigitOrDot(s[k])
  {
    hide ValueOf, Run;
  }

  lemma {:induction false} PartLetters(s: string, i: nat)
    requires MatchPart(s, i).Some?
    ensures i + MatchPart(s, i).value.length <= |s|
    ensures forall k :: i <= k < i + MatchPart(s, i).value.length ==> DigitOrDot(s[k])
  {
    NumeralLetters(s, i);
  }

  /** The digits and points at the start of `s`: all that the start of a version in front of it depends on. */
  function Lead(s: string): (r: string)
    ensures |r| <= |s| && s[..|r|] == r
    ensures |r| < |s| ==> !DigitOrDot(s[|r|])
  {
    s[..Run(s, DigitOrDot, 0)]
  }

  lemma {:induction false} LeadFirst(c: char, s: string)
    ensures Lead([c] + s) == if DigitOrDot(c) then [c] + Lead(s) else ""
  {
    hide DigitOrDot;
    var n := Run(s, DigitOrDot, 0);
    var all := [c] + s;
    if DigitOrDot(c) {
      forall k | 0 <= k < n + 1 ensures DigitOrDot(all[k]) {
        assert k > 0 ==> all[k] == s[k - 1];
      }
      assert n < |s| ==> all[n + 1] == s[n];
      RunIs(all, DigitOrDot, 0, n + 1);
    } else {
      RunIs(all, DigitOrDot, 0, 0);
    }
  }

  /** A version behind `[c]` lies in the lead of what follows. */
  lemma {:induction false} VersionInLead(c: char, r: string, n: nat)
    requires n <= 1 + |r| && IsVersion(([c] + r)[..n])
    ensures 2 <= n <= 1 + |Lead(r)| && ([c] + r)[..n] == [c] + Lead(r)[..n - 1]
  {
    var b := [c] + r;
    VersionLetters(b[..n]);
    hide IsVersion, DigitOrDot;
    var lead := Lead(r);
    forall k | 0 <= k < n - 1 ensures DigitOrDot(r[k]) {
      assert b[..n][1 + k] == r[k];
    }
    assert b[..n] == [c] + r[..n - 1];
    assert r[..n - 1] == lead[..n - 1];
  }

  /** Whether a version starts at a letter is settled by the digits and points that follow it. */
  lemma {:induction false} SameLead(c: char, s: string, r: string)
    requires Lead(s) == Lead(r) && MatchVersion([c] + r, 0).Some?
    ensures MatchVersion([c] + s, 0).Some?
  {
    hide MatchVersion, DigitOrDot, Lead, NoDigitFirst, IsVersion;
    var a, b := [c] + s, [c] + r;
    VersionAlone(b);
    var n := MatchVersion(b, 0).value.length;
    VersionInLead(c, r, n);
    var t := b[..n];
    assert s[..|Lead(s)|] == Lead(s);
    assert a[..n] == [c] + Lead(s)[..n - 1] == t;
    assert NoDigitFirst(a[n..]) by {
      AfterLead(c, s, r, n);
    }
    VersionExtends(t, a[n..]);
    assert a == t + a[n..];
  }

  lemma {:induction false} AfterLead(c: char, s: string, r: string, n: nat)
    requires Lead(s) == Lead(r) && 1 <= n <= 1 + |Lead(r)| && NoDigitFirst(([c] + r)[n..])
    ensures NoDigitFirst(([c] + s)[n..])
  {
    var a, b := [c] + s, [c] + r;
    if n < |a| {
      assert a[n..][0] == s[n - 1];
      if n - 1 < |Lead(s)| {
        assert s[n - 1] == Lead(s)[n - 1] == r[n - 1] == b[n..][0];
      } else {
        assert !DigitOrDot(s[n - 1]);
      }
    }
  }

  /** The pieces of what one pass writes are the pieces it read, each token renamed once. */
  lemma {:induction false} VersionsReadBack(blocks: char -> bool, blocked: bool, s: string, m: map<string, string>)
    requires ToVersions(m) && BlocksAlike(blocks)
    ensures Pieces(VersionPattern(blocks), blocked, VersionsFrom(blocks, blocked, s, m))
         == Move(Pieces(VersionPattern(blocks), blocked, s), (t: string) => Renamed(m, t))
    ensures Lead(VersionsFrom(blocks, blocked, s, m)) == Lead(s)
    decreases |s|
  {
    if s != [] {
      var n := TokenLength(VersionPattern(blocks), blocked, s);
      if n > 0 {
        VersionsReadBack(blocks, blocks('0'), s[n..], m);
        TokenReadBack(blocks, blocked, s, m, n);
      } else {
        VersionsReadBack(blocks, blocks(s[0]), s[1..], m);
        PlainReadBack(blocks, blocked, s, m);
      }
    }
  }

  lemma {:induction false} TokenReadBack(blocks: char -> bool, blocked: bool, s: string, m: map<string, string>, n: nat)
    requires BlocksAlike(blocks) && s != [] && ToVersions(m) && n == TokenLength(VersionPattern(blocks), blocked, s) > 0
    requires Pieces(VersionPattern(blocks), blocks('0'), VersionsFrom(blocks, blocks('0'), s[n..], m))
          == Move(Pieces(VersionPattern(blocks), blocks('0'), s[n..]), (t: string) => Renamed(m, t))
    requires Lead(VersionsFrom(blocks, blocks('0'), s[n..], m)) == Lead(s[n..])
    ensures Pieces(VersionPattern(blocks), blocked, VersionsFrom(blocks, blocked, s, m))
         == Move(Pieces(VersionPattern(blocks), blocked, s), (t: string) => Renamed(m, t))
    ensures Lead(VersionsFrom(blocks, blocked, s, m)) == Lead(s)
  {
    hide *;
    var t, rest := s[..n], VersionsFrom(blocks, blocks('0'), s[n..], m);
    TokenStep(blocks, blocked, s, m, n);
    SameLeadDigit(s[n..], rest);
    ReadToken(blocks, t, s[n..]);
    ReadToken(blocks, Renamed(m, t), rest);
  }

  lemma {:induction false} TokenStep(blocks: char -> bool, blocked: bool, s: string, m: map<string, string>, n: nat)
    requires BlocksAlike(blocks) && s != [] && ToVersions(m) && n == TokenLength(VersionPattern(blocks), blocked, s) > 0
    ensures !blocked && IsVersion(s[..n]) && IsVersion(Renamed(m, s[..n])) && NoDigitFirst(s[n..]) && s == s[..n] + s[n..]
    ensures VersionsFrom(blocks, blocked, s, m) == Renamed(m, s[..n]) + VersionsFrom(blocks, blocks('0'), s[n..], m)
    ensures Move(Pieces(VersionPattern(blocks), blocked, s), (t: string) => Renamed(m, t))
         == [Token(Renamed(m, s[..n]))] + Move(Pieces(VersionPattern(blocks), blocks('0'), s[n..]), (t: string) => Renamed(m, t))
  {
    TokenIsVersion(blocks, blocked, s, n);
    PiecesStep(VersionPattern(blocks), blocked, s);
    hide *;
    RenamedIsVersion(m, s[..n]);
    FirstPart(s, n);
    MovedStep(blocks, blocked, s, m, n);
  }

  lemma {:induction false} MovedStep(blocks: char -> bool, blocked: bool, s: string, m: map<string, string>, n: nat)
    requires n <= |s|
    requires Pieces(VersionPattern(blocks), blocked, s)
          == [Token(s[..n])] + Pieces(VersionPattern(blocks), blocks('0'), s[n..])
    ensures VersionsFrom(blocks, blocked, s, m) == Renamed(m, s[..n]) + VersionsFrom(blocks, blocks('0'), s[n..], m)
    ensures Move(Pieces(VersionPattern(blocks), blocked, s), (t: string) => Renamed(m, t))
         == [Token(Renamed(m, s[..n]))] + Move(Pieces(VersionPattern(blocks), blocks('0'), s[n..]), (t: string) => Renamed(m, t))
  {
    hide Pieces, Move, Put, Renamed;
    MoveFirst(Token(s[..n]), Pieces(VersionPattern(blocks), blocks('0'), s[n..]), (t: string) => Renamed(m, t));
  }

  lemma {:induction false} TokenIsVersion(blocks: char -> bool, blocked: bool, s: string, n: nat)
    requires BlocksAlike(blocks) && s != [] && n == TokenLength(VersionPattern(blocks), blocked, s) > 0
    ensures !blocked && IsVersion(s[..n]) && NoDigitFirst(s[n..])
    ensures VersionPattern(blocks).blocks(s[n - 1]) == blocks('0')
  {
    hide NoDigitFirst, MatchVersion;
    VersionAlone(s);
    VersionLetters(s[..n]);
    hide IsVersion;
    assert s[n - 1] == s[..n][n - 1];
  }

  lemma {:induction false} PiecesStep(p: Pattern, blocked: bool, s: string)
    requires s != []
    ensures var n := TokenLength(p, blocked, s);
            var k := if n > 0 then n else 1;
            Pieces(p, blocked, s) == [if n > 0 then Token(s[..k]) else Plain(s[0])] + Pieces(p, p.blocks(s[k - 1]), s[k..])
  {
    hide TokenLength;
  }

  lemma {:induction false} RenamedIsVersion(m: map<string, string>, t: string)
    requires ToVersions(m) && IsVersion(t)
    ensures IsVersion(Renamed(m, t))
  {
    hide IsVersion;
  }

  lemma {:induction false} ReadToken(blocks: char -> bool, t: string, rest: string)
    requires BlocksAlike(blocks) && IsVersion(t) && NoDigitFirst(rest)
    ensures Pieces(VersionPattern(blocks), false, t + rest) == [Token(t)] + Pieces(VersionPattern(blocks), blocks('0'), rest)
    ensures Lead(t + rest) == ""
  {
    var r := t + rest;
    VersionLetters(t);
    VersionExtends(t, rest);
    assert r[0] == 'v' && r[|t| - 1] == t[|t| - 1];
    assert Run(r, DigitOrDot, 0) == 0;
    assert TokenLength(VersionPattern(blocks), false, r) == |t|;
    hide IsVersion, MatchVersion, NoDigitFirst, TokenLength, DigitOrDot;
    assert r[..|t|] == t && r[|t|..] == rest;
  }

  lemma {:induction false} SameLeadDigit(s: string, r: string)
    requires Lead(s) == Lead(r) && NoDigitFirst(s)
    ensures NoDigitFirst(r)
  {
  }

  lemma {:induction false} PlainReadBack(blocks: char -> bool, blocked: bool, s: string, m: map<string, string>)
    requires BlocksAlike(blocks) && s != [] && ToVersions(m) && TokenLength(VersionPattern(blocks), blocked, s) == 0
    requires Pieces(VersionPattern(blocks), blocks(s[0]), VersionsFrom(blocks, blocks(s[0]), s[1..], m))
          == Move(Pieces(VersionPattern(blocks), blocks(s[0]), s[1..]), (t: string) => Renamed(m, t))
    requires Lead(VersionsFrom(blocks, blocks(s[0]), s[1..], m)) == Lead(s[1..])
    ensures Pieces(VersionPattern(blocks), blocked, VersionsFrom(blocks, blocked, s, m))
         == Move(Pieces(VersionPattern(blocks), blocked, s), (t: string) => Renamed(m, t))
    ensures Lead(VersionsFrom(blocks, blocked, s, m)) == Lead(s)
  {
    var f := (t: string) => Renamed(m, t);
    var c, b := s[0], blocks(s[0]);
    var more := Pieces(VersionPattern(blocks), b, s[1..]);
    var rest := VersionsFrom(blocks, b, s[1..], m);
    assert s == [c] + s[1..];
    MoveFirst(Plain(c), more, f);
    assert VersionsFrom(blocks, blocked, s, m) == [c] + rest;
    LeadFirst(c, s[1..]);
    LeadFirst(c, rest);
    if MatchVersion([c] + rest, 0).Some? {
      SameLead(c, s[1..], rest);
    }
    hide MatchVersion, Renamed, VersionsFrom, Lead, DigitOrDot;
    var r := [c] + rest;
    assert r[1..] == rest;
  }

  /**
   * One pass renames every version of the line once: what is read from the result is what was read from the line, with
   * the same text in between, even when the new version of one is the old version of another.
   */
  lemma {:induction false} VersionsMoveAtOnce(l: Line, m: map<string, string>)
    requires ToVersions(m)
    ensures Pieces(LATIN_VERSION, false, LatinVersions(l, m))
         == Move(Pieces(LATIN_VERSION, false, l), (t: string) => Renamed(m, t))
    ensures Put(Pieces(LATIN_VERSION, false, l)) == l
  {
    VersionsReadBack(IsWord, false, l, m);
    PutPieces(LATIN_VERSION, false, l);
  }

  /** The inverse map undoes the pass exactly when no version of the line is a new one without being an old one. */
  lemma {:induction false} VersionsAreUndoneIff(l: Line, m: map<string, string>, inv: map<string, string>)
    requires ToVersions(m) && ToVersions(inv) && Inverts(inv, m)
    ensures LatinVersions(LatinVersions(l, m), inv) == l
       <==> forall t :: Token(t) in Pieces(LATIN_VERSION, false, l) ==> !IsForeign(m, inv, t)
  {
    var f, g := (t: string) => Renamed(m, t), (t: string) => Renamed(inv, t);
    var pieces := Pieces(LATIN_VERSION, false, l);
    var r := LatinVersions(l, m);
    VersionsMoveAtOnce(l, m);
    VersionsMoveAtOnce(r, inv);
    assert LatinVersions(r, inv) == Put(Move(Pieces(LATIN_VERSION, false, r), g));
    hide Pieces, LatinVersions, ToVersions, Put, Inverts, IsForeign, Renamed;
    MovedBack(pieces, m, inv);
  }

  lemma {:induction false} MovedBack(pieces: seq<Piece>, m: map<string, string>, inv: map<string, string>)
    requires Inverts(inv, m)
    ensures Move(Move(pieces, (t: string) => Renamed(m, t)), (t: string) => Renamed(inv, t)) == pieces
       <==> forall t :: Token(t) in pieces ==> !IsForeign(m, inv, t)
  {
    hide Inverts, IsForeign, Renamed;
    var back := Move(Move(pieces, (t: string) => Renamed(m, t)), (t: string) => Renamed(inv, t));
    forall i | 0 <= i < |pieces|
      ensures back[i] == pieces[i] <==> (pieces[i].Plain? || !IsForeign(m, inv, pieces[i].text))
    {
      if pieces[i].Token? {
        RenamedBack(m, inv, pieces[i].text);
      }
    }
    if back == pieces {
      forall t | Token(t) in pieces ensures !IsForeign(m, inv, t) {
        var i :| 0 <= i < |pieces| && pieces[i] == Token(t);
        assert back[i] == pieces[i];
      }
    }
    if forall t :: Token(t) in pieces ==> !IsForeign(m, inv, t) {
      forall i | 0 <= i < |pieces| ensures back[i] == pieces[i] {
        assert pieces[i].Token? ==> Token(pieces[i].text) in pieces;
      }
    }
  }

  // ---------------------------------------------------------------------------------------------
  // Versions in Persian digits

  const LATIN_LIKE := VersionPattern(Never)

  /** The piece as the Persian pattern reads it. */
  function Reading(x: Piece): Piece {
    match x case Plain(c) => Plain(PersianDigit(c)) case Token(t) => Token(OnlyPersian(t))
  }

  lemma {:induction false} PersianFirst(blocked: bool, s: string)
    requires s != []
    ensures TokenLength(PERSIAN_VERSION, blocked, s) == TokenLength(LATIN_LIKE, blocked, OnlyPersian(s))
  {
    assert PersianDigit(s[0]) == 'v' <==> s[0] == 'v';
    hide VersionLength;
  }

  lemma {:induction false} OnlyPersianParts(s: string, k: nat)
    requires 1 <= k <= |s|
    ensures var h := OnlyPersian(s);
            OnlyPersian(s[..k]) == h[..k] && OnlyPersian(s[k..]) == h[k..] && PersianDigit(s[0]) == h[0]
  {
    hide PersianDigit;
  }

  /** Persian versions are the versions of the text read in Persian digits. */
  lemma {:induction false} PersianPieces(blocked: bool, s: string)
    ensures Map(Pieces(PERSIAN_VERSION, blocked, s), Reading) == Pieces(LATIN_LIKE, blocked, OnlyPersian(s))
    decreases |s|
  {
    if s != [] {
      var n := TokenLength(PERSIAN_VERSION, blocked, s);
      var k := if n > 0 then n else 1;
      PersianFirst(blocked, s);
      PiecesStep(PERSIAN_VERSION, blocked, s);
      PiecesStep(LATIN_LIKE, blocked, OnlyPersian(s));
      OnlyPersianParts(s, k);
      PersianPieces(false, s[k..]);
      hide TokenLength, PersianDigit, Pieces, OnlyPersian, VersionLength;
      ReadFirst(if n > 0 then Token(s[..k]) else Plain(s[0]), Pieces(PERSIAN_VERSION, false, s[k..]));
    }
  }

  lemma {:induction false} ReadFirst(x: Piece, rest: seq<Piece>)
    ensures Map([x] + rest, Reading) == [Reading(x)] + Map(rest, Reading)
  {
    hide Reading;
    MapConcat([x], rest, Reading);
    assert Map([x], Reading) == [Reading(x)];
  }

  /** A text without Latin digits that reads as a version. */
  predicate IsPersianVersion(t: string) { IsVersion(OnlyPersian(t)) && OnlyPersian(t) == Latin(t) }

  lemma {:induction false} PersianToken(blocked: bool, s: string)
    requires s != [] && TokenLength(PERSIAN_VERSION, blocked, s) > 0
    ensures IsPersianVersion(s[..TokenLength(PERSIAN_VERSION, blocked, s)])
  {
    var n, h := TokenLength(PERSIAN_VERSION, blocked, s), OnlyPersian(s);
    PersianFirst(blocked, s);
    OnlyPersianParts(s, n);
    LikeToken(blocked, h);
    hide *;
    AllPersianDigits(s[..n]);
    PersianVersionIs(s[..n]);
  }

  lemma {:induction false} PersianVersionIs(t: string)
    ensures IsPersianVersion(t) <==> IsVersion(OnlyPersian(t)) && OnlyPersian(t) == Latin(t)
  {
    hide IsVersion, OnlyPersian, Latin;
  }

  lemma {:induction false} LikeToken(blocked: bool, h: string)
    requires h != [] && TokenLength(LATIN_LIKE, blocked, h) > 0
    ensures IsVersion(h[..TokenLength(LATIN_LIKE, blocked, h)])
  {
    hide MatchVersion, IsVersion;
    VersionAlone(h);
  }

  /** What reads as a version in Persian digits holds no other digits. */
  lemma {:induction false} AllPersianDigits(t: string)
    requires IsVersion(OnlyPersian(t))
    ensures OnlyPersian(t) == Latin(t)
  {
    VersionLetters(OnlyPersian(t));
    hide IsVersion;
    forall k | 0 <= k < |t| ensures OnlyPersian(t)[k] == Latin(t)[k] {
      assert k == 0 || DigitOrDot(OnlyPersian(t)[k]);
    }
  }

  lemma {:induction false} PersianTokens(blocked: bool, s: string)
    ensures forall x :: x in Pieces(PERSIAN_VERSION, blocked, s) && x.Token? ==> IsPersianVersion(x.text)
    decreases |s|
  {
    hide IsPersianVersion, TokenLength;
    if s != [] {
      var n := TokenLength(PERSIAN_VERSION, blocked, s);
      if n > 0 {
        PersianToken(blocked, s);
        PersianTokens(false, s[n..]);
      } else {
        PersianTokens(false, s[1..]);
      }
    }
  }

  /** The new text of a token reads as the new version. */
  lemma {:induction false} PersianReads(m: map<string, string>, t: string)
    requires ToVersions(m) && IsPersianVersion(t)
    ensures OnlyPersian(PersianRenamed(m, t)) == Renamed(m, OnlyPersian(t))
    ensures IsPersianVersion(PersianRenamed(m, t))
  {
    var h := OnlyPersian(t);
    if h in m {
      VersionInPersian(m[h]);
    }
  }

  lemma {:induction false} VersionInPersian(v: string)
    requires IsVersion(v)
    ensures OnlyPersian(Persian(v)) == v && Latin(Persian(v)) == v
  {
    VersionLetters(v);
    hide IsVersion;
    assert forall k :: 0 <= k < |v| ==> v[k] == 'v' || DigitOrDot(v[k]);
  }

  /** Texts of pieces that read alike have the same length. */
  lemma {:induction false} SameReading(a: seq<Piece>, b: seq<Piece>)
    requires Map(a, Reading) == Map(b, Reading) && Put(a) == Put(b)
    ensures a == b
  {
    assert |a| == |b| by {
      assert |Map(a, Reading)| == |Map(b, Reading)|;
    }
    if a != [] {
      var x, y := a[0], b[0];
      assert Map(a, Reading)[0] == Map(b, Reading)[0];
      assert |TextOf(x)| == |TextOf(y)|;
      PutFirst(x, a[1..]);
      PutFirst(y, b[1..]);
      assert a == [x] + a[1..] && b == [y] + b[1..];
      SameStart(TextOf(x), Put(a[1..]), TextOf(y), Put(b[1..]));
      assert Map(a[1..], Reading) == Map(a, Reading)[1..] && Map(b[1..], Reading) == Map(b, Reading)[1..];
      SameReading(a[1..], b[1..]);
    }
  }

  lemma {:induction false} SameStart(a: string, b: string, c: string, d: string)
    requires a + b == c + d && |a| == |c|
    ensures a == c && b == d
  {
    assert a == (a + b)[..|a|] && b == (a + b)[|a|..];
  }

  /** What the pass writes, read in Persian digits, is the pass over what it read. */
  lemma {:induction false} PersianPut(pieces: seq<Piece>, m: map<string, string>)
    requires ToVersions(m) && forall x :: x in pieces && x.Token? ==> IsPersianVersion(x.text)
    ensures Map(Move(pieces, (t: string) => PersianRenamed(m, t)), Reading)
         == Move(Map(pieces, Reading), (t: string) => Renamed(m, t))
    ensures OnlyPersian(Put(Move(pieces, (t: string) => PersianRenamed(m, t))))
         == Put(Move(Map(pieces, Reading), (t: string) => Renamed(m, t)))
  {
    var f, g := (t: string) => PersianRenamed(m, t), (t: string) => Renamed(m, t);
    hide IsPersianVersion, PersianRenamed, Renamed, ToVersions, PersianDigit;
    forall i | 0 <= i < |pieces| ensures Reading(MovePiece(pieces[i], f)) == MovePiece(Reading(pieces[i]), g) {
      if pieces[i].Token? {
        assert pieces[i] in pieces;
        PersianReads(m, pieces[i].text);
      }
    }
    PutReading(Move(pieces, f));
  }

  lemma {:induction false} PutReading(pieces: seq<Piece>)
    ensures OnlyPersian(Put(pieces)) == Put(Map(pieces, Reading))
  {
    if pieces != [] {
      hide PersianDigit;
      PutReading(pieces[1..]);
      MapConcat(TextOf(pieces[0]), Put(pieces[1..]), PersianDigit);
      assert Map(pieces, Reading)[1..] == Map(pieces[1..], Reading);
      assert OnlyPersian(TextOf(pieces[0])) == TextOf(Reading(pieces[0]));
    }
  }

  /** The pass over Persian versions renames every one of them once, with the same text in between. */
  lemma {:induction false} PersianVersionsMoveAtOnce(l: Line, m: map<string, string>)
    requires ToVersions(m)
    ensures Pieces(PERSIAN_VERSION, false, PersianVersions(l, m))
         == Move(Pieces(PERSIAN_VERSION, false, l), (t: string) => PersianRenamed(m, t))
    ensures Put(Pieces(PERSIAN_VERSION, false, l)) == l
  {
    var f := (t: string) => PersianRenamed(m, t);
    var pieces, r := Pieces(PERSIAN_VERSION, false, l), PersianVersions(l, m);
    PutPieces(PERSIAN_VERSION, false, l);
    PutPieces(PERSIAN_VERSION, false, r);
    PersianTokens(false, l);
    PersianPut(pieces, m);
    PersianPieces(false, l);
    PersianPieces(false, r);
    VersionsReadBack(Never, false, OnlyPersian(l), m);
    hide Pieces, Put, Move, IsPersianVersion, ToVersions, OnlyPersian;
    SameReading(Pieces(PERSIAN_VERSION, false, r), Move(pieces, f));
  }

  /** The inverse map undoes the pass exactly when no version is a new one without being an old one. */
  lemma {:induction false} PersianVersionsAreUndoneIff(l: Line, m: map<string, string>, inv: map<string, string>)
    requires ToVersions(m) && ToVersions(inv) && Inverts(inv, m)
    ensures PersianVersions(PersianVersions(l, m), inv) == l
       <==> forall t :: Token(t) in Pieces(PERSIAN_VERSION, false, l) ==> !IsForeign(m, inv, Latin(t))
  {
    var pieces, r := Pieces(PERSIAN_VERSION, false, l), PersianVersions(l, m);
    var f, g := (t: string) => PersianRenamed(m, t), (t: string) => PersianRenamed(inv, t);
    PersianVersionsMoveAtOnce(l, m);
    PersianVersionsMoveAtOnce(r, inv);
    PersianTokens(false, l);
    assert PersianVersions(r, inv) == Put(Move(Move(pieces, f), g));
    hide Pieces, PersianVersions, ToVersions, Put, Inverts, IsForeign, PersianRenamed, IsPersianVersion;
    PersianMovedBack(pieces, m, inv);
  }

  lemma {:induction false} PersianBack(m: map<string, string>, inv: map<string, string>, t: string)
    requires ToVersions(m) && ToVersions(inv) && Inverts(inv, m) && IsPersianVersion(t)
    ensures PersianRenamed(inv, PersianRenamed(m, t)) == t <==> !IsForeign(m, inv, Latin(t))
  {
    var h := Latin(t);
    PersianOfLatin(t);
    hide IsVersion, Latin, Persian, IsPersianVersion;
    if h in m {
      VersionInPersian(m[h]);
    } else if h in inv {
      VersionInPersian(inv[h]);
    }
  }

  lemma {:induction false} PersianOfLatin(t: string)
    requires OnlyPersian(t) == Latin(t)
    ensures Persian(Latin(t)) == t
  {
    forall k | 0 <= k < |t| ensures Persian(Latin(t))[k] == t[k] {
      assert OnlyPersian(t)[k] == Latin(t)[k];
    }
  }

  lemma {:induction false} PersianMovedBack(pieces: seq<Piece>, m: map<string, string>, inv: map<string, string>)
    requires ToVersions(m) && ToVersions(inv) && Inverts(inv, m)
    requires forall x :: x in pieces && x.Token? ==> IsPersianVersion(x.text)
    ensures Move(Move(pieces, (t: string) => PersianRenamed(m, t)), (t: string) => PersianRenamed(inv, t)) == pieces
       <==> forall t :: Token(t) in pieces ==> !IsForeign(m, inv, Latin(t))
  {
    hide Inverts, IsForeign, PersianRenamed, ToVersions, IsPersianVersion, Latin;
    var back := Move(Move(pieces, (t: string) => PersianRenamed(m, t)), (t: string) => PersianRenamed(inv, t));
    forall i | 0 <= i < |pieces|
      ensures back[i] == pieces[i] <==> (pieces[i].Plain? || !IsForeign(m, inv, Latin(pieces[i].text)))
    {
      if pieces[i].Token? {
        assert pieces[i] in pieces;
        PersianBack(m, inv, pieces[i].text);
      }
    }
    if back == pieces {
      forall t | Token(t) in pieces ensures !IsForeign(m, inv, Latin(t)) {
        var i :| 0 <= i < |pieces| && pieces[i] == Token(t);
        assert back[i] == pieces[i];
      }
    }
    if forall t :: Token(t) in pieces ==> !IsForeign(m, inv, Latin(t)) {
      forall i | 0 <= i < |pieces| ensures back[i] == pieces[i] {
        assert pieces[i].Token? ==> Token(pieces[i].text) in pieces;
      }
    }
  }
}
