/**
 * Which changelog files can be read and which branches get new versions, said on the lines and entries themselves, without
 * the functions that read and plan them.
 */
module ChangelogReads {
  import opened Changelog
  import opened ChangelogPlan
  import opened Decimals
  import opened Seqs
  import opened Texts
  import opened Versions

  // ---------------------------------------------------------------------------------------------
  // The file

  predicate Closes(l: Line) { l == "  }" || l == "  }," }

  predicate Marks(l: Line) { Contains(l, "<<<<<<<") || Contains(l, ">>>>>>>") }

  /** The first block of `body` ends on line `k`: opened, closed there first, and no conflict marker inside. */
  predicate FirstBlock(body: seq<Line>, k: int) {
    && 1 <= k < |body| && body[0] == "  {" && Closes(body[k])
    && forall i :: 1 <= i < k ==> !Closes(body[i]) && !Marks(body[i])
  }

  /** `body` is the blocks of `entries`, one after the other and nothing between them. */
  ghost predicate AreBlocks(body: seq<Line>, entries: seq<Entry>)
    decreases |entries|
  {
    if entries == [] then body == []
    else exists k :: FirstBlock(body, k) && entries[0] == body[..k] + ["  }"] && AreBlocks(body[k + 1..], entries[1..])
  }

  lemma {:induction false} BodyReadsIff(body: seq<Line>, entries: seq<Entry>)
    ensures SplitBody(body) == Ok(entries) <==> AreBlocks(body, entries)
    decreases |body|
  {
    hide HasMarker;
    if body != [] && body[0] == "  {" {
      var k := FindFrom(body, StopsEntry, 1);
      StopIs(body, k);
      if k < |body| && ClosesEntry(body[k]) {
        var rest := body[k + 1..];
        var e := body[..k] + ["  }"];
        if entries != [] {
          BodyReadsIff(rest, entries[1..]);
        }
        FirstThenRest(body, k, e, entries);
      }
    }
  }

  lemma {:induction false} StopIs(body: seq<Line>, k: nat)
    requires body != [] && body[0] == "  {" && k == FindFrom(body, StopsEntry, 1)
    ensures forall j :: FirstBlock(body, j) <==> j == k < |body| && ClosesEntry(body[k])
  {
    assert forall l :: StopsEntry(l) <==> Closes(l) || Marks(l);
    assert forall l :: ClosesEntry(l) <==> Closes(l);
    hide StopsEntry, Closes, Marks;
    forall j | FirstBlock(body, j) ensures j == k {
      FindFromIs(body, StopsEntry, 1, j);
    }
  }

  lemma {:induction false} FirstThenRest(body: seq<Line>, k: nat, e: Entry, entries: seq<Entry>)
    requires k < |body| && (forall j :: FirstBlock(body, j) <==> j == k) && e == body[..k] + ["  }"]
    requires entries != [] ==> (SplitBody(body[k + 1..]) == Ok(entries[1..]) <==> AreBlocks(body[k + 1..], entries[1..]))
    requires SplitBody(body) == match SplitBody(body[k + 1..]) case Err(x) => Err(x) case Ok(rest) => Ok([e] + rest)
    ensures SplitBody(body) == Ok(entries) <==> AreBlocks(body, entries)
  {
    hide SplitBody, FirstBlock;
    var rest := SplitBody(body[k + 1..]);
    if entries != [] {
      assert entries == [entries[0]] + entries[1..];
      assert rest.Ok? ==> ([e] + rest.value)[0] == e && ([e] + rest.value)[1..] == rest.value;
      assert AreBlocks(body, entries) <==> entries[0] == e && AreBlocks(body[k + 1..], entries[1..]);
    }
  }

  /** `export const v<digits>Updates: AIUpdateLog[] = [` at the end of the line. */
  predicate OpensAfter(l: Line, front: string, digits: string) {
    digits != "" && AllDigits(digits) && l == front + "export const v" + digits + "Updates: AIUpdateLog[] = ["
  }

  ghost predicate Opens(l: Line) { exists front, digits :: OpensAfter(l, front, digits) }

  lemma {:induction false} DigitsEnd(front: string, digits: string)
    requires AllDigits(digits) && front != [] && !IsDigit(front[|front| - 1])
    ensures DigitsAtEnd(front + digits) == |digits|
  {
    var s := front + digits;
    if digits == "" {
      assert s == front;
    } else {
      assert s[..|s| - 1] == front + digits[..|digits| - 1];
      assert s[|s| - 1] == digits[|digits| - 1];
      DigitsEnd(front, digits[..|digits| - 1]);
    }
  }

  lemma {:induction false} EndDigits(s: string)
    ensures AllDigits(s[|s| - DigitsAtEnd(s)..])
  {
    if s != [] && IsDigit(s[|s| - 1]) {
      var t := s[..|s| - 1];
      EndDigits(t);
      assert s[|s| - DigitsAtEnd(s)..] == t[|t| - DigitsAtEnd(t)..] + [s[|s| - 1]];
    }
  }

  lemma {:induction false} SuffixOf(front: string, suffix: string)
    ensures EndsWith(front + suffix, suffix)
    ensures (front + suffix)[..|front + suffix| - |suffix|] == front
  {
  }

  lemma {:induction false} SuffixFound(l: string, suffix: string)
    requires EndsWith(l, suffix)
    ensures l == l[..|l| - |suffix|] + suffix
  {
  }

  lemma {:induction false} OpensRead(l: Line, front: string, digits: string)
    requires OpensAfter(l, front, digits)
    ensures OpensArray(l)
  {
    var name := front + ARRAY_NAME;
    assert name[|name| - 1] == ARRAY_NAME[13] == 'v';
    var all := name + digits;
    assert l == all + ARRAY_OPEN;
    hide EndsWith, DigitsAtEnd, ARRAY_NAME, ARRAY_OPEN;
    DigitsEnd(name, digits);
    SuffixOf(all, ARRAY_OPEN);
    SuffixOf(name, digits);
    SuffixOf(front, ARRAY_NAME);
  }

  lemma {:induction false} OpensFound(l: Line) returns (front: string, digits: string)
    requires OpensArray(l)
    ensures OpensAfter(l, front, digits)
  {
    var all := l[..|l| - |ARRAY_OPEN|];
    var n := DigitsAtEnd(all);
    EndDigits(all);
    var name := all[..|all| - n];
    front, digits := name[..|name| - |ARRAY_NAME|], all[|all| - n..];
    assert l == front + ARRAY_NAME + digits + ARRAY_OPEN by {
      hide DigitsAtEnd, ARRAY_NAME, ARRAY_OPEN;
      SuffixFound(l, ARRAY_OPEN);
      SuffixFound(name, ARRAY_NAME);
      assert all == name + digits;
    }
  }

  lemma {:induction false} OpensIff(l: Line)
    ensures OpensArray(l) <==> Opens(l)
  {
    hide OpensArray, OpensAfter;
    if front, digits :| OpensAfter(l, front, digits) {
      OpensRead(l, front, digits);
    }
    if OpensArray(l) {
      var front, digits := OpensFound(l);
    }
  }

  /** Line `i` is the first that opens the array, and there is a line after it. */
  ghost predicate OpenedAt(lines: seq<Line>, i: int) {
    0 <= i && i + 1 < |lines| && Opens(lines[i]) && forall k :: 0 <= k < i ==> !Opens(lines[k])
  }

  /** Line `j` is the last that starts with `];`, and not the first of the file. */
  predicate ClosedAt(lines: seq<Line>, j: int) {
    1 <= j < |lines| && StartsWith(lines[j], "];") && forall k :: j < k < |lines| ==> !StartsWith(lines[k], "];")
  }

  /** The file is read as `f`: its head, the entries between the brackets, and its tail. */
  ghost predicate HoldsParts(lines: seq<Line>, i: int, j: int, f: ChangelogFile) {
    && OpenedAt(lines, i) && ClosedAt(lines, j) && f.head == lines[..i + 1] && f.tail == lines[j..]
    && AreBlocks(if i < j then lines[i + 1..j] else [], f.entries)
  }

  /** A file is read exactly when it has both brackets and nothing but whole entries between them, and then as they are. */
  lemma {:induction false} FileReadsIff(lines: seq<Line>, f: ChangelogFile)
    ensures Split(lines) == Ok(f) <==> exists i, j :: HoldsParts(lines, i, j, f)
  {
    hide OpensArray, Opens, SplitBody, AreBlocks;
    var open, close := FindFrom(lines, OpensArray, 0), LastClose(lines);
    forall l ensures OpensArray(l) <==> Opens(l) {
      OpensIff(l);
    }
    forall i | OpenedAt(lines, i) ensures i == open {
      FindFromIs(lines, OpensArray, 0, i);
    }
    forall j | ClosedAt(lines, j) ensures j == close {
      LastCloseIs(lines, j);
    }
    BodyReadsIff(if close > open then lines[open + 1..close] else [], f.entries);
    if Split(lines) == Ok(f) {
      assert HoldsParts(lines, open, close, f);
    }
  }

  // ---------------------------------------------------------------------------------------------
  // Version and title of an entry

  predicate IsNumeral(d: string) { d != "" && AllDigits(d) }

  predicate ShowsVersion(l: Line, a: string, b: string, c: string, v: Version) {
    && IsNumeral(a) && IsNumeral(b) && IsNumeral(c) && v == Version(ValueOf(a), ValueOf(b), ValueOf(c))
    && l == "    version: 'v" + a + "." + b + "." + c + "',"
  }

  lemma {:induction false} NumeralRead(s: string, i: nat, d: string, after: string)
    requires i <= |s| && s[i..] == d + after && IsNumeral(d) && (after == "" || !IsDigit(after[0]))
    ensures MatchNumeral(s, i) == Some(Match(|d|, ValueOf(d)))
    ensures i + |d| <= |s| && s[i + |d|..] == after
  {
    assert forall k :: 0 <= k < |s| - i ==> s[i..][k] == s[i + k];
    assert s[i..i + |d|] == d by {
      assert s[i..][..|d|] == d;
    }
    assert s[i + |d|..] == after by {
      assert s[i..][|d|..] == after;
    }
    forall k | i <= k < i + |d| ensures IsDigit(s[k]) {
      assert s[i..][k - i] == d[k - i];
    }
    assert i + |d| < |s| ==> s[i + |d|] == after[0];
    RunIs(s, IsDigit, i, |d|);
  }

  lemma {:induction false} PartRead(s: string, i: nat, d: string, after: string)
    requires i <= |s| && s[i..] == d + ("." + after) && IsNumeral(d)
    ensures MatchPart(s, i) == Some(Match(|d| + 1, ValueOf(d)))
    ensures i + |d| + 1 <= |s| && s[i + |d| + 1..] == after
  {
    NumeralRead(s, i, d, "." + after);
    assert s[i + |d|] == s[i + |d|..][0] == '.';
    assert s[i + |d|..][1..] == after;
  }

  lemma {:induction false} NumeralFound(s: string, i: nat) returns (d: string)
    requires i <= |s| && MatchNumeral(s, i).Some?
    ensures IsNumeral(d) && MatchNumeral(s, i) == Some(Match(|d|, ValueOf(d)))
    ensures i + |d| <= |s| && s[i..] == d + s[i + |d|..]
  {
    var n := Run(s, IsDigit, i);
    d := s[i..i + n];
    assert forall k :: 0 <= k < n ==> d[k] == s[i + k];
  }

  lemma {:induction false} PartFound(s: string, i: nat) returns (d: string)
    requires i <= |s| && MatchPart(s, i).Some?
    ensures IsNumeral(d) && MatchPart(s, i) == Some(Match(|d| + 1, ValueOf(d)))
    ensures i + |d| + 1 <= |s| && s[i..] == d + ("." + s[i + |d| + 1..])
  {
    d := NumeralFound(s, i);
    assert s[i + |d|..] == "." + s[i + |d| + 1..];
  }

  /** The text of a version, three numerals, before other text. */
  function Triple(a: string, b: string, c: string, after: string): string {
    "v" + (a + ("." + (b + ("." + (c + after)))))
  }

  lemma {:induction false} TripleRead(s: string, i: nat, a: string, b: string, c: string, after: string)
    requires i <= |s| && s[i..] == Triple(a, b, c, after) && IsNumeral(a) && IsNumeral(b) && IsNumeral(c)
    requires after == "" || !IsDigit(after[0])
    ensures MatchVersion(s, i) == Some(Match(3 + |a| + |b| + |c|, Version(ValueOf(a), ValueOf(b), ValueOf(c))))
    ensures i + 3 + |a| + |b| + |c| <= |s| && s[i + 3 + |a| + |b| + |c|..] == after
  {
    var second := c + after;
    var first := b + ("." + second);
    TripleStarts(s, i, a + ("." + first));
    hide *;
    PartsRead(s, i, a, b, c, first, second, after);
  }

  lemma {:induction false} PartsRead(s: string, i: nat, a: string, b: string, c: string, first: string, second: string, after: string)
    requires i < |s| && s[i] == 'v' && IsNumeral(a) && IsNumeral(b) && IsNumeral(c) && (after == "" || !IsDigit(after[0]))
    requires s[i + 1..] == a + ("." + first) && first == b + ("." + second) && second == c + after
    ensures MatchVersion(s, i) == Some(Match(3 + |a| + |b| + |c|, Version(ValueOf(a), ValueOf(b), ValueOf(c))))
    ensures i + 3 + |a| + |b| + |c| <= |s| && s[i + 3 + |a| + |b| + |c|..] == after
  {
    hide MatchVersion, MatchPart, MatchNumeral, ValueOf;
    PartRead(s, i + 1, a, first);
    LastRead(s, i + 2 + |a|, b, c, second, after);
    PartsMatch(s, i, Match(|a| + 1, ValueOf(a)), Match(|b| + 1, ValueOf(b)), Match(|c|, ValueOf(c)));
  }

  lemma {:induction false} LastRead(s: string, j: nat, b: string, c: string, second: string, after: string)
    requires j <= |s| && IsNumeral(b) && IsNumeral(c) && (after == "" || !IsDigit(after[0]))
    requires s[j..] == b + ("." + second) && second == c + after
    ensures MatchPart(s, j) == Some(Match(|b| + 1, ValueOf(b)))
    ensures MatchNumeral(s, j + |b| + 1) == Some(Match(|c|, ValueOf(c)))
    ensures j + |b| + 1 + |c| <= |s| && s[j + |b| + 1 + |c|..] == after
  {
    hide *;
    PartRead(s, j, b, second);
    NumeralRead(s, j + |b| + 1, c, after);
  }

  lemma {:induction false} TripleStarts(s: string, i: nat, rest: string)
    requires i <= |s| && s[i..] == "v" + rest
    ensures i < |s| && s[i] == 'v' && s[i + 1..] == rest
  {
    assert s[i..][0] == 'v' && s[i..][1..] == rest;
  }

  lemma {:induction false} PartsMatch(s: string, i: nat, x: Match<nat>, y: Match<nat>, z: Match<nat>)
    requires i < |s| && s[i] == 'v' && MatchPart(s, i + 1) == Some(x) && MatchPart(s, i + 1 + x.length) == Some(y)
    requires MatchNumeral(s, i + 1 + x.length + y.length) == Some(z)
    ensures MatchVersion(s, i) == Some(Match(1 + x.length + y.length + z.length, Version(x.value, y.value, z.value)))
  {
    hide MatchPart, MatchNumeral;
  }

  lemma {:induction false} TripleFound(s: string, i: nat) returns (a: string, b: string, c: string)
    requires i <= |s| && MatchVersion(s, i).Some?
    ensures IsNumeral(a) && IsNumeral(b) && IsNumeral(c)
    ensures MatchVersion(s, i) == Some(Match(3 + |a| + |b| + |c|, Version(ValueOf(a), ValueOf(b), ValueOf(c))))
    ensures i + 3 + |a| + |b| + |c| <= |s| && s[i..] == Triple(a, b, c, s[i + 3 + |a| + |b| + |c|..])
  {
    hide MatchPart, MatchNumeral, IsNumeral;
    a := PartFound(s, i + 1);
    b := PartFound(s, i + 2 + |a|);
    c := NumeralFound(s, i + 3 + |a| + |b|);
    hide MatchVersion;
    TripleIs(s, i, a, b, c, s[i + 3 + |a| + |b| + |c|..]);
  }

  lemma {:induction false} TripleIs(s: string, i: nat, a: string, b: string, c: string, after: string)
    requires i < |s| && s[i] == 'v' && i + 3 + |a| + |b| <= |s|
    requires s[i + 1..] == a + ("." + s[i + 2 + |a|..]) && s[i + 2 + |a|..] == b + ("." + s[i + 3 + |a| + |b|..])
    requires s[i + 3 + |a| + |b|..] == c + after
    ensures s[i..] == Triple(a, b, c, after)
  {
    assert s[i..] == "v" + s[i + 1..];
  }

  lemma {:induction false} LineOfTriple(l: Line, a: string, b: string, c: string)
    ensures l == "    version: 'v" + a + "." + b + "." + c + "',"
       <==> StartsWith(l, VERSION_FIELD) && l[|VERSION_FIELD|..] == Triple(a, b, c, "',")
  {
    Regroup(a, b, c);
    var t := Triple(a, b, c, "',");
    assert "    version: 'v" + a + "." + b + "." + c + "'," == VERSION_FIELD + t;
    hide Triple;
    if l == VERSION_FIELD + t {
      assert l[..|VERSION_FIELD|] == VERSION_FIELD && l[|VERSION_FIELD|..] == t;
    }
    if StartsWith(l, VERSION_FIELD) && l[|VERSION_FIELD|..] == t {
      assert l == l[..|VERSION_FIELD|] + l[|VERSION_FIELD|..];
    }
  }

  lemma {:induction false} ShownIsRead(l: Line, a: string, b: string, c: string, v: Version)
    requires ShowsVersion(l, a, b, c, v)
    ensures VersionOnLine(l) == Some(v)
  {
    LineOfTriple(l, a, b, c);
    hide MatchVersion, Triple, IsNumeral;
    TripleRead(l, |VERSION_FIELD|, a, b, c, "',");
  }

  lemma {:induction false} ReadIsShown(l: Line, v: Version) returns (a: string, b: string, c: string)
    requires VersionOnLine(l) == Some(v)
    ensures ShowsVersion(l, a, b, c, v)
  {
    hide MatchVersion, Triple, IsNumeral;
    a, b, c := TripleFound(l, |VERSION_FIELD|);
    LineOfTriple(l, a, b, c);
  }

  /** A version line is the field, three numerals and the end of the text, and nothing more. */
  lemma {:induction false} VersionLineIff(l: Line, v: Version)
    ensures VersionOnLine(l) == Some(v) <==> exists a, b, c :: ShowsVersion(l, a, b, c, v)
  {
    hide ShowsVersion, VersionOnLine;
    if a, b, c :| ShowsVersion(l, a, b, c, v) {
      ShownIsRead(l, a, b, c, v);
    }
    if VersionOnLine(l) == Some(v) {
      var a, b, c := ReadIsShown(l, v);
    }
  }

  lemma {:induction false} Regroup(a: string, b: string, c: string)
    ensures VERSION_FIELD + ("v" + (a + ("." + (b + ("." + (c + "',")))))) == "    version: 'v" + a + "." + b + "." + c + "',"
  {
    assert VERSION_FIELD + "v" == "    version: 'v";
  }

  predicate ShowsTitle(l: Line, t: string, rest: string) { '\'' !in t && l == "    title: '" + t + "'" + rest }

  lemma {:induction false} ShownTitleIsRead(l: Line, t: string, rest: string)
    requires ShowsTitle(l, t, rest)
    ensures TitleOnLine(l) == Some(t)
  {
    var n := |TITLE_FIELD|;
    assert l == TITLE_FIELD + (t + ("'" + rest));
    assert l[n..n + |t|] == t && l[n + |t|] == '\'';
    forall k | n <= k < n + |t| ensures IsNoQuote(l[k]) {
      assert l[k] == t[k - n] && t[k - n] in t;
    }
    RunIs(l, IsNoQuote, n, |t|);
  }

  lemma {:induction false} ReadTitleIsShown(l: Line, t: string)
    requires TitleOnLine(l) == Some(t)
    ensures |TITLE_FIELD| + |t| < |l| && ShowsTitle(l, t, l[|TITLE_FIELD| + |t| + 1..])
  {
    var n := |TITLE_FIELD|;
    var k := n + |t|;
    assert t == l[n..k] && l[k] == '\'';
    assert forall i :: 0 <= i < |t| ==> t[i] == l[n + i];
    assert l == l[..n] + l[n..k] + "'" + l[k + 1..];
  }

  /** A title line is the field and the text up to the next quote, which may be empty. */
  lemma {:induction false} TitleLineIff(l: Line, t: string)
    ensures TitleOnLine(l) == Some(t) <==> exists rest :: ShowsTitle(l, t, rest)
  {
    hide ShowsTitle, TitleOnLine;
    if rest :| ShowsTitle(l, t, rest) {
      ShownTitleIsRead(l, t, rest);
    }
    if TitleOnLine(l) == Some(t) {
      ReadTitleIsShown(l, t);
    }
  }

  /** An entry's version is that of its first version line, its title that of its first title line. */
  lemma {:induction false} FirstLineShows(e: Entry, k: nat)
    requires k < |e|
    ensures (VersionOnLine(e[k]).Some? && forall i :: 0 <= i < k ==> VersionOnLine(e[i]).None?)
            ==> EntryVersion(e) == VersionOnLine(e[k])
    ensures (TitleOnLine(e[k]).Some? && forall i :: 0 <= i < k ==> TitleOnLine(e[i]).None?)
            ==> EntryTitle(e) == TitleOnLine(e[k])
  {
    hide VersionOnLine, TitleOnLine;
    if HasVersion(e[k]) && forall i :: 0 <= i < k ==> !HasVersion(e[i]) {
      FindFromIs(e, HasVersion, 0, k);
    }
    if HasTitle(e[k]) && forall i :: 0 <= i < k ==> !HasTitle(e[i]) {
      FindFromIs(e, HasTitle, 0, k);
    }
  }

  // ---------------------------------------------------------------------------------------------
  // The version plan

  /** The entries of the branch itself: no base entry has their version and title. */
  ghost predicate IsOwn(base: seq<Entry>, e: Entry) {
    forall b :: b in base ==> !(EntryVersion(b) == EntryVersion(e) && EntryTitle(b) == EntryTitle(e))
  }

  /** The branch holds this base entry as it is, or its own edit of what the ancestor held. */
  ghost predicate StillHere(cur: seq<Entry>, ancestor: seq<Entry>, b: Entry) {
    || b in cur
    || (b in ancestor && exists e :: e in cur && EntryVersion(e) == EntryVersion(b) && EntryTitle(e) == EntryTitle(b))
  }

  ghost predicate OwnApart(base: seq<Entry>, cur: seq<Entry>) {
    forall i, j :: 0 <= i < j < |cur| && IsOwn(base, cur[i]) && IsOwn(base, cur[j])
               ==> EntryVersion(cur[i]) != EntryVersion(cur[j])
  }

  /**
   * A branch gets a plan exactly when every entry has a version line, no base entry is lost or edited over the base's own
   * edit, and no two own entries share a version.
   */
  lemma {:induction false} PlansIff(base: seq<Entry>, cur: seq<Entry>, ancestor: seq<Entry>)
    ensures VersionPlan(base, cur, ancestor).Ok?
       <==> && (forall e :: e in base + cur ==> EntryVersion(e).Some?)
            && (forall b :: b in base ==> StillHere(cur, ancestor, b))
            && OwnApart(base, cur)
  {
    hide EntryVersion, EntryTitle, OwnVersions, OwnApart;
    forall b ensures Missing(cur, ancestor, b) <==> !StillHere(cur, ancestor, b) {
    }
    var missing := Filter(base, (e: Entry) => Missing(cur, ancestor, e));
    hide Missing, StillHere;
    assert missing == [] <==> forall b :: b in base ==> !Missing(cur, ancestor, b) by {
      if missing != [] {
        assert missing[0] in missing;
      }
    }
    if forall e :: e in base + cur ==> EntryVersion(e).Some? {
      OwnApartIff(base, cur);
    }
  }

  lemma {:induction false} OwnApartIff(base: seq<Entry>, cur: seq<Entry>)
    requires forall e :: e in base + cur ==> EntryVersion(e).Some?
    ensures Distinct(OwnVersions(base, cur)) <==> OwnApart(base, cur)
  {
    hide EntryVersion, EntryTitle;
    var own := (e: Entry) => !HasKey(base, KeyOf(e));
    forall e ensures own(e) <==> IsOwn(base, e) {
    }
    forall e | e in cur ensures EntryVersion(e) == Some(VersionOf(e)) {
      assert e in base + cur;
    }
    hide HasKey, KeyOf, IsOwn, VersionOf;
    if Distinct(OwnVersions(base, cur)) {
      forall i, j | 0 <= i < j < |cur| && IsOwn(base, cur[i]) && IsOwn(base, cur[j])
        ensures EntryVersion(cur[i]) != EntryVersion(cur[j])
      {
        FilterMapDistinct(cur, own, VersionOf, i, j);
      }
    } else {
      var i, j := FilterMapClash(cur, own, VersionOf);
      assert cur[i] in cur && cur[j] in cur;
    }
  }

  lemma {:induction false} FilterMapClash<T, U>(s: seq<T>, p: T -> bool, f: T -> U) returns (i: nat, j: nat)
    requires !Distinct(Map(Filter(s, p), f))
    ensures i < j < |s| && p(s[i]) && p(s[j]) && f(s[i]) == f(s[j])
  {
    var t := s[1..];
    var rest := Map(Filter(t, p), f);
    if p(s[0]) {
      assert Filter(s, p) == [s[0]] + Filter(t, p);
      assert Map(Filter(s, p), f) == [f(s[0])] + rest;
      DistinctConcat([f(s[0])], rest);
      if f(s[0]) in rest {
        var k :| 0 <= k < |rest| && rest[k] == f(s[0]);
        var x := Filter(t, p)[k];
        assert x in Filter(t, p) && x in t;
        var m :| 0 <= m < |t| && t[m] == x;
        return 0, m + 1;
      }
    }
    var a, b := FilterMapClash(t, p, f);
    i, j := a + 1, b + 1;
  }

  // ---------------------------------------------------------------------------------------------
  // The order of the merged entries

  /** The branch's new entry: no base entry has its version and title, and the ancestor did not hold it. */
  ghost predicate IsFresh(theirs: seq<Entry>, ancestor: seq<Entry>, e: Entry) {
    IsOwn(theirs, e) && e !in ancestor
  }

  /** The merged file lists the branch's new entries, as they are and in the branch's order, then one entry for each of the base's. */
  lemma {:induction false} UnionListsNewFirst(ours: seq<Entry>, theirs: seq<Entry>, ancestor: seq<Entry>)
    requires UniqueKeys(ancestor) && UnionChangelog(ours, theirs, ancestor).Some?
    ensures var r := UnionChangelog(ours, theirs, ancestor).value;
            var added := Filter(ours, (e: Entry) => IsFresh(theirs, ancestor, e));
            && |r| == |added| + |theirs| && r[..|added|] == added
            && forall i :: 0 <= i < |theirs| ==>
                 && EntryVersion(r[|added| + i]) == EntryVersion(theirs[i])
                 && EntryTitle(r[|added| + i]) == EntryTitle(theirs[i])
  {
    hide EntryVersion, EntryTitle, UniqueKeys, Lookup;
    var isNew := (e: Entry) => IsNew(theirs, ancestor, e);
    var isFresh := (e: Entry) => IsFresh(theirs, ancestor, e);
    forall e ensures isNew(e) == isFresh(e) {
      if e in ancestor {
        LookupUnique(ancestor, e);
      }
    }
    FilterAgree(ours, isNew, isFresh);
  }
}
