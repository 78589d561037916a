/** What the merge and the renumbering of the active changelog promise together. */
module ChangelogTheorems {
  import opened Changelog
  import opened ChangelogPlan
  import opened Decimals
  import opened Seqs
  import opened Sorting
  import opened Texts
  import opened Versions

  // ---------------------------------------------------------------------------------------------
  // Properties of the plan

  ghost predicate Increasing(vs: seq<Version>) { forall i, j :: 0 <= i < j < |vs| ==> Less(vs[i], vs[j]) }

  lemma {:induction false} AtMostIsTotal()
    ensures TotalPreorder(AtMost)
  {
  }

  lemma {:induction false} SortedOwn(vs: seq<Version>)
    requires Distinct(vs)
    ensures Increasing(Sort(vs, AtMost))
    ensures forall v :: v in Sort(vs, AtMost) <==> v in vs
  {
    AtMostIsTotal();
    SortIsStable(vs, AtMost);
    var s := Sort(vs, AtMost);
    DistinctPermutation(vs, s);
    forall i, j | 0 <= i < j < |s| ensures Less(s[i], s[j]) {
      assert AtMost(s[i], s[j]) && s[i] != s[j];
    }
  }

  /** Two increasing lists of the same versions are the same list. */
  lemma {:induction false} IncreasingIsUnique(a: seq<Version>, b: seq<Version>)
    requires Increasing(a) && Increasing(b)
    requires forall v :: v in a <==> v in b
    ensures a == b
  {
    assert b != [] ==> b[0] in b;
    if a != [] {
      assert a[0] in b && b[0] in a;
      var x, y := a[0], b[0];
      assert x == y;
      forall v ensures v in a[1..] <==> v in b[1..] {
        assert v in a <==> v == x || v in a[1..];
        assert v in b <==> v == y || v in b[1..];
        assert x !in a[1..] && y !in b[1..];
      }
      IncreasingIsUnique(a[1..], b[1..]);
    }
  }

  predicate FollowsAt(own: seq<Version>, last: Version, r: seq<Version>, i: nat)
    requires i < |own| == |r|
  {
    && IsNextVersion(if i == 0 then last else r[i - 1], r[i])
    && (r[i].patch == 0 <==> own[i].patch == 0)
    && Less(last, r[i])
  }

  /** Each new version is the next one after the one before it, and stays a patch or a minor cut. */
  lemma {:induction false} SuccessorsFollow(own: seq<Version>, last: Version)
    ensures forall i :: 0 <= i < |own| ==> FollowsAt(own, last, Successors(own, last), i)
    ensures Increasing(Successors(own, last))
  {
    if own != [] {
      var next := NextVersion(last, own[0]);
      SuccessorsFollow(own[1..], next);
      var r, rest := Successors(own, last), Successors(own[1..], next);
      assert r == [next] + rest;
      forall i | 1 <= i < |own| ensures FollowsAt(own, last, r, i) && Less(next, r[i]) {
        assert FollowsAt(own[1..], next, rest, i - 1);
      }
    }
  }

  lemma {:induction false} SuccessorsFixed(own: seq<Version>, last: Version)
    ensures Successors(Successors(own, last), last) == Successors(own, last)
  {
    if own != [] {
      var next := NextVersion(last, own[0]);
      SuccessorsFixed(own[1..], next);
      assert Successors(own, last)[1..] == Successors(own[1..], next);
    }
  }

  lemma {:induction false} VersionMapAt(own: seq<Version>, news: seq<Version>)
    requires |own| == |news| && Distinct(own)
    ensures forall v :: v in VersionMap(own, news) <==> v in own
    ensures forall i :: 0 <= i < |own| ==> own[i] in VersionMap(own, news) && VersionMap(own, news)[own[i]] == news[i]
  {
    if own != [] {
      var n := |own| - 1;
      VersionMapAt(own[..n], news[..n]);
      assert own == own[..n] + [own[n]];
    }
  }

  lemma {:induction false} LessIsTransitive(a: Version, b: Version, c: Version)
    requires AtMost(a, b) && Less(b, c)
    ensures Less(a, c)
  {
  }

  function SortedOwnVersions(base: seq<Entry>, cur: seq<Entry>): seq<Version> { Sort(OwnVersions(base, cur), AtMost) }

  function NewVersions(base: seq<Entry>, cur: seq<Entry>): (r: seq<Version>)
    ensures |r| == |SortedOwnVersions(base, cur)|
  {
    Successors(SortedOwnVersions(base, cur), TopVersion(Map(base, VersionOf)))
  }

  function Previous(top: Version, news: seq<Version>, i: nat): Version
    requires i < |news|
  {
    if i == 0 then top else news[i - 1]
  }

  /** Every version is the next one after the one before it, the first one after `top`. */
  ghost predicate IsReleaseChain(top: Version, news: seq<Version>) {
    forall i :: 0 <= i < |news| ==> IsNextVersion(Previous(top, news, i), news[i])
  }

  /**
   * The branch's versions, in order, become consecutive releases right after the base's top version: the map holds
   * exactly them, keeps their order (so it is injective) and lands above every version of the base.
   */
  lemma {:induction false} PlanContinuesTheBase(base: seq<Entry>, cur: seq<Entry>, ancestor: seq<Entry>)
    requires VersionPlan(base, cur, ancestor).Ok?
    ensures var own, news := SortedOwnVersions(base, cur), NewVersions(base, cur);
            var m := VersionPlan(base, cur, ancestor).value;
            && Increasing(own) && Increasing(news)
            && (forall v :: v in own <==> v in OwnVersions(base, cur))
            && (forall v :: v in m <==> v in own)
            && (forall i :: 0 <= i < |own| ==> own[i] in m && m[own[i]] == news[i])
            && IsReleaseChain(TopVersion(Map(base, VersionOf)), news)
            && (forall e, i :: e in base && 0 <= i < |news| ==> Less(VersionOf(e), news[i]))
  {
    var own, news := SortedOwnVersions(base, cur), NewVersions(base, cur);
    hide KeyOf, EntryVersion, VersionOf, Missing, Successors, TopVersion, FollowsAt, OwnVersions, VersionMap;
    SortedOwn(OwnVersions(base, cur));
    DistinctPermutation(OwnVersions(base, cur), own);
    VersionMapAt(own, news);
    NewVersionsFollow(base, own);
  }

  lemma {:induction false} NewVersionsFollow(base: seq<Entry>, own: seq<Version>)
    ensures var top := TopVersion(Map(base, VersionOf));
            var news := Successors(own, top);
            && Increasing(news)
            && IsReleaseChain(top, news)
            && (forall e, i :: e in base && 0 <= i < |news| ==> Less(VersionOf(e), news[i]))
  {
    hide VersionOf, Successors;
    var top := TopVersion(Map(base, VersionOf));
    var news := Successors(own, top);
    SuccessorsFollow(own, top);
    forall i | 0 <= i < |news| ensures IsNextVersion(Previous(top, news, i), news[i]) && Less(top, news[i]) {
      assert FollowsAt(own, top, news, i);
    }
    forall e, i | e in base && 0 <= i < |news| ensures Less(VersionOf(e), news[i]) {
      BelowTop(base, e);
      LessIsTransitive(VersionOf(e), top, news[i]);
    }
  }

  lemma {:induction false} BelowTop(base: seq<Entry>, e: Entry)
    requires e in base
    ensures AtMost(VersionOf(e), TopVersion(Map(base, VersionOf)))
  {
    var k :| 0 <= k < |base| && base[k] == e;
    assert Map(base, VersionOf)[k] == VersionOf(e);
    assert VersionOf(e) in Map(base, VersionOf);
  }

  // ---------------------------------------------------------------------------------------------
  // Rewriting an entry

  lemma {:induction false} VersionLineReads(v: Version)
    ensures VersionOnLine(VERSION_FIELD + VersionText(v) + "',") == Some(v)
    ensures TitleOnLine(VERSION_FIELD + VersionText(v) + "',") == None
  {
    hide MatchVersion, VersionText;
    var l := VERSION_FIELD + VersionText(v) + "',";
    MatchPrinted(VERSION_FIELD, v, "',");
    assert l[..|VERSION_FIELD|] == VERSION_FIELD;
    assert l[|VERSION_FIELD| + |VersionText(v)|..] == "',";
    FieldLetter(l);
  }

  lemma {:induction false} FieldLetter(l: Line)
    ensures StartsWith(l, VERSION_FIELD) ==> |l| > 4 && l[4] == 'v'
    ensures StartsWith(l, TITLE_FIELD) ==> |l| > 4 && l[4] == 't'
  {
    assert StartsWith(l, VERSION_FIELD) ==> l[..|VERSION_FIELD|][4] == VERSION_FIELD[4];
    assert StartsWith(l, TITLE_FIELD) ==> l[..|TITLE_FIELD|][4] == TITLE_FIELD[4];
  }

  lemma {:induction false} VersionIsNoTitle(l: Line)
    ensures HasVersion(l) ==> !HasTitle(l)
  {
    FieldLetter(l);
  }

  /** Rewriting moves the version as planned and leaves the title. */
  lemma {:induction false} SetVersionKey(versions: map<Version, Version>, e: Entry)
    requires EntryVersion(e).Some?
    ensures EntryVersion(SetVersion(versions, e))
         == Some(if VersionOf(e) in versions then versions[VersionOf(e)] else VersionOf(e))
    ensures EntryTitle(SetVersion(versions, e)) == EntryTitle(e)
  {
    hide VersionOnLine, TitleOnLine, VersionText;
    var k := VersionLine(e);
    if VersionOf(e) in versions {
      var l := VERSION_FIELD + VersionText(versions[VersionOf(e)]) + "',";
      VersionLineReads(versions[VersionOf(e)]);
      VersionIsNoTitle(e[k]);
      var r := SetVersion(versions, e);
      assert r == e[k := l];
      FindFromIs(r, HasVersion, 0, k);
      var t := FindFrom(e, HasTitle, 0);
      assert t != k;
      FindFromIs(r, HasTitle, 0, t);
    }
  }

  // ---------------------------------------------------------------------------------------------
  // The union feeds the planner

  /**
   * Whenever the union succeeds, the planner finds every base entry: as it was, or as the branch's edit of an entry the
   * base left as the ancestor had it. With unique keys on the branch side no changed branch entry is lost.
   */
  lemma {:induction false} UnionFeedsThePlanner(ours: seq<Entry>, theirs: seq<Entry>, ancestor: seq<Entry>)
    requires UnionChangelog(ours, theirs, ancestor).Some?
    ensures var merged := UnionChangelog(ours, theirs, ancestor).value;
            && (forall e :: e in theirs ==> !Missing(merged, ancestor, e))
            && (VersionPlan(theirs, merged, ancestor).Err? ==> !VersionPlan(theirs, merged, ancestor).error.BaseMissing?)
            && (UniqueKeys(ours) ==> forall e :: e in ours && Changed(theirs, ancestor, e) ==> e in merged)
  {
    hide KeyOf, EntryVersion;
    var merged := UnionChangelog(ours, theirs, ancestor).value;
    var edited := ChangedOf(ours, theirs, ancestor);
    var mapped := Map(theirs, (e: Entry) => Replacement(edited, e));
    forall e | e in theirs ensures !Missing(merged, ancestor, e) && Replacement(edited, e) in merged {
      var k :| 0 <= k < |theirs| && theirs[k] == e;
      assert mapped[k] == Replacement(edited, e) && mapped[k] in mapped;
      assert !EditedTwice(edited, ancestor, e);
    }
    FilterNone(theirs, (e: Entry) => Missing(merged, ancestor, e));
    if UniqueKeys(ours) {
      forall e | e in ours && Changed(theirs, ancestor, e) ensures e in merged {
        LookupUnique(ours, e);
        if HasKey(theirs, KeyOf(e)) {
          var t := Lookup(theirs, KeyOf(e)).value;
          LookupFilter(ours, (x: Entry) => Changed(theirs, ancestor, x), KeyOf(e));
          assert Replacement(edited, t) == e;
        } else {
          assert IsNew(theirs, ancestor, e);
        }
      }
    }
  }

  // ---------------------------------------------------------------------------------------------
  // The renumbered file

  ghost predicate StrictlyDescending(es: seq<Entry>) {
    forall i, j :: 0 <= i < j < |es| ==> Less(VersionOf(es[j]), VersionOf(es[i]))
  }

  lemma {:induction false} NewestFirstIsTotal()
    ensures TotalPreorder(NewestFirst)
  {
    hide VersionOf;
  }

  lemma {:induction false} StrictIffDistinct(es: seq<Entry>)
    ensures StrictlyDescending(Sort(es, NewestFirst)) <==> Distinct(Map(es, VersionOf))
  {
    hide VersionOf;
    NewestFirstIsTotal();
    SortIsStable(es, NewestFirst);
    var r := Sort(es, NewestFirst);
    MapPermutation(es, r, VersionOf);
    DistinctPermutation(Map(es, VersionOf), Map(r, VersionOf));
    var vs := Map(r, VersionOf);
    assert forall i, j :: 0 <= i < j < |r| ==> NewestFirst(r[i], r[j]) && vs[i] == VersionOf(r[i]) && vs[j] == VersionOf(r[j]);
  }

  /** The branch's edit of a base entry carries the version one of the branch's own entries has. */
  predicate EditTakesOwn(base: seq<Entry>, cur: seq<Entry>, e: Entry) {
    e !in base && HasKey(base, KeyOf(e)) && VersionOf(e) in OwnVersions(base, cur)
  }

  ghost predicate EditsApart(base: seq<Entry>, cur: seq<Entry>) {
    forall e :: e in cur ==> !EditTakesOwn(base, cur, e)
  }

  /** The versions that move are the branch's own ones, so whether an edit moves can be told before the plan. */
  lemma {:induction false} ClashesIff(base: seq<Entry>, cur: seq<Entry>, ancestor: seq<Entry>)
    requires VersionPlan(base, cur, ancestor).Ok?
    ensures var m := VersionPlan(base, cur, ancestor).value;
            && (forall e :: Clashes(base, m, e) <==> EditTakesOwn(base, cur, e))
            && (NoClash(base, cur, m) <==> EditsApart(base, cur))
  {
    hide HasKey, KeyOf, VersionOf, OwnVersions, VersionPlan;
    PlanContinuesTheBase(base, cur, ancestor);
  }

  /** An edit of a base entry that the plan's map moves. */
  predicate Clashes(base: seq<Entry>, versions: map<Version, Version>, e: Entry) {
    e !in base && HasKey(base, KeyOf(e)) && VersionOf(e) in versions
  }

  predicate IsOwn(base: seq<Entry>, e: Entry) { !HasKey(base, KeyOf(e)) }

  function Moved(versions: map<Version, Version>, v: Version): Version { if v in versions then versions[v] else v }

  /** An own entry of the branch takes its new version, above every base version. */
  lemma {:induction false} OwnMoves(base: seq<Entry>, cur: seq<Entry>, ancestor: seq<Entry>, e: Entry)
    requires VersionPlan(base, cur, ancestor).Ok? && e in cur && IsOwn(base, e)
    ensures var m := VersionPlan(base, cur, ancestor).value;
            var r := Renumber(base, m, e);
            && VersionOf(e) in m
            && EntryVersion(r) == Some(m[VersionOf(e)]) && VersionOf(r) == m[VersionOf(e)]
            && (forall b :: b in base ==> Less(VersionOf(b), VersionOf(r)))
            && IsOwn(base, r)
  {
    var m := VersionPlan(base, cur, ancestor).value;
    var own := SortedOwnVersions(base, cur);
    PlanContinuesTheBase(base, cur, ancestor);
    OwnVersionIn(base, cur, e);
    var i :| 0 <= i < |own| && own[i] == VersionOf(e);
    assert e in base + cur;
    SetVersionKey(m, e);
    hide EntryVersion, SetVersion;
    assert e !in base;
    var r := Renumber(base, m, e);
    forall b | b in base ensures Less(VersionOf(b), VersionOf(r)) && KeyOf(b) != KeyOf(r) {
      assert !Less(VersionOf(r), VersionOf(r));
    }
  }

  lemma {:induction false} OwnVersionIn(base: seq<Entry>, cur: seq<Entry>, e: Entry)
    requires e in cur && IsOwn(base, e)
    ensures VersionOf(e) in OwnVersions(base, cur)
  {
    hide KeyOf, VersionOf;
    var own := Filter(cur, (e: Entry) => !HasKey(base, KeyOf(e)));
    assert e in own;
    var k :| 0 <= k < |own| && own[k] == e;
    assert Map(own, VersionOf)[k] == VersionOf(e);
  }

  /** Any other entry keeps its key when it does not clash. */
  lemma {:induction false} OthersStay(base: seq<Entry>, cur: seq<Entry>, ancestor: seq<Entry>, e: Entry)
    requires VersionPlan(base, cur, ancestor).Ok? && e in cur && !IsOwn(base, e)
    ensures var m := VersionPlan(base, cur, ancestor).value;
            && (!Clashes(base, m, e) ==> Renumber(base, m, e) == e)
            && (Clashes(base, m, e) ==> VersionOf(Renumber(base, m, e)) == m[VersionOf(e)])
            && exists b :: b in base && KeyOf(b) == KeyOf(e) && VersionOf(b) == VersionOf(e)
  {
    var m := VersionPlan(base, cur, ancestor).value;
    PlannedHasVersion(base, cur, ancestor, e);
    SetVersionKey(m, e);
    SameKeyInBase(base, e);
    hide VersionPlan, EntryVersion, VersionLine, KeyOf, VersionOf;
  }

  lemma {:induction false} PlannedHasVersion(base: seq<Entry>, cur: seq<Entry>, ancestor: seq<Entry>, e: Entry)
    requires VersionPlan(base, cur, ancestor).Ok? && e in cur
    ensures EntryVersion(e).Some?
  {
    hide EntryVersion, OwnVersions, Missing;
    assert e in base + cur;
  }

  lemma {:induction false} SameKeyInBase(base: seq<Entry>, e: Entry)
    requires !IsOwn(base, e)
    ensures exists b :: b in base && KeyOf(b) == KeyOf(e) && VersionOf(b) == VersionOf(e)
  {
    hide EntryVersion, EntryTitle;
    var b :| b in base && KeyOf(b) == KeyOf(e);
    assert KeyOf(b).version == EntryVersion(b) && KeyOf(e).version == EntryVersion(e);
  }

  /** Two entries that do not clash keep, or take, different versions. */
  lemma {:induction false} VersionsApart(base: seq<Entry>, cur: seq<Entry>, ancestor: seq<Entry>, i: nat, j: nat)
    requires VersionPlan(base, cur, ancestor).Ok? && UniqueKeys(cur) && Distinct(Map(base, VersionOf))
    requires i < j < |cur|
    requires var m := VersionPlan(base, cur, ancestor).value; !Clashes(base, m, cur[i]) && !Clashes(base, m, cur[j])
    ensures var m := VersionPlan(base, cur, ancestor).value;
            VersionOf(Renumber(base, m, cur[i])) != VersionOf(Renumber(base, m, cur[j]))
  {
    var m := VersionPlan(base, cur, ancestor).value;
    var a, b := cur[i], cur[j];
    assert Map(cur, KeyOf)[i] != Map(cur, KeyOf)[j];
    if IsOwn(base, a) {
      OwnMoves(base, cur, ancestor, a);
    } else {
      OthersStay(base, cur, ancestor, a);
    }
    if IsOwn(base, b) {
      OwnMoves(base, cur, ancestor, b);
    } else {
      OthersStay(base, cur, ancestor, b);
    }
    if IsOwn(base, a) && IsOwn(base, b) {
      OwnVersionsApart(base, cur, ancestor, i, j);
    } else if !IsOwn(base, a) && !IsOwn(base, b) {
      BaseVersionsApart(base, a, b);
    }
  }

  lemma {:induction false} OwnVersionsApart(base: seq<Entry>, cur: seq<Entry>, ancestor: seq<Entry>, i: nat, j: nat)
    requires VersionPlan(base, cur, ancestor).Ok? && i < j < |cur| && IsOwn(base, cur[i]) && IsOwn(base, cur[j])
    ensures var m := VersionPlan(base, cur, ancestor).value;
            && VersionOf(cur[i]) in m && VersionOf(cur[j]) in m
            && m[VersionOf(cur[i])] != m[VersionOf(cur[j])]
  {
    var m := VersionPlan(base, cur, ancestor).value;
    FilterMapDistinct(cur, (e: Entry) => !HasKey(base, KeyOf(e)), VersionOf, i, j);
    PlanContinuesTheBase(base, cur, ancestor);
    OwnVersionIn(base, cur, cur[i]);
    OwnVersionIn(base, cur, cur[j]);
    hide *;
    var own, news := SortedOwnVersions(base, cur), NewVersions(base, cur);
    var k :| 0 <= k < |own| && own[k] == VersionOf(cur[i]);
    var l :| 0 <= l < |own| && own[l] == VersionOf(cur[j]);
    IncreasingApart(news, k, l);
  }

  lemma {:induction false} IncreasingApart(vs: seq<Version>, k: nat, l: nat)
    requires Increasing(vs) && k < |vs| && l < |vs| && k != l
    ensures vs[k] != vs[l]
  {
    if k < l {
      assert Less(vs[k], vs[l]);
    } else {
      assert Less(vs[l], vs[k]);
    }
  }

  lemma {:induction false} BaseVersionsApart(base: seq<Entry>, a: Entry, b: Entry)
    requires Distinct(Map(base, VersionOf)) && KeyOf(a) != KeyOf(b)
    requires HasKey(base, KeyOf(a)) && HasKey(base, KeyOf(b))
    ensures VersionOf(a) != VersionOf(b)
  {
    hide EntryVersion, EntryTitle;
    var x :| x in base && KeyOf(x) == KeyOf(a);
    var y :| y in base && KeyOf(y) == KeyOf(b);
    var i :| 0 <= i < |base| && base[i] == x;
    var j :| 0 <= j < |base| && base[j] == y;
    assert Map(base, VersionOf)[i] != Map(base, VersionOf)[j];
  }

  /**
   * The renumbered active file is strictly descending exactly when no branch edit of a base entry carries the old
   * version of one of the branch's own entries.
   */
  lemma {:induction false} ActiveFileDescendsIff(base: seq<Entry>, cur: seq<Entry>, ancestor: seq<Entry>)
    requires VersionPlan(base, cur, ancestor).Ok? && UniqueKeys(cur) && Distinct(Map(base, VersionOf))
    ensures var m := VersionPlan(base, cur, ancestor).value;
            StrictlyDescending(RenumberActive(base, cur, m)) <==> EditsApart(base, cur)
  {
    hide *;
    var m := VersionPlan(base, cur, ancestor).value;
    ClashesIff(base, cur, ancestor);
    NoClashIs(base, cur, m);
    ActiveIsSorted(base, cur, m);
    StrictIffDistinct(Map(cur, (e: Entry) => Renumber(base, m, e)));
    if forall e :: e in cur ==> !Clashes(base, m, e) {
      forall i, j | 0 <= i < j < |cur| ensures VersionOf(Renumber(base, m, cur[i])) != VersionOf(Renumber(base, m, cur[j])) {
        VersionsApart(base, cur, ancestor, i, j);
      }
      ApartIsDistinct(base, cur, m);
    } else {
      var e :| e in cur && Clashes(base, m, e);
      ClashMeets(base, cur, ancestor, e);
    }
  }

  lemma {:induction false} NoClashIs(base: seq<Entry>, cur: seq<Entry>, m: map<Version, Version>)
    ensures NoClash(base, cur, m) <==> forall e :: e in cur ==> !Clashes(base, m, e)
  {
  }

  lemma {:induction false} ActiveIsSorted(base: seq<Entry>, cur: seq<Entry>, m: map<Version, Version>)
    ensures RenumberActive(base, cur, m) == Sort(Map(cur, (e: Entry) => Renumber(base, m, e)), NewestFirst)
  {
  }

  lemma {:induction false} ApartIsDistinct(base: seq<Entry>, cur: seq<Entry>, m: map<Version, Version>)
    requires forall i, j :: 0 <= i < j < |cur| ==> VersionOf(Renumber(base, m, cur[i])) != VersionOf(Renumber(base, m, cur[j]))
    ensures Distinct(Map(Map(cur, (e: Entry) => Renumber(base, m, e)), VersionOf))
  {
    hide VersionOf, Renumber;
    var vs := Map(Map(cur, (e: Entry) => Renumber(base, m, e)), VersionOf);
    assert forall i :: 0 <= i < |cur| ==> vs[i] == VersionOf(Renumber(base, m, cur[i]));
  }

  /** A clashing edit takes the new version of one of the branch's own entries. */
  lemma {:induction false} ClashMeets(base: seq<Entry>, cur: seq<Entry>, ancestor: seq<Entry>, e: Entry)
    requires VersionPlan(base, cur, ancestor).Ok? && e in cur && Clashes(base, VersionPlan(base, cur, ancestor).value, e)
    ensures var m := VersionPlan(base, cur, ancestor).value;
            !Distinct(Map(Map(cur, (e: Entry) => Renumber(base, m, e)), VersionOf))
  {
    var m := VersionPlan(base, cur, ancestor).value;
    assert !IsOwn(base, e) && VersionOf(e) in m;
    hide KeyOf, VersionOf, Renumber, VersionPlan, Clashes;
    OthersStay(base, cur, ancestor, e);
    var x := ClashingOwn(base, cur, ancestor, VersionOf(e));
    OwnMoves(base, cur, ancestor, x);
    var i :| 0 <= i < |cur| && cur[i] == e;
    var j :| 0 <= j < |cur| && cur[j] == x;
    var vs := Map(Map(cur, (e: Entry) => Renumber(base, m, e)), VersionOf);
    assert vs[i] == VersionOf(Renumber(base, m, cur[i])) && vs[j] == VersionOf(Renumber(base, m, cur[j]));
    assert i != j;
  }

  lemma {:induction false} ClashingOwn(base: seq<Entry>, cur: seq<Entry>, ancestor: seq<Entry>, v: Version)
    returns (x: Entry)
    requires VersionPlan(base, cur, ancestor).Ok? && v in VersionPlan(base, cur, ancestor).value
    ensures x in cur && IsOwn(base, x) && VersionOf(x) == v
  {
    hide KeyOf, VersionOf;
    PlanContinuesTheBase(base, cur, ancestor);
    var own := Filter(cur, (e: Entry) => !HasKey(base, KeyOf(e)));
    var k :| 0 <= k < |own| && Map(own, VersionOf)[k] == v;
    x := own[k];
    assert x in own;
  }

  // ---------------------------------------------------------------------------------------------
  // Running it again

  ghost predicate NoClash(base: seq<Entry>, cur: seq<Entry>, versions: map<Version, Version>) {
    forall e :: e in cur ==> !Clashes(base, versions, e)
  }

  /** What one pass makes of each entry: own entries stay own and move, every other entry stays. */
  lemma {:induction false} OnePass(base: seq<Entry>, cur: seq<Entry>, ancestor: seq<Entry>, e: Entry)
    requires VersionPlan(base, cur, ancestor).Ok? && e in cur
    requires NoClash(base, cur, VersionPlan(base, cur, ancestor).value)
    ensures var m := VersionPlan(base, cur, ancestor).value;
            var r := Renumber(base, m, e);
            && (IsOwn(base, r) <==> IsOwn(base, e))
            && EntryVersion(r).Some?
            && (IsOwn(base, e) ==> VersionOf(e) in m && VersionOf(r) == m[VersionOf(e)])
            && (!IsOwn(base, e) ==> r == e)
  {
    assert e in base + cur;
    if IsOwn(base, e) {
      OwnMoves(base, cur, ancestor, e);
    } else {
      OthersStay(base, cur, ancestor, e);
    }
  }

  /** The own versions after a pass are the moved own versions, in the same places. */
  lemma {:induction false} OwnAfterPass(base: seq<Entry>, part: seq<Entry>, m: map<Version, Version>)
    requires forall e :: e in part ==>
               && (IsOwn(base, Renumber(base, m, e)) <==> IsOwn(base, e))
               && (IsOwn(base, e) ==> VersionOf(Renumber(base, m, e)) == Moved(m, VersionOf(e)))
    ensures OwnVersions(base, Map(part, (e: Entry) => Renumber(base, m, e)))
         == Map(OwnVersions(base, part), (v: Version) => Moved(m, v))
  {
    hide KeyOf, VersionOf, Renumber, Moved;
    if part != [] {
      var f := (e: Entry) => Renumber(base, m, e);
      var g := (v: Version) => Moved(m, v);
      OwnAfterPass(base, part[1..], m);
      assert Map(part, f) == [f(part[0])] + Map(part[1..], f);
      OwnFirst(base, [f(part[0])] + Map(part[1..], f));
      OwnFirst(base, part);
      assert part[0] in part;
      var first := if IsOwn(base, part[0]) then [VersionOf(part[0])] else [];
      MapConcat(first, OwnVersions(base, part[1..]), g);
      hide OwnVersions;
      assert Map(first, g) == if IsOwn(base, part[0]) then [g(VersionOf(part[0]))] else [];
    }
  }

  lemma {:induction false} OwnFirst(base: seq<Entry>, es: seq<Entry>)
    requires es != []
    ensures OwnVersions(base, es)
         == (if IsOwn(base, es[0]) then [VersionOf(es[0])] else []) + OwnVersions(base, es[1..])
  {
    hide KeyOf, VersionOf;
  }

  /** A second plan keeps every version: it is the identity on the new versions. */
  lemma {:induction false} SecondPlanIsIdentity(base: seq<Entry>, cur: seq<Entry>, ancestor: seq<Entry>)
    requires VersionPlan(base, cur, ancestor).Ok?
    requires NoClash(base, cur, VersionPlan(base, cur, ancestor).value)
    ensures var again := RenumberActive(base, cur, VersionPlan(base, cur, ancestor).value);
            var news := NewVersions(base, cur);
            && VersionPlan(base, again, ancestor) == Ok(VersionMap(news, news))
            && (forall v :: v in VersionMap(news, news) <==> v in news)
            && (forall v :: v in VersionMap(news, news) ==> VersionMap(news, news)[v] == v)
  {
    var m := VersionPlan(base, cur, ancestor).value;
    var f := (e: Entry) => Renumber(base, m, e);
    var image := Map(cur, f);
    var again := RenumberActive(base, cur, m);
    var news := NewVersions(base, cur);
    AfterOnePass(base, cur, ancestor);
    hide KeyOf, VersionOf, Renumber, EntryVersion, Successors, RenumberActive, NoClash;
    assert multiset(again) == multiset(image) by {
      SortKeeps(base, cur, m);
    }
    ImageIn(cur, f, again);
    AllHaveVersions(base, cur, ancestor, f, again);
    NothingMissing(base, cur, ancestor, again);
    OwnAfterPass(base, cur, m);
    NewOwnVersions(base, cur, ancestor, again);
    SuccessorsFixed(SortedOwnVersions(base, cur), TopVersion(Map(base, VersionOf)));
    NewVersionsFollow(base, SortedOwnVersions(base, cur));
    IncreasingIsDistinct(news);
    VersionMapAt(news, news);
  }

  lemma {:induction false} AfterOnePass(base: seq<Entry>, cur: seq<Entry>, ancestor: seq<Entry>)
    requires VersionPlan(base, cur, ancestor).Ok?
    requires NoClash(base, cur, VersionPlan(base, cur, ancestor).value)
    ensures var m := VersionPlan(base, cur, ancestor).value;
            forall e :: e in cur ==>
              && (IsOwn(base, Renumber(base, m, e)) <==> IsOwn(base, e))
              && EntryVersion(Renumber(base, m, e)).Some?
              && (IsOwn(base, e) ==> VersionOf(Renumber(base, m, e)) == Moved(m, VersionOf(e)))
              && (!IsOwn(base, e) ==> Renumber(base, m, e) == e)
  {
    hide KeyOf, VersionOf, Renumber, EntryVersion;
    var m := VersionPlan(base, cur, ancestor).value;
    forall e | e in cur
      ensures && (IsOwn(base, Renumber(base, m, e)) <==> IsOwn(base, e))
              && EntryVersion(Renumber(base, m, e)).Some?
              && (IsOwn(base, e) ==> VersionOf(Renumber(base, m, e)) == Moved(m, VersionOf(e)))
              && (!IsOwn(base, e) ==> Renumber(base, m, e) == e)
    {
      OnePass(base, cur, ancestor, e);
    }
  }

  lemma {:induction false} SortKeeps(base: seq<Entry>, cur: seq<Entry>, m: map<Version, Version>)
    ensures multiset(RenumberActive(base, cur, m)) == multiset(Map(cur, (e: Entry) => Renumber(base, m, e)))
  {
  }

  lemma {:induction false} ImageIn(cur: seq<Entry>, f: Entry -> Entry, again: seq<Entry>)
    requires multiset(again) == multiset(Map(cur, f))
    ensures forall e :: e in cur ==> f(e) in again
    ensures forall x :: x in again ==> exists e :: e in cur && f(e) == x
  {
    var image := Map(cur, f);
    forall e | e in cur ensures f(e) in again {
      var k :| 0 <= k < |cur| && cur[k] == e;
      assert image[k] in multiset(again);
    }
    forall x | x in again ensures exists e :: e in cur && f(e) == x {
      assert x in multiset(image);
      var k :| 0 <= k < |image| && image[k] == x;
      assert cur[k] in cur && f(cur[k]) == x;
    }
  }

  lemma {:induction false} AllHaveVersions(base: seq<Entry>, cur: seq<Entry>, ancestor: seq<Entry>, f: Entry -> Entry,
                                           again: seq<Entry>)
    requires VersionPlan(base, cur, ancestor).Ok?
    requires forall e :: e in cur ==> EntryVersion(f(e)).Some?
    requires forall x :: x in again ==> exists e :: e in cur && f(e) == x
    ensures forall e :: e in base + again ==> EntryVersion(e).Some?
  {
    hide KeyOf, EntryVersion;
    forall e | e in base + again ensures EntryVersion(e).Some? {
      if e !in again {
        assert e in base + cur;
      }
    }
  }

  lemma {:induction false} IncreasingIsDistinct(vs: seq<Version>)
    requires Increasing(vs)
    ensures Distinct(vs)
  {
    forall i, j | 0 <= i < j < |vs| ensures vs[i] != vs[j] {
      assert Less(vs[i], vs[j]);
    }
  }

  lemma {:induction false} NothingMissing(base: seq<Entry>, cur: seq<Entry>, ancestor: seq<Entry>, again: seq<Entry>)
    requires VersionPlan(base, cur, ancestor).Ok?
    requires var m := VersionPlan(base, cur, ancestor).value;
             && (forall e :: e in cur && !IsOwn(base, e) ==> Renumber(base, m, e) == e)
             && (forall e :: e in cur ==> Renumber(base, m, e) in again)
    ensures Filter(base, (e: Entry) => Missing(again, ancestor, e)) == []
  {
    hide KeyOf, VersionOf, Renumber;
    FilterNone(base, (e: Entry) => Missing(again, ancestor, e)) by {
      forall e | e in base ensures !Missing(again, ancestor, e) {
        assert e !in Filter(base, (e: Entry) => Missing(cur, ancestor, e));
        if e in cur {
          assert !IsOwn(base, e);
        } else {
          var x :| x in cur && KeyOf(x) == KeyOf(e);
          assert !IsOwn(base, x);
        }
      }
    }
  }

  lemma {:induction false} NewOwnVersions(base: seq<Entry>, cur: seq<Entry>, ancestor: seq<Entry>, again: seq<Entry>)
    requires VersionPlan(base, cur, ancestor).Ok?
    requires var m := VersionPlan(base, cur, ancestor).value;
             var image := Map(cur, (e: Entry) => Renumber(base, m, e));
             && multiset(again) == multiset(image)
             && OwnVersions(base, image) == Map(OwnVersions(base, cur), (v: Version) => Moved(m, v))
    ensures Distinct(OwnVersions(base, again))
    ensures SortedOwnVersions(base, again) == NewVersions(base, cur)
  {
    hide KeyOf, VersionOf, Renumber, Successors;
    var m := VersionPlan(base, cur, ancestor).value;
    var image := Map(cur, (e: Entry) => Renumber(base, m, e));
    var own, news := SortedOwnVersions(base, cur), NewVersions(base, cur);
    PlanContinuesTheBase(base, cur, ancestor);
    var p := (e: Entry) => !HasKey(base, KeyOf(e));
    FilterPermutation(again, image, p);
    MapPermutation(Filter(again, p), Filter(image, p), VersionOf);
    MapPermutation(OwnVersions(base, cur), own, (v: Version) => Moved(m, v));
    assert Map(own, (v: Version) => Moved(m, v)) == news;
    assert multiset(OwnVersions(base, again)) == multiset(news);
    IncreasingIsDistinct(news);
    DistinctPermutation(OwnVersions(base, again), news);
    SortedOwn(OwnVersions(base, again));
    IncreasingIsUnique(SortedOwnVersions(base, again), news);
  }

  lemma {:induction false} SetVersionTwice(m: map<Version, Version>, n: map<Version, Version>, e: Entry)
    requires EntryVersion(e).Some? && VersionOf(e) in m
    requires m[VersionOf(e)] in n && n[m[VersionOf(e)]] == m[VersionOf(e)]
    ensures SetVersion(n, SetVersion(m, e)) == SetVersion(m, e)
  {
    SetVersionKey(m, e);
    var k := VersionLine(e);
    var l := VERSION_FIELD + VersionText(m[VersionOf(e)]) + "',";
    VersionLineReads(m[VersionOf(e)]);
    var r := SetVersion(m, e);
    assert r == e[k := l] && n[VersionOf(r)] == m[VersionOf(e)];
    hide VersionOnLine, VersionText, EntryTitle;
    FindFromIs(r, HasVersion, 0, k);
    assert VersionLine(r) == k;
    SetSameLine(n, r, k, l);
  }

  lemma {:induction false} SetSameLine(n: map<Version, Version>, r: Entry, k: nat, l: Line)
    requires k < |r| && VersionLine(r) == k && r[k] == l && VersionOf(r) in n
    requires l == VERSION_FIELD + VersionText(n[VersionOf(r)]) + "',"
    ensures SetVersion(n, r) == r
  {
    hide VersionOf, VersionLine, VersionText;
  }

  /** Running the whole pass again leaves the file as it is. */
  lemma {:induction false} SecondPassChangesNothing(base: seq<Entry>, cur: seq<Entry>, ancestor: seq<Entry>)
    requires VersionPlan(base, cur, ancestor).Ok?
    requires NoClash(base, cur, VersionPlan(base, cur, ancestor).value)
    ensures var again := RenumberActive(base, cur, VersionPlan(base, cur, ancestor).value);
            && VersionPlan(base, again, ancestor).Ok?
            && RenumberActive(base, again, VersionPlan(base, again, ancestor).value) == again
  {
    var m := VersionPlan(base, cur, ancestor).value;
    var again := RenumberActive(base, cur, m);
    var news := NewVersions(base, cur);
    var n := VersionMap(news, news);
    SecondPlanIsIdentity(base, cur, ancestor);
    PlanContinuesTheBase(base, cur, ancestor);
    AfterOnePass(base, cur, ancestor);
    SortKeeps(base, cur, m);
    ImageIn(cur, (e: Entry) => Renumber(base, m, e), again);
    NewestFirstIsTotal();
    SortIsStable(Map(cur, (e: Entry) => Renumber(base, m, e)), NewestFirst);
    forall x | x in again ensures Renumber(base, n, x) == x {
      var e :| e in cur && Renumber(base, m, e) == x;
      StaysPut(base, cur, ancestor, e);
    }
    assert Map(again, (e: Entry) => Renumber(base, n, e)) == again;
    SortedIsFixed(again, NewestFirst);
  }

  lemma {:induction false} StaysPut(base: seq<Entry>, cur: seq<Entry>, ancestor: seq<Entry>, e: Entry)
    requires VersionPlan(base, cur, ancestor).Ok? && e in cur
    requires NoClash(base, cur, VersionPlan(base, cur, ancestor).value)
    ensures var m := VersionPlan(base, cur, ancestor).value;
            var news := NewVersions(base, cur);
            Renumber(base, VersionMap(news, news), Renumber(base, m, e)) == Renumber(base, m, e)
  {
    hide *;
    var m := VersionPlan(base, cur, ancestor).value;
    var news := NewVersions(base, cur);
    SecondPlanIsIdentity(base, cur, ancestor);
    PlanContinuesTheBase(base, cur, ancestor);
    PlannedHasVersion(base, cur, ancestor, e);
    if IsOwn(base, e) {
      OwnStaysPut(base, cur, ancestor, e);
    } else {
      OthersStay(base, cur, ancestor, e);
      ClashesNot(base, cur, m, e);
      var b :| b in base && KeyOf(b) == KeyOf(e) && VersionOf(b) == VersionOf(e);
      forall i | 0 <= i < |news| ensures news[i] != VersionOf(e) {
        NotBelowItself(VersionOf(b), news[i]);
      }
      RenumberUntouched(base, VersionMap(news, news), e);
    }
  }

  lemma {:induction false} ClashesNot(base: seq<Entry>, cur: seq<Entry>, m: map<Version, Version>, e: Entry)
    requires NoClash(base, cur, m) && e in cur
    ensures !Clashes(base, m, e)
  {
    hide Clashes;
  }

  lemma {:induction false} RenumberUntouched(base: seq<Entry>, m: map<Version, Version>, e: Entry)
    requires VersionOf(e) !in m
    ensures Renumber(base, m, e) == e
  {
    Untouched(m, e);
    hide VersionOf;
  }

  lemma {:induction false} OwnStaysPut(base: seq<Entry>, cur: seq<Entry>, ancestor: seq<Entry>, e: Entry)
    requires VersionPlan(base, cur, ancestor).Ok? && e in cur && IsOwn(base, e)
    requires var news := NewVersions(base, cur);
             forall v :: (v in VersionMap(news, news) <==> v in news)
                      && (v in VersionMap(news, news) ==> VersionMap(news, news)[v] == v)
    ensures var m := VersionPlan(base, cur, ancestor).value;
            var news := NewVersions(base, cur);
            Renumber(base, VersionMap(news, news), Renumber(base, m, e)) == Renumber(base, m, e)
  {
    hide *;
    var m := VersionPlan(base, cur, ancestor).value;
    var own, news := SortedOwnVersions(base, cur), NewVersions(base, cur);
    PlanContinuesTheBase(base, cur, ancestor);
    PlannedHasVersion(base, cur, ancestor, e);
    OwnMoves(base, cur, ancestor, e);
    var i :| 0 <= i < |own| && own[i] == VersionOf(e);
    assert m[VersionOf(e)] == news[i];
    OwnIsNotBase(base, e);
    SetVersionTwice(m, VersionMap(news, news), e);
    OwnIsNotBase(base, Renumber(base, m, e));
    RenumberOwn(base, m, e);
    RenumberOwn(base, VersionMap(news, news), Renumber(base, m, e));
  }

  lemma {:induction false} OwnIsNotBase(base: seq<Entry>, e: Entry)
    requires IsOwn(base, e)
    ensures e !in base
  {
    hide KeyOf;
  }

  lemma {:induction false} RenumberOwn(base: seq<Entry>, m: map<Version, Version>, e: Entry)
    requires e !in base
    ensures Renumber(base, m, e) == SetVersion(m, e)
  {
    hide SetVersion;
  }

  lemma {:induction false} Untouched(m: map<Version, Version>, e: Entry)
    requires VersionOf(e) !in m
    ensures SetVersion(m, e) == e
  {
  }

  /** An entry of the renumbered file that has the key of a base entry is one the pass left alone. */
  lemma {:induction false} BaseKeyIsLeftAlone(base: seq<Entry>, cur: seq<Entry>, ancestor: seq<Entry>, x: Entry, b: Entry)
    requires VersionPlan(base, cur, ancestor).Ok? && x in cur && b in base
    requires KeyOf(Renumber(base, VersionPlan(base, cur, ancestor).value, x)) == KeyOf(b)
    ensures var m := VersionPlan(base, cur, ancestor).value;
            Renumber(base, m, x) == x && !Clashes(base, m, x)
  {
    var m := VersionPlan(base, cur, ancestor).value;
    if x !in base && VersionOf(x) in m {
      PlannedHasVersion(base, cur, ancestor, x);
      SetVersionKey(m, x);
      NewVersionIsAbove(base, cur, ancestor, VersionOf(x), b);
    } else if x !in base {
      Untouched(m, x);
    }
  }

  lemma {:induction false} NewVersionIsAbove(base: seq<Entry>, cur: seq<Entry>, ancestor: seq<Entry>, v: Version, b: Entry)
    requires VersionPlan(base, cur, ancestor).Ok? && v in VersionPlan(base, cur, ancestor).value && b in base
    ensures VersionOf(b) != VersionPlan(base, cur, ancestor).value[v]
  {
    PlanContinuesTheBase(base, cur, ancestor);
    hide *;
    var own, news := SortedOwnVersions(base, cur), NewVersions(base, cur);
    var i :| 0 <= i < |own| && own[i] == v;
    NotBelowItself(VersionOf(b), news[i]);
  }

  lemma {:induction false} NotBelowItself(v: Version, w: Version)
    requires Less(v, w)
    ensures v != w
  {
  }

  /** After a clash the base entry the branch edited is gone from the file, under its key too. */
  lemma {:induction false} ClashLosesBase(base: seq<Entry>, cur: seq<Entry>, ancestor: seq<Entry>, e: Entry)
    requires VersionPlan(base, cur, ancestor).Ok? && UniqueKeys(cur) && e in cur
    requires EditTakesOwn(base, cur, e)
    ensures var again := RenumberActive(base, cur, VersionPlan(base, cur, ancestor).value);
            exists b :: b in base && Missing(again, ancestor, b)
  {
    var m := VersionPlan(base, cur, ancestor).value;
    ClashesIff(base, cur, ancestor);
    var again := RenumberActive(base, cur, m);
    var b :| b in base && KeyOf(b) == KeyOf(e);
    SortKeeps(base, cur, m);
    ImageIn(cur, (e: Entry) => Renumber(base, m, e), again);
    hide VersionPlan, RenumberActive, Renumber, KeyOf, Clashes, EditTakesOwn, NoClash, EditsApart, UniqueKeys;
    forall y | y in again ensures KeyOf(y) != KeyOf(b) {
      var x :| x in cur && Renumber(base, m, x) == y;
      if KeyOf(y) == KeyOf(b) {
        BaseKeyIsLeftAlone(base, cur, ancestor, x, b);
        LookupUnique(cur, x);
        LookupUnique(cur, e);
      }
    }
    assert Missing(again, ancestor, b);
  }

  lemma {:induction false} MissingIsRefused(base: seq<Entry>, cur: seq<Entry>, ancestor: seq<Entry>, b: Entry)
    requires b in base && Missing(cur, ancestor, b)
    ensures VersionPlan(base, cur, ancestor).Err?
  {
    hide EntryVersion, KeyOf, Missing, OwnVersions;
    assert b in Filter(base, (e: Entry) => Missing(cur, ancestor, e));
  }

  /**
   * The pass can be run again exactly when nothing clashed: then a second plan is the identity, and otherwise it finds a
   * base entry missing.
   */
  lemma {:induction false} SecondPlanIsIdentityIff(base: seq<Entry>, cur: seq<Entry>, ancestor: seq<Entry>)
    requires VersionPlan(base, cur, ancestor).Ok? && UniqueKeys(cur)
    ensures var m, news := VersionPlan(base, cur, ancestor).value, NewVersions(base, cur);
            var plan := VersionPlan(base, RenumberActive(base, cur, m), ancestor);
            && (plan.Ok? <==> EditsApart(base, cur))
            && (plan.Ok? ==> plan.value.Keys == (set v | v in news) && forall v :: v in plan.value ==> plan.value[v] == v)
  {
    hide *;
    var m := VersionPlan(base, cur, ancestor).value;
    ClashesIff(base, cur, ancestor);
    if NoClash(base, cur, m) {
      SecondPlanIsIdentity(base, cur, ancestor);
    } else {
      var e := SomeClash(base, cur, m);
      ClashLosesBase(base, cur, ancestor, e);
      var b :| b in base && Missing(RenumberActive(base, cur, m), ancestor, b);
      MissingIsRefused(base, RenumberActive(base, cur, m), ancestor, b);
    }
  }

  lemma {:induction false} SomeClash(base: seq<Entry>, cur: seq<Entry>, m: map<Version, Version>) returns (e: Entry)
    requires !NoClash(base, cur, m)
    ensures e in cur && Clashes(base, m, e)
  {
    hide Clashes;
    e :| e in cur && Clashes(base, m, e);
  }

  /** Running the whole pass again leaves the file as it is, exactly when nothing clashed. */
  lemma {:induction false} SecondPassChangesNothingIff(base: seq<Entry>, cur: seq<Entry>, ancestor: seq<Entry>)
    requires VersionPlan(base, cur, ancestor).Ok? && UniqueKeys(cur)
    ensures var m := VersionPlan(base, cur, ancestor).value;
            var again := RenumberActive(base, cur, m);
            var plan := VersionPlan(base, again, ancestor);
            (plan.Ok? && RenumberActive(base, again, plan.value) == again) <==> EditsApart(base, cur)
  {
    hide *;
    ClashesIff(base, cur, ancestor);
    SecondPlanIsIdentityIff(base, cur, ancestor);
    if NoClash(base, cur, VersionPlan(base, cur, ancestor).value) {
      SecondPassChangesNothing(base, cur, ancestor);
    }
  }

  // ---------------------------------------------------------------------------------------------
  // A tree that clashes

  /** An entry with one line after its version and its title. */
  function Written(v: Version, title: string, note: Line): Entry {
    ["  {", VERSION_FIELD + VersionText(v) + "',", TITLE_FIELD + title + "',", note, "  }"]
  }

  /** It is an entry the changelog is split into. */
  lemma {:induction false} WrittenIsEntry(v: Version, title: string, note: Line)
    requires '<' !in title && '>' !in title && !StopsEntry(note)
    ensures WellFormedEntry(Written(v, title, note))
  {
    var e := Written(v, title, note);
    assert '<' !in VersionText(v) && '>' !in VersionText(v);
    FieldStopsNothing(VERSION_FIELD, VersionText(v));
    FieldStopsNothing(TITLE_FIELD, title);
    hide VersionText, StopsEntry;
  }

  lemma {:induction false} FieldStopsNothing(field: string, x: string)
    requires field in [VERSION_FIELD, TITLE_FIELD] && '<' !in x && '>' !in x
    ensures !StopsEntry(field + x + "',")
  {
    var l := field + x + "',";
    assert l[0] == field[0] && l[1] == field[1] && l[2] == field[2] != '}';
    assert forall i :: 0 <= i < |l| ==> l[i] != '<' && l[i] != '>';
    NoMarker(l, "<<<<<<<");
    NoMarker(l, ">>>>>>>");
  }

  lemma {:induction false} NoMarker(l: Line, marker: string)
    requires marker != "" && forall i :: 0 <= i < |l| ==> l[i] != marker[0]
    ensures !Contains(l, marker)
  {
    forall i | 0 <= i <= |l| ensures !StartsWith(l[i..], marker) {
      assert i < |l| ==> l[i..][0] == l[i];
      assert |marker| <= |l[i..]| ==> l[i..][..|marker|][0] == l[i..][0];
    }
  }

  lemma {:induction false} WrittenReads(v: Version, title: string, note: Line)
    requires '\'' !in title
    ensures EntryVersion(Written(v, title, note)) == Some(v)
    ensures KeyOf(Written(v, title, note)) == Key(Some(v), Some(title))
  {
    hide *;
    WrittenLines(v, title, note);
    VersionLineReads(v);
    TitleLineReads(title);
    BraceIsNoField();
    NoTitle(VERSION_FIELD + VersionText(v) + "',");
    FieldsRead(Written(v, title, note), v, title);
  }

  lemma {:induction false} NoTitle(l: Line)
    requires TitleOnLine(l).None?
    ensures !HasTitle(l)
  {
    hide TitleOnLine;
  }

  lemma {:induction false} WrittenLines(v: Version, title: string, note: Line)
    ensures var e := Written(v, title, note);
            && |e| == 5 && e[0] == "  {"
            && e[1] == VERSION_FIELD + VersionText(v) + "'," && e[2] == TITLE_FIELD + title + "',"
  {
    hide VersionText;
  }

  lemma {:induction false} FieldsRead(e: Entry, v: Version, title: string)
    requires |e| > 2 && !HasVersion(e[0]) && !HasTitle(e[0]) && !HasTitle(e[1])
    requires VersionOnLine(e[1]) == Some(v) && TitleOnLine(e[2]) == Some(title)
    ensures EntryVersion(e) == Some(v) && KeyOf(e) == Key(Some(v), Some(title))
  {
    hide VersionOnLine, TitleOnLine;
    FindFromIs(e, HasVersion, 0, 1);
    FindFromIs(e, HasTitle, 0, 2);
  }

  lemma {:induction false} BraceIsNoField()
    ensures !HasVersion("  {") && !HasTitle("  {")
  {
    hide MatchVersion;
  }

  lemma {:induction false} TitleLineReads(title: string)
    requires '\'' !in title
    ensures TitleOnLine(TITLE_FIELD + title + "',") == Some(title)
  {
    var l := TITLE_FIELD + title + "',";
    var n := |title|;
    assert l[..|TITLE_FIELD|] == TITLE_FIELD && l[|TITLE_FIELD|..|TITLE_FIELD| + n] == title;
    assert forall k :: |TITLE_FIELD| <= k < |TITLE_FIELD| + n ==> l[k] == title[k - |TITLE_FIELD|];
    RunIs(l, IsNoQuote, |TITLE_FIELD|, n);
  }

  /**
   * The branch edits the note of the base's v1.0.0 and adds an entry of its own with the same version: both become
   * v1.1.0, and the planner refuses the file it renumbered itself.
   */
  lemma {:induction false} ClashStopsSecondRun()
    ensures var v := Version(1, 0, 0);
            var base := [Written(v, "a", "x")];
            var cur := [Written(v, "a", "y"), Written(v, "b", "x")];
            && (forall e :: e in base + cur ==> WellFormedEntry(e))
            && UniqueKeys(cur) && VersionPlan(base, cur, base) == Ok(map[v := Version(1, 1, 0)])
            && var again := RenumberActive(base, cur, map[v := Version(1, 1, 0)]);
               !StrictlyDescending(again) && VersionPlan(base, again, base).Err?
  {
    hide *;
    var v := Version(1, 0, 0);
    var b := PlainEntry(v, "a", "x");
    var e := PlainEntry(v, "a", "y");
    var x := PlainEntry(v, "b", "x");
    assert b[3] != e[3];
    ClashStops(b, e, x, v);
  }

  /** What the entries of the example read as. */
  lemma {:induction false} PlainEntry(v: Version, title: string, note: Line) returns (e: Entry)
    requires v == Version(1, 0, 0) && |title| == |note| == 1 && title[0] in ['a', 'b'] && note[0] in ['x', 'y']
    ensures e == Written(v, title, note) && |e| == 5 && e[3] == note
    ensures WellFormedEntry(e) && EntryVersion(e) == Some(v) && KeyOf(e) == Key(Some(v), Some(title))
  {
    e := Written(v, title, note);
    assert '\'' !in title && '<' !in title && '>' !in title;
    NoMarker(note, "<<<<<<<");
    NoMarker(note, ">>>>>>>");
    hide Contains, VersionText, EntryVersion, WellFormedEntry;
    WrittenReads(v, title, note);
    WrittenIsEntry(v, title, note);
  }

  lemma {:induction false} ClashStops(b: Entry, e: Entry, x: Entry, v: Version)
    requires v == Version(1, 0, 0) && EntryVersion(b) == EntryVersion(e) == EntryVersion(x) == Some(v)
    requires KeyOf(b) == KeyOf(e) != KeyOf(x) && b != e
    ensures UniqueKeys([e, x]) && VersionPlan([b], [e, x], [b]) == Ok(map[v := Version(1, 1, 0)])
    ensures var again := RenumberActive([b], [e, x], map[v := Version(1, 1, 0)]);
            !StrictlyDescending(again) && VersionPlan([b], again, [b]).Err?
  {
    var m := map[v := Version(1, 1, 0)];
    ClashHolds(b, e, x, v);
    ClashPlan(b, e, x, v);
    hide *;
    ActiveFileDescendsIff([b], [e, x], [b]);
    SecondPlanIsIdentityIff([b], [e, x], [b]);
    ClashesIff([b], [e, x], [b]);
    NoClashIs([b], [e, x], m);
    assert e in [e, x] && Clashes([b], m, e);
  }

  lemma {:induction false} ClashHolds(b: Entry, e: Entry, x: Entry, v: Version)
    requires EntryVersion(b) == EntryVersion(e) == EntryVersion(x) == Some(v)
    requires KeyOf(b) == KeyOf(e) != KeyOf(x) && b != e
    ensures UniqueKeys([e, x]) && Distinct(Map([b], VersionOf)) && Map([b], VersionOf) == [v] && VersionOf(x) == v
    ensures HasKey([b], KeyOf(e)) && !HasKey([b], KeyOf(x)) && HasKey([e, x], KeyOf(b))
    ensures forall versions: map<Version, Version> :: v in versions ==> Clashes([b], versions, e)
  {
    hide *;
    VersionIs(b, v);
    VersionIs(e, v);
    VersionIs(x, v);
    ClashKeys(b, e, x);
  }

  lemma {:induction false} VersionIs(e: Entry, v: Version)
    requires EntryVersion(e) == Some(v)
    ensures VersionOf(e) == v
  {
    hide EntryVersion;
  }

  lemma {:induction false} ClashKeys(b: Entry, e: Entry, x: Entry)
    requires KeyOf(b) == KeyOf(e) != KeyOf(x) && b != e
    ensures UniqueKeys([e, x]) && Distinct(Map([b], VersionOf)) && Map([b], VersionOf) == [VersionOf(b)]
    ensures HasKey([b], KeyOf(e)) && !HasKey([b], KeyOf(x)) && HasKey([e, x], KeyOf(b))
    ensures forall versions: map<Version, Version> :: VersionOf(e) in versions ==> Clashes([b], versions, e)
  {
    hide KeyOf, VersionOf;
    assert b in [b] && e in [e, x];
    assert HasKey([b], KeyOf(e));
  }

  lemma {:induction false} ClashPlan(b: Entry, e: Entry, x: Entry, v: Version)
    requires v == Version(1, 0, 0) && EntryVersion(b) == EntryVersion(e) == EntryVersion(x) == Some(v)
    requires KeyOf(b) == KeyOf(e) != KeyOf(x) && b != e
    ensures VersionPlan([b], [e, x], [b]) == Ok(map[v := Version(1, 1, 0)])
  {
    hide *;
    ClashHolds(b, e, x, v);
    NothingLost(b, [e, x]);
    ClashOwn([b], e, x, v);
    OneSorted(v);
    OneSuccessor();
    PlanIs([b], [e, x], [b]);
    NewVersionsAre([b], [e, x]);
  }

  lemma {:induction false} NewVersionsAre(base: seq<Entry>, cur: seq<Entry>)
    ensures SortedOwnVersions(base, cur) == Sort(OwnVersions(base, cur), AtMost)
    ensures NewVersions(base, cur) == Successors(SortedOwnVersions(base, cur), TopVersion(Map(base, VersionOf)))
  {
    hide Successors, TopVersion, OwnVersions, Sort;
  }

  lemma {:induction false} OneSorted(v: Version)
    ensures Sort([v], AtMost) == [v] && Distinct([v])
  {
    SortedIsFixed([v], AtMost);
  }

  lemma {:induction false} NothingLost(b: Entry, cur: seq<Entry>)
    requires HasKey(cur, KeyOf(b))
    ensures Filter([b], (z: Entry) => Missing(cur, [b], z)) == []
  {
    hide HasKey, KeyOf;
    FilterNone([b], (z: Entry) => Missing(cur, [b], z));
  }

  lemma {:induction false} PlanIs(base: seq<Entry>, cur: seq<Entry>, ancestor: seq<Entry>)
    requires forall e :: e in base + cur ==> EntryVersion(e).Some?
    requires Filter(base, (e: Entry) => Missing(cur, ancestor, e)) == [] && Distinct(OwnVersions(base, cur))
    ensures VersionPlan(base, cur, ancestor)
         == Ok(VersionMap(SortedOwnVersions(base, cur), NewVersions(base, cur)))
  {
    hide EntryVersion, Missing, OwnVersions, VersionMap, Successors, TopVersion, Sort;
  }

  lemma {:induction false} ClashOwn(base: seq<Entry>, e: Entry, x: Entry, v: Version)
    requires HasKey(base, KeyOf(e)) && !HasKey(base, KeyOf(x)) && VersionOf(x) == v
    ensures OwnVersions(base, [e, x]) == [v]
  {
    hide HasKey, KeyOf, VersionOf;
    var p := (z: Entry) => !HasKey(base, KeyOf(z));
    assert [e, x] == [e] + [x];
    FilterNext([e], x, p);
    FilterNone([e], p);
  }

  lemma {:induction false} OneSuccessor()
    ensures var v, next := Version(1, 0, 0), Version(1, 1, 0);
            && TopVersion([v]) == v && Successors([v], v) == [next] && VersionMap([v], [next]) == map[v := next]
  {
    var v, next := Version(1, 0, 0), Version(1, 1, 0);
    assert [v][1..] == [] && [v][..0] == [] && [next][..0] == [];
    assert Successors([], next) == [] && VersionMap([], []) == map[];
  }
}
