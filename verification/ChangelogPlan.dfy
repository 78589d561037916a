/**
 * The entries of the active changelog in a merge: `unionChangelog` (scripts/renumber/conflicts.ts), `planVersions` and
 * the renumbering of the active file in `planRenumber` (scripts/renumber/plan.ts).
 */
module ChangelogPlan {
  import opened Changelog
  import opened Decimals
  import opened Merging
  import opened Seqs
  import opened Sorting
  import opened Texts
  import opened Versions

  // ---------------------------------------------------------------------------------------------
  // What identifies an entry

  const VERSION_FIELD := "    version: '"
  const TITLE_FIELD := "    title: '"

  /** The version of `/^ {4}version: '(v\d+\.\d+\.\d+)',$/`. */
  function VersionOnLine(l: Line): Option<Version> {
    if !StartsWith(l, VERSION_FIELD) then None
    else
      match MatchVersion(l, |VERSION_FIELD|)
      case None => None
      case Some(m) => if l[|VERSION_FIELD| + m.length..] == "'," then Some(m.value) else None
  }

  predicate IsNoQuote(c: char) { c != '\'' }

  /** The title of `/^ {4}title: '([^']*)'/`, on one line. */
  function TitleOnLine(l: Line): Option<string> {
    if !StartsWith(l, TITLE_FIELD) then None
    else
      var n := Run(l, IsNoQuote, |TITLE_FIELD|);
      if |TITLE_FIELD| + n == |l| then None else Some(l[|TITLE_FIELD|..|TITLE_FIELD| + n])
  }

  predicate HasVersion(l: Line) { VersionOnLine(l).Some? }

  predicate HasTitle(l: Line) { TitleOnLine(l).Some? }

  /** Index of the version line; `|e|` when there is none. */
  function VersionLine(e: Entry): nat { FindFrom(e, HasVersion, 0) }

  function EntryVersion(e: Entry): Option<Version> {
    var k := VersionLine(e);
    if k == |e| then None else VersionOnLine(e[k])
  }

  function EntryTitle(e: Entry): Option<string> {
    var k := FindFrom(e, HasTitle, 0);
    if k == |e| then None else TitleOnLine(e[k])
  }

  datatype Key = Key(version: Option<Version>, title: Option<string>)

  function KeyOf(e: Entry): Key { Key(EntryVersion(e), EntryTitle(e)) }

  predicate HasKey(es: seq<Entry>, k: Key) { exists e :: e in es && KeyOf(e) == k }

  /** `Map` of the entries by key: the last entry of a key wins. */
  function Lookup(es: seq<Entry>, k: Key): (e: Option<Entry>)
    ensures e.Some? <==> HasKey(es, k)
    ensures e.Some? ==> e.value in es && KeyOf(e.value) == k
  {
    if es == [] then None
    else if KeyOf(es[|es| - 1]) == k then Some(es[|es| - 1])
    else
      assert forall x :: x in es && KeyOf(x) == k ==> x in es[..|es| - 1];
      Lookup(es[..|es| - 1], k)
  }

  predicate UniqueKeys(es: seq<Entry>) { Distinct(Map(es, KeyOf)) }

  lemma {:induction false} LookupUnique(es: seq<Entry>, e: Entry)
    requires UniqueKeys(es) && e in es
    ensures Lookup(es, KeyOf(e)) == Some(e)
  {
    hide KeyOf, Lookup;
    var f := Lookup(es, KeyOf(e)).value;
    var i :| 0 <= i < |es| && es[i] == e;
    var j :| 0 <= j < |es| && es[j] == f;
    var keys := Map(es, KeyOf);
    assert keys[i] == keys[j];
  }

  // ---------------------------------------------------------------------------------------------
  // The three-way merge of the entries

  /** A branch block that is neither the base's nor the ancestor's. */
  predicate Changed(theirs: seq<Entry>, ancestor: seq<Entry>, e: Entry) {
    e !in theirs && Lookup(ancestor, KeyOf(e)) != Some(e)
  }

  function ChangedOf(ours: seq<Entry>, theirs: seq<Entry>, ancestor: seq<Entry>): seq<Entry> {
    Filter(ours, (e: Entry) => Changed(theirs, ancestor, e))
  }

  /** A new entry of the branch. */
  predicate IsNew(theirs: seq<Entry>, ancestor: seq<Entry>, e: Entry) {
    Changed(theirs, ancestor, e) && !HasKey(theirs, KeyOf(e))
  }

  /** The branch edited the entry `e` of the base, which the base side edited too. */
  predicate EditedTwice(edited: seq<Entry>, ancestor: seq<Entry>, e: Entry) {
    HasKey(edited, KeyOf(e)) && Lookup(ancestor, KeyOf(e)) != Some(e)
  }

  function UnionOf(ours: seq<Entry>, theirs: seq<Entry>, ancestor: seq<Entry>): seq<Entry> {
    var edited := ChangedOf(ours, theirs, ancestor);
    Filter(ours, (e: Entry) => IsNew(theirs, ancestor, e)) + Map(theirs, (e: Entry) => Replacement(edited, e))
  }

  /** `None`: both sides edited an entry. `ancestor` is empty when git has none. */
  function UnionChangelog(ours: seq<Entry>, theirs: seq<Entry>, ancestor: seq<Entry>): Option<seq<Entry>> {
    if exists e :: e in theirs && EditedTwice(ChangedOf(ours, theirs, ancestor), ancestor, e) then None
    else Some(UnionOf(ours, theirs, ancestor))
  }

  /** `edited.get(key(b)) ?? b`. */
  function Replacement(edited: seq<Entry>, e: Entry): (r: Entry)
    ensures KeyOf(r) == KeyOf(e)
  {
    match Lookup(edited, KeyOf(e)) case None => e case Some(x) => x
  }

  function MergeAt(ancestor: seq<Entry>, ours: seq<Entry>, theirs: seq<Entry>, k: Key): Option<Option<Entry>> {
    Merge3(Lookup(ancestor, k), Lookup(ours, k), Lookup(theirs, k))
  }

  /** The branch deleted the entry of this key, and the base left it as the ancestor had it. */
  predicate DeletedAt(ancestor: seq<Entry>, ours: seq<Entry>, theirs: seq<Entry>, k: Key) {
    Lookup(ours, k).None? && Lookup(theirs, k).Some? && Lookup(theirs, k) == Lookup(ancestor, k)
  }

  /** The branch still has every entry that the base holds as the ancestor had it. */
  predicate DeletesNothing(ancestor: seq<Entry>, ours: seq<Entry>, theirs: seq<Entry>) {
    forall e :: e in theirs && Lookup(ancestor, KeyOf(e)) == Some(e) ==> HasKey(ours, KeyOf(e))
  }

  lemma {:induction false} LookupConcat(a: seq<Entry>, b: seq<Entry>, k: Key)
    ensures Lookup(a + b, k) == if HasKey(b, k) then Lookup(b, k) else Lookup(a, k)
  {
    hide KeyOf;
    if b == [] {
      assert a + b == a;
    } else {
      assert (a + b)[..|a + b| - 1] == a + b[..|b| - 1];
      LookupConcat(a, b[..|b| - 1], k);
      assert HasKey(b, k) <==> KeyOf(b[|b| - 1]) == k || HasKey(b[..|b| - 1], k) by {
        assert b == b[..|b| - 1] + [b[|b| - 1]];
      }
    }
  }

  lemma {:induction false} LookupReplaced(edited: seq<Entry>, theirs: seq<Entry>, k: Key)
    ensures var r := Map(theirs, (e: Entry) => Replacement(edited, e));
            Lookup(r, k) == match Lookup(theirs, k) case None => None case Some(e) => Some(Replacement(edited, e))
  {
    hide KeyOf;
    if theirs != [] {
      var front := theirs[..|theirs| - 1];
      LookupReplaced(edited, front, k);
      var r := Map(theirs, (e: Entry) => Replacement(edited, e));
      assert r[..|r| - 1] == Map(front, (e: Entry) => Replacement(edited, e));
    }
  }

  lemma {:induction false} LookupFilter(es: seq<Entry>, p: Entry -> bool, k: Key)
    requires UniqueKeys(es)
    ensures Lookup(Filter(es, p), k)
         == if Lookup(es, k).Some? && p(Lookup(es, k).value) then Lookup(es, k) else None
  {
    hide KeyOf;
    var r := Filter(es, p);
    if HasKey(r, k) {
      LookupUnique(es, Lookup(r, k).value);
    }
    var e := Lookup(es, k);
    if e.Some? && p(e.value) {
      assert e.value in r;
    }
  }

  lemma {:induction false} EditedAt(ours: seq<Entry>, theirs: seq<Entry>, ancestor: seq<Entry>, k: Key)
    requires UniqueKeys(ours) && UniqueKeys(theirs)
    ensures var o := Lookup(ours, k);
            Lookup(ChangedOf(ours, theirs, ancestor), k)
            == if o.Some? && o != Lookup(theirs, k) && o != Lookup(ancestor, k) then o else None
  {
    hide KeyOf, UniqueKeys;
    var o := Lookup(ours, k);
    LookupFilter(ours, (e: Entry) => Changed(theirs, ancestor, e), k);
    if o.Some? && o.value in theirs {
      LookupUnique(theirs, o.value);
    }
  }

  lemma {:induction false} UnionAt(ours: seq<Entry>, theirs: seq<Entry>, ancestor: seq<Entry>, k: Key)
    requires UniqueKeys(ours) && UniqueKeys(theirs)
    ensures var a, o, t := Lookup(ancestor, k), Lookup(ours, k), Lookup(theirs, k);
            Lookup(UnionOf(ours, theirs, ancestor), k) == if o.None? || o == t || o == a then t else o
  {
    hide KeyOf, UniqueKeys, Lookup, ChangedOf;
    var edited := ChangedOf(ours, theirs, ancestor);
    EditedAt(ours, theirs, ancestor, k);
    var isNew := (e: Entry) => IsNew(theirs, ancestor, e);
    var own := Filter(ours, isNew);
    var mapped := Map(theirs, (e: Entry) => Replacement(edited, e));
    LookupFilter(ours, isNew, k);
    LookupReplaced(edited, theirs, k);
    LookupConcat(own, mapped, k);
    assert Lookup(theirs, k).None? ==> forall e :: e in theirs ==> KeyOf(e) != k;
  }

  /** The union writes the merge of every key, except that an entry the branch deleted stays. */
  lemma {:induction false} UnionIsMerge(ours: seq<Entry>, theirs: seq<Entry>, ancestor: seq<Entry>, k: Key)
    requires UniqueKeys(ours) && UniqueKeys(theirs) && MergeAt(ancestor, ours, theirs, k).Some?
    ensures Lookup(UnionOf(ours, theirs, ancestor), k)
         == if DeletedAt(ancestor, ours, theirs, k) then Lookup(theirs, k) else MergeAt(ancestor, ours, theirs, k).value
  {
    UnionAt(ours, theirs, ancestor, k);
    hide Lookup, UnionOf, UniqueKeys;
  }

  lemma {:induction false} RefusedIff(ours: seq<Entry>, theirs: seq<Entry>, ancestor: seq<Entry>)
    requires UniqueKeys(ours) && UniqueKeys(theirs)
    ensures UnionChangelog(ours, theirs, ancestor).None? <==> exists k :: MergeAt(ancestor, ours, theirs, k).None?
  {
    hide KeyOf, UniqueKeys, ChangedOf, UnionOf, Lookup;
    var edited := ChangedOf(ours, theirs, ancestor);
    forall e | e in theirs ensures EditedTwice(edited, ancestor, e) <==> MergeAt(ancestor, ours, theirs, KeyOf(e)).None? {
      LookupUnique(theirs, e);
      EditedAt(ours, theirs, ancestor, KeyOf(e));
    }
    if e: Entry :| e in theirs && EditedTwice(edited, ancestor, e) {
      assert MergeAt(ancestor, ours, theirs, KeyOf(e)).None?;
    }
    if k: Key :| MergeAt(ancestor, ours, theirs, k).None? {
      var e := Lookup(theirs, k).value;
      assert e in theirs && KeyOf(e) == k;
    }
  }

  /**
   * With unique keys on each side the union refuses exactly when some entry was edited on both sides. Otherwise it is
   * the three-way merge of every key exactly when the branch deleted nothing: a deletion is undone.
   */
  lemma {:induction false} UnionIsThreeWayIff(ours: seq<Entry>, theirs: seq<Entry>, ancestor: seq<Entry>)
    requires UniqueKeys(ours) && UniqueKeys(theirs)
    ensures var r := UnionChangelog(ours, theirs, ancestor);
            && (r.None? <==> exists k :: MergeAt(ancestor, ours, theirs, k).None?)
            && (r.Some? ==> ((forall k :: MergeAt(ancestor, ours, theirs, k) == Some(Lookup(r.value, k)))
                             <==> DeletesNothing(ancestor, ours, theirs)))
            && (r.Some? ==> forall k :: DeletedAt(ancestor, ours, theirs, k) ==> Lookup(r.value, k) == Lookup(theirs, k))
  {
    RefusedIff(ours, theirs, ancestor);
    hide UniqueKeys, ChangedOf, UnionOf, Lookup, KeyOf, EditedTwice;
    var r := UnionChangelog(ours, theirs, ancestor);
    if r.Some? {
      assert r.value == UnionOf(ours, theirs, ancestor);
      hide UnionChangelog;
      forall k ensures Lookup(r.value, k) == if DeletedAt(ancestor, ours, theirs, k) then Lookup(theirs, k)
                                             else MergeAt(ancestor, ours, theirs, k).value
      {
        UnionIsMerge(ours, theirs, ancestor, k);
      }
      DeletesNothingIff(ours, theirs, ancestor);
      hide MergeAt;
      forall k | DeletedAt(ancestor, ours, theirs, k) ensures MergeAt(ancestor, ours, theirs, k) != Some(Lookup(theirs, k)) {
        DeletedIsMergedAway(ours, theirs, ancestor, k);
      }
    }
  }

  lemma {:induction false} DeletedIsMergedAway(ours: seq<Entry>, theirs: seq<Entry>, ancestor: seq<Entry>, k: Key)
    requires DeletedAt(ancestor, ours, theirs, k)
    ensures MergeAt(ancestor, ours, theirs, k) == Some(None)
  {
    hide Lookup;
  }

  lemma {:induction false} DeletesNothingIff(ours: seq<Entry>, theirs: seq<Entry>, ancestor: seq<Entry>)
    requires UniqueKeys(theirs)
    ensures DeletesNothing(ancestor, ours, theirs) <==> forall k :: !DeletedAt(ancestor, ours, theirs, k)
  {
    hide UniqueKeys, KeyOf, Lookup;
    if k: Key :| DeletedAt(ancestor, ours, theirs, k) {
      var e := Lookup(theirs, k).value;
      assert e in theirs && KeyOf(e) == k;
    }
    if e: Entry :| e in theirs && Lookup(ancestor, KeyOf(e)) == Some(e) && !HasKey(ours, KeyOf(e)) {
      LookupUnique(theirs, e);
      assert DeletedAt(ancestor, ours, theirs, KeyOf(e));
    }
  }

  /** A branch that deleted every entry gets them all back. */
  lemma {:induction false} DeletionIsUndone(theirs: seq<Entry>, e: Entry)
    requires UniqueKeys(theirs) && e in theirs
    ensures UnionChangelog([], theirs, theirs) == Some(theirs)
    ensures MergeAt(theirs, [], theirs, KeyOf(e)) == Some(None)
  {
    hide KeyOf, UniqueKeys, Lookup, UnionOf;
    LookupUnique(theirs, e);
    assert !HasKey([], KeyOf(e));
    NothingEdited(theirs);
  }

  lemma {:induction false} NothingEdited(theirs: seq<Entry>)
    ensures ChangedOf([], theirs, theirs) == [] && UnionOf([], theirs, theirs) == theirs
    ensures forall x :: !EditedTwice([], theirs, x)
  {
    hide KeyOf;
    assert ChangedOf([], theirs, theirs) == [];
    forall x ensures Replacement([], x) == x {
      assert !HasKey([], KeyOf(x));
    }
  }

  // ---------------------------------------------------------------------------------------------
  // `planVersions`

  const NO_VERSION := Version(0, 0, 0)

  function VersionOf(e: Entry): Version {
    match EntryVersion(e) case None => NO_VERSION case Some(v) => v
  }

  datatype VersionError = NoVersionLine | BaseMissing(count: nat) | SameVersionTwice

  /** A base entry that is neither here as it is nor here as the branch's edit of what the ancestor held. */
  predicate Missing(cur: seq<Entry>, ancestor: seq<Entry>, e: Entry) {
    e !in cur && !(HasKey(cur, KeyOf(e)) && e in ancestor)
  }

  /** The versions of the entries that are not the base's. */
  function OwnVersions(base: seq<Entry>, cur: seq<Entry>): seq<Version> {
    Map(Filter(cur, (e: Entry) => !HasKey(base, KeyOf(e))), VersionOf)
  }

  function TopVersion(vs: seq<Version>): (top: Version)
    ensures forall v :: v in vs ==> AtMost(v, top)
    ensures vs != [] ==> top in vs
  {
    if vs == [] then NO_VERSION
    else
      var rest := TopVersion(vs[1..]);
      assert vs == [vs[0]] + vs[1..];
      if |vs| == 1 || Less(rest, vs[0]) then vs[0] else rest
  }

  function NextVersion(last: Version, v: Version): Version {
    if v.patch == 0 then Version(last.major, last.minor + 1, 0) else Version(last.major, last.minor, last.patch + 1)
  }

  /** The new versions of `own`, in order, after `last`. */
  function Successors(own: seq<Version>, last: Version): (r: seq<Version>)
    ensures |r| == |own|
  {
    if own == [] then []
    else
      var next := NextVersion(last, own[0]);
      [next] + Successors(own[1..], next)
  }

  function VersionMap(own: seq<Version>, news: seq<Version>): map<Version, Version>
    requires |own| == |news|
  {
    if own == [] then map[] else VersionMap(own[..|own| - 1], news[..|own| - 1])[own[|own| - 1] := news[|own| - 1]]
  }

  function VersionPlan(base: seq<Entry>, cur: seq<Entry>, ancestor: seq<Entry>): Result<map<Version, Version>, VersionError> {
    if exists e :: e in base + cur && EntryVersion(e).None? then Err(NoVersionLine)
    else
      var missing := Filter(base, (e: Entry) => Missing(cur, ancestor, e));
      if missing != [] then Err(BaseMissing(|missing|))
      else if !Distinct(OwnVersions(base, cur)) then Err(SameVersionTwice)
      else
        var own := Sort(OwnVersions(base, cur), AtMost);
        Ok(VersionMap(own, Successors(own, TopVersion(Map(base, VersionOf)))))
  }

  /** The source's loop: the running minor and patch number after the top version of the base. */
  method NumberVersions(own: seq<Version>, top: Version) returns (renumbered: map<Version, Version>)
    ensures renumbered == VersionMap(own, Successors(own, top))
  {
    ghost var news := Successors(own, top);
    var minor, patch := top.minor, top.patch;
    renumbered := map[];
    assert own[0..] == own && news[0..] == news;
    for i := 0 to |own|
      invariant news[i..] == Successors(own[i..], Version(top.major, minor, patch))
      invariant renumbered == VersionMap(own[..i], news[..i])
    {
      assert own[i..][1..] == own[i + 1..] && news[i..][1..] == news[i + 1..] && news[i..][0] == news[i];
      if own[i].patch == 0 {
        minor, patch := minor + 1, 0;
      } else {
        patch := patch + 1;
      }
      assert own[..i + 1][..i] == own[..i] && news[..i + 1][..i] == news[..i];
      renumbered := renumbered[own[i] := Version(top.major, minor, patch)];
    }
    assert own[..|own|] == own && news[..|own|] == news;
  }

  method PlanVersions(base: seq<Entry>, cur: seq<Entry>, ancestor: seq<Entry>)
    returns (r: Result<map<Version, Version>, VersionError>)
    ensures r == VersionPlan(base, cur, ancestor)
  {
    if exists e :: e in base + cur && EntryVersion(e).None? {
      return Err(NoVersionLine);
    }
    var missing := Filter(base, (e: Entry) => Missing(cur, ancestor, e));
    if |missing| > 0 {
      return Err(BaseMissing(|missing|));
    }
    var own := OwnVersions(base, cur);
    if !Distinct(own) {
      return Err(SameVersionTwice);
    }
    var renumbered := NumberVersions(Sort(own, AtMost), TopVersion(Map(base, VersionOf)));
    r := Ok(renumbered);
  }

  // ---------------------------------------------------------------------------------------------
  // The active file in `planRenumber`

  /** The entry with its version line rewritten, when the plan moves that version. */
  function SetVersion(versions: map<Version, Version>, e: Entry): Entry {
    var k := VersionLine(e);
    if k == |e| || VersionOf(e) !in versions then e
    else e[k := VERSION_FIELD + VersionText(versions[VersionOf(e)]) + "',"]
  }

  /** Entries the base holds as they are stay; every other entry follows the plan. */
  function Renumber(base: seq<Entry>, versions: map<Version, Version>, e: Entry): Entry {
    if e in base then e else SetVersion(versions, e)
  }

  predicate NewestFirst(a: Entry, b: Entry) { AtMost(VersionOf(b), VersionOf(a)) }

  function RenumberActive(base: seq<Entry>, cur: seq<Entry>, versions: map<Version, Version>): seq<Entry> {
    Sort(Map(cur, (e: Entry) => Renumber(base, versions, e)), NewestFirst)
  }
}
