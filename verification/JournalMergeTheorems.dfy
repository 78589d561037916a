/**
 * The merge pipeline end to end: `unionJournal`, then the renumbering, then the planner of the application that
 * runs the merged journal on a database of the base.
 */
module JournalMergeTheorems {
  import opened Decimals
  import opened JournalMerge
  import opened Seqs
  import opened Sorting
  import P = MigrationPlan
  import T = MigrationPlanTheorems

  /** `readMigrationJournal`: the entries with the hash of each file, `''` past the last file. */
  function Read(es: seq<Entry>, files: seq<P.Hash>): (r: seq<P.JournalEntry>)
    ensures |r| == |es|
  {
    seq(|es|, i requires 0 <= i < |es| =>
      P.JournalEntry(es[i].idx, es[i].tag, es[i].when, if i < |files| then files[i] else ""))
  }

  predicate Valid(es: seq<Entry>) { P.ValidJournal(Read(es, [])) }

  /** The working tree holds every base entry, the first one of its tag being the base's own. */
  predicate KeepsBase(base: seq<Entry>, cur: seq<Entry>) {
    forall e :: e in base ==> HasTag(cur, e.tag) && FirstWithTag(cur, e.tag) == e
  }

  // ---------------------------------------------------------------------------------------------
  // Tags

  /** A new tag carries its number exactly while the number has four digits. */
  lemma {:induction false} NewTagNumber(idx: nat, tag: string)
    ensures P.TagNumber(NewTag(idx, tag)) == if idx < 10_000 then Some(idx) else None
  {
    var d := Decimal(idx);
    var p := Pad4(d);
    var t := NewTag(idx, tag);
    DecimalLengthStep(idx, 4, 10_000);
    Pad4Digits(d);
    ValueOfDecimal(idx);
    if idx < 10_000 {
      assert t[..4] == p;
    } else {
      assert IsDigit(t[4]) by {
        assert t[4] == d[4];
      }
    }
  }

  /** Stripping a new tag gives back the name, so moving a tag again only changes its number. */
  lemma {:induction false} StripNewTag(idx: nat, tag: string)
    ensures StripNumber(NewTag(idx, tag)) == StripNumber(tag)
  {
    var p := Pad4(Decimal(idx));
    var t := NewTag(idx, tag);
    Pad4Digits(Decimal(idx));
    forall k | 0 <= k < |p| ensures IsDigit(t[k]) {
      assert t[k] == p[k];
    }
    RunIs(t, IsDigit, 0, |p|);
    assert t[|p| + 1..] == StripNumber(tag);
  }

  // ---------------------------------------------------------------------------------------------
  // The base side

  lemma {:induction false} BaseEntry(base: seq<Entry>, i: nat)
    requires Valid(base) && i < |base|
    ensures base[i].idx == i && P.TagNumber(base[i].tag) == Some(i)
    ensures i > 0 ==> base[i - 1].when < base[i].when
  {
    assert P.ValidEntry(Read(base, []), i);
  }

  lemma {:induction false} BaseTagsDiffer(base: seq<Entry>, i: nat, j: nat)
    requires Valid(base) && i < |base| && j < |base| && base[i].tag == base[j].tag
    ensures i == j
  {
    BaseEntry(base, i);
    BaseEntry(base, j);
  }

  lemma {:induction false} FirstIs(es: seq<Entry>, k: nat)
    requires k < |es| && forall i :: 0 <= i < k ==> es[i].tag != es[k].tag
    ensures HasTag(es, es[k].tag) && FirstWithTag(es, es[k].tag) == es[k]
  {
    if k > 0 {
      FirstIs(es[1..], k - 1);
    }
  }

  /** The union of the two sides holds the base's entries as the base has them. */
  lemma {:induction false} UnionKeepsBase(ours: seq<Entry>, base: seq<Entry>)
    requires Valid(base)
    ensures KeepsBase(base, UnionJournal(ours, base))
    ensures NotIn(base, UnionJournal(ours, base)) == NotIn(base, ours)
  {
    var cur := UnionJournal(ours, base);
    forall e | e in base ensures HasTag(cur, e.tag) && FirstWithTag(cur, e.tag) == e {
      var k :| 0 <= k < |base| && base[k] == e;
      forall i | 0 <= i < k ensures cur[i].tag != cur[k].tag {
        if base[i].tag == base[k].tag {
          BaseTagsDiffer(base, i, k);
        }
      }
      FirstIs(cur, k);
    }
    var own := (e: Entry) => !HasTag(base, e.tag);
    FilterAppend(base, NotIn(base, ours), own);
    FilterNone(base, own);
    FilterAll(NotIn(base, ours), own);
  }

  /** What the renumbering makes of a tree that keeps a valid base: the base, then the branch's entries, moved. */
  lemma {:induction false} RenumberShape(base: seq<Entry>, cur: seq<Entry>)
    requires Valid(base) && KeepsBase(base, cur)
    ensures Holds(base, cur) && Copies(base, cur) == base && MaxIdx(base, -1) == |base| - 1
    ensures base != [] ==> MaxWhen(base, 0) >= base[|base| - 1].when
    ensures Renumber(base, cur).Ok?
    ensures Renumber(base, cur).value.entries == base + Moved(Own(base, cur), |base| - 1, MaxWhen(base, 0))
    ensures var moved := Moved(Own(base, cur), |base| - 1, MaxWhen(base, 0));
            |moved| == |Own(base, cur)| && Renumber(base, cur).value.tags == TagMap(Own(base, cur), moved)
  {
    BaseMaxima(base);
    MovedShape(Own(base, cur), |base| - 1, MaxWhen(base, 0));
    KeptCopies(base, cur);
    hide Moved, MaxIdx, MaxWhen, Valid, Own, KeepsBase, Copies, Holds, TagMap;
  }

  lemma {:induction false} KeptCopies(base: seq<Entry>, cur: seq<Entry>)
    requires KeepsBase(base, cur)
    ensures Holds(base, cur) && Copies(base, cur) == base
  {
    assert Holds(base, cur);
    var copies := Copies(base, cur);
    assert forall i :: 0 <= i < |base| ==> base[i] in base;
    assert copies == base;
  }

  lemma {:induction false} BaseMaxima(base: seq<Entry>)
    requires Valid(base)
    ensures MaxIdx(base, -1) == |base| - 1
    ensures base != [] ==> MaxWhen(base, 0) >= base[|base| - 1].when
  {
    hide Valid;
    forall i | 0 <= i < |base| ensures base[i].idx == i {
      BaseEntry(base, i);
    }
    assert base != [] ==> base[|base| - 1] in base;
  }

  // ---------------------------------------------------------------------------------------------
  // The theorems

  /** The journal the pipeline writes. */
  function Merged(base: seq<Entry>, own: seq<Entry>): (r: seq<Entry>)
    ensures |r| == |base| + |own|
  {
    MovedShape(own, |base| - 1, MaxWhen(base, 0));
    base + Moved(own, |base| - 1, MaxWhen(base, 0))
  }

  lemma {:induction false} MergedEntry(base: seq<Entry>, own: seq<Entry>, i: nat)
    requires Valid(base) && i < |base| + |own|
    ensures var es := Merged(base, own);
            && es[i].idx == i
            && (i > 0 ==> es[i - 1].when < es[i].when)
            && (i < |base| ==> es[i] == base[i] && P.TagNumber(es[i].tag) == Some(i))
            && (i >= |base| ==> es[i].tag == NewTag(i, own[i - |base|].tag) && es[i].when > MaxWhen(base, 0))
  {
    hide NewTag, P.TagNumber;
    MovedShape(own, |base| - 1, MaxWhen(base, 0));
    if i < |base| {
      BaseEntry(base, i);
    } else {
      MovedIsLater(own, |base| - 1, MaxWhen(base, 0), i - |base|);
      assert MovedAt(own, Moved(own, |base| - 1, MaxWhen(base, 0)), |base| - 1, MaxWhen(base, 0), i - |base|);
      if 0 < i == |base| {
        assert base[i - 1] in base;
      }
    }
  }

  lemma {:induction false} MergedEntryValidIff(base: seq<Entry>, own: seq<Entry>, files: seq<P.Hash>, i: nat)
    requires Valid(base) && i < |base| + |own|
    ensures P.ValidEntry(Read(Merged(base, own), files), i) <==> i < |base| || i < 10_000
  {
    hide Merged, NewTag, P.TagNumber;
    MergedEntry(base, own, i);
    if i >= |base| {
      NewTagNumber(i, own[i - |base|].tag);
    }
  }

  /** The merged journal passes the planner's check exactly when it has at most 10,000 entries. */
  lemma {:induction false} MergedJournalValidIff(base: seq<Entry>, cur: seq<Entry>, files: seq<P.Hash>)
    requires Valid(base) && KeepsBase(base, cur)
    ensures Renumber(base, cur).Ok?
    ensures P.ValidJournal(Read(Renumber(base, cur).value.entries, files))
       <==> |base| + |NotIn(base, cur)| <= 10_000
  {
    RenumberShape(base, cur);
    ValidBaseIsShort(base);
    var own := Own(base, cur);
    assert Renumber(base, cur).value.entries == Merged(base, own);
    hide Renumber, Valid, KeepsBase, Merged, P.ValidEntry, NotIn;
    var js := Read(Merged(base, own), files);
    forall i | 0 <= i < |js| ensures P.ValidEntry(js, i) <==> i < |base| || i < 10_000 {
      MergedEntryValidIff(base, own, files, i);
    }
    assert |js| > 10_000 ==> !P.ValidEntry(js, |js| - 1);
  }

  lemma {:induction false} ValidBaseIsShort(base: seq<Entry>)
    requires Valid(base)
    ensures |base| <= 10_000
  {
    if |base| > 10_000 {
      BaseEntry(base, 10_000);
      FourDigits(base[10_000].tag);
      assert false;
    }
  }

  lemma {:induction false} FourDigits(tag: string)
    ensures P.TagNumber(tag).Some? ==> P.TagNumber(tag).value < 10_000
  {
    if P.TagNumber(tag).Some? {
      var s := tag[..4];
      assert s[..3][..2][..1][..0] == [];
      assert ValueOf(s[..3][..2][..1]) <= 9;
      assert ValueOf(s[..3][..2]) <= 99;
      assert ValueOf(s[..3]) <= 999;
    }
  }

  /**
   * A database that ran exactly the base accepts the merged journal and has exactly the branch's own migrations
   * pending, in the order of their indexes. `rows` may carry any hashes; with a squashed history the base carries it
   * and the first row is the baseline's.
   */
  lemma {:induction false} MergedDatabase(base: seq<Entry>, cur: seq<Entry>, files: seq<P.Hash>, rows: seq<P.Row>,
                       previous: P.Amendments, squashed: Option<P.History>)
    requires Valid(base) && KeepsBase(base, cur) && |base| + |NotIn(base, cur)| <= 10_000
    requires |rows| == |base| && forall i :: 0 <= i < |base| ==> rows[i].createdAt == base[i].when
    requires squashed.Some? ==>
               && T.CarriesHistory(Read(base, files), squashed.value)
               && (|| rows[0].hash == Read(base, files)[0].hash
                   || rows[0].hash !in P.FoldedAt(squashed.value.migrations, base[0].when).hashes)
    ensures Renumber(base, cur).Ok?
    ensures var es := Renumber(base, cur).value.entries;
            var plan := P.Plan(Read(es, files), rows, previous, squashed);
            && plan.errors == []
            && |plan.pending| == |Own(base, cur)|
            && forall i :: 0 <= i < |plan.pending| ==> plan.pending[i] == NewTag(|base| + i, Own(base, cur)[i].tag)
  {
    RenumberShape(base, cur);
    hide Valid, Moved, P.Plan, KeepsBase;
    MergedRuns(base, Own(base, cur), files, rows, previous, squashed);
  }

  lemma {:induction false} MergedRuns(base: seq<Entry>, own: seq<Entry>, files: seq<P.Hash>, rows: seq<P.Row>,
                                      previous: P.Amendments, squashed: Option<P.History>)
    requires Valid(base) && |base| + |own| <= 10_000
    requires |rows| == |base| && forall i :: 0 <= i < |base| ==> rows[i].createdAt == base[i].when
    requires squashed.Some? ==>
               && T.CarriesHistory(Read(base, files), squashed.value)
               && (|| rows[0].hash == Read(base, files)[0].hash
                   || rows[0].hash !in P.FoldedAt(squashed.value.migrations, base[0].when).hashes)
    ensures var plan := P.Plan(Read(Merged(base, own), files), rows, previous, squashed);
            && plan.errors == []
            && |plan.pending| == |own|
            && forall i :: 0 <= i < |own| ==> plan.pending[i] == NewTag(|base| + i, own[i].tag)
  {
    hide *;
    var js := Read(Merged(base, own), files);
    MergedIsValid(base, own, files);
    MergedReads(base, own, files);
    if squashed.Some? {
      MergedCarries(base, own, files, squashed.value);
    }
    T.PrefixNeverRefused(js, rows, previous, squashed);
    LastTags(js, |base|);
  }

  lemma {:induction false} MergedIsValid(base: seq<Entry>, own: seq<Entry>, files: seq<P.Hash>)
    requires Valid(base) && |base| + |own| <= 10_000
    ensures P.ValidJournal(Read(Merged(base, own), files)) && |Read(Merged(base, own), files)| == |base| + |own|
  {
    hide Merged, Valid, P.ValidEntry;
    var js := Read(Merged(base, own), files);
    forall i | 0 <= i < |js| ensures P.ValidEntry(js, i) {
      MergedEntryValidIff(base, own, files, i);
    }
  }

  lemma {:induction false} LastTags(js: seq<P.JournalEntry>, k: nat)
    requires k <= |js|
    ensures |Map(js[k..], P.TagOf)| == |js| - k
    ensures forall i :: 0 <= i < |js| - k ==> Map(js[k..], P.TagOf)[i] == js[k + i].tag
  {
  }

  lemma {:induction false} MergedReads(base: seq<Entry>, own: seq<Entry>, files: seq<P.Hash>)
    requires Valid(base)
    ensures var js := Read(Merged(base, own), files);
            && (forall i :: 0 <= i < |base| ==> js[i].when == base[i].when)
            && (forall i :: 0 <= i < |own| ==> js[|base| + i].tag == NewTag(|base| + i, own[i].tag))
  {
    hide Valid, Merged, NewTag;
    var js := Read(Merged(base, own), files);
    forall i | 0 <= i < |base| ensures js[i].when == base[i].when {
      MergedEntry(base, own, i);
    }
    forall i | 0 <= i < |own| ensures js[|base| + i].tag == NewTag(|base| + i, own[i].tag) {
      MergedEntry(base, own, |base| + i);
    }
  }

  lemma {:induction false} MergedCarries(base: seq<Entry>, own: seq<Entry>, files: seq<P.Hash>, h: P.History)
    requires Valid(base) && T.CarriesHistory(Read(base, files), h)
    ensures T.CarriesHistory(Read(Merged(base, own), files), h)
    ensures base != [] && Read(Merged(base, own), files)[0] == Read(base, files)[0]
  {
    hide Merged, Valid;
    var js := Read(Merged(base, own), files);
    assert base[0] in base;
    MergedEntry(base, own, 0);
    forall i | 1 <= i < |js| ensures !P.IsFolded(h, js[i].when) {
      MergedEntry(base, own, i);
      if i < |base| {
        assert js[i] == Read(base, files)[i];
      }
    }
  }

  lemma {:induction false} MovedIsLater(own: seq<Entry>, lastIdx: int, lastWhen: int, i: nat)
    requires lastIdx >= -1 && i < |own|
    ensures |Moved(own, lastIdx, lastWhen)| == |own| && Moved(own, lastIdx, lastWhen)[i].when > lastWhen
    decreases i
  {
    MovedShape(own, lastIdx, lastWhen);
    assert MovedAt(own, Moved(own, lastIdx, lastWhen), lastIdx, lastWhen, i);
    if i > 0 {
      MovedIsLater(own, lastIdx, lastWhen, i - 1);
    }
  }

  /** Renumbering the renumbered tree changes no tag and no entry. */
  lemma {:induction false} RenumberIsIdempotent(base: seq<Entry>, cur: seq<Entry>)
    requires Valid(base) && KeepsBase(base, cur)
    ensures Renumber(base, cur).Ok?
    ensures var es := Renumber(base, cur).value.entries; Renumber(base, es) == Ok(Renumbered(map[], es))
  {
    RenumberShape(base, cur);
    var own := Own(base, cur);
    var floor := MaxWhen(base, 0);
    var moved := Moved(own, |base| - 1, floor);
    var es := base + moved;
    MovedKeepsBase(base, own);
    RenumberShape(base, es);
    hide Renumber, Moved, Valid, KeepsBase, Copies, Holds, MaxIdx, MaxWhen, TagMap, Settled;
    MovedOnce(own, |base| - 1, floor);
    assert Own(base, es) == moved by {
      hide MovedAt, Settled;
      MovedSorted(moved, |base| - 1, floor);
      SortedIsFixed(moved, ByIdx);
    }
    MovedIsFixed(moved, |base| - 1, floor);
    NoTagMoves(moved);
  }

  /** Entry `i` already has the number, the tag and a time the renumbering would give it. */
  predicate Settled(es: seq<Entry>, lastIdx: int, lastWhen: int, i: nat)
    requires lastIdx >= -1 && i < |es|
  {
    && es[i].idx == lastIdx + 1 + i
    && NewTag(lastIdx + 1 + i, es[i].tag) == es[i].tag
    && es[i].when > (if i == 0 then lastWhen else es[i - 1].when)
  }

  lemma {:induction false} MovedSorted(es: seq<Entry>, lastIdx: int, lastWhen: int)
    requires lastIdx >= -1 && forall i :: 0 <= i < |es| ==> Settled(es, lastIdx, lastWhen, i)
    ensures Sorted(es, ByIdx)
  {
    hide NewTag;
    forall i, j | 0 <= i < j < |es| ensures ByIdx(es[i], es[j]) {
      assert Settled(es, lastIdx, lastWhen, i) && Settled(es, lastIdx, lastWhen, j);
    }
  }

  lemma {:induction false} MovedOnce(own: seq<Entry>, lastIdx: int, lastWhen: int)
    requires lastIdx >= -1
    ensures var m := Moved(own, lastIdx, lastWhen);
            forall i :: 0 <= i < |m| ==> Settled(m, lastIdx, lastWhen, i)
  {
    hide Moved;
    MovedShape(own, lastIdx, lastWhen);
    var m := Moved(own, lastIdx, lastWhen);
    forall i | 0 <= i < |m| ensures Settled(m, lastIdx, lastWhen, i) {
      assert MovedAt(own, m, lastIdx, lastWhen, i);
      StripNewTag(lastIdx + 1 + i, own[i].tag);
      assert NewTag(lastIdx + 1 + i, m[i].tag) == m[i].tag;
    }
  }

  lemma {:induction false} MovedKeepsBase(base: seq<Entry>, own: seq<Entry>)
    requires Valid(base)
    ensures var moved := Moved(own, |base| - 1, MaxWhen(base, 0));
            KeepsBase(base, base + moved) && NotIn(base, base + moved) == moved
  {
    var moved := Moved(own, |base| - 1, MaxWhen(base, 0));
    MovedIsNew(base, own);
    FilterAll(moved, (e: Entry) => !HasTag(base, e.tag));
    hide Moved, Valid, MaxWhen, HasTag, FirstWithTag;
    assert UnionJournal(moved, base) == base + moved;
    UnionKeepsBase(moved, base);
  }

  lemma {:induction false} MovedIsNew(base: seq<Entry>, own: seq<Entry>)
    requires Valid(base)
    ensures forall e :: e in Moved(own, |base| - 1, MaxWhen(base, 0)) ==> !HasTag(base, e.tag)
  {
    hide Moved, NewTag, Valid, MaxWhen, P.TagNumber;
    var moved := Moved(own, |base| - 1, MaxWhen(base, 0));
    MovedShape(own, |base| - 1, MaxWhen(base, 0));
    forall i | 0 <= i < |moved| ensures !HasTag(base, moved[i].tag) {
      NewTagNumber(|base| + i, own[i].tag);
      assert MovedAt(own, moved, |base| - 1, MaxWhen(base, 0), i);
      forall e | e in base ensures e.tag != moved[i].tag {
        var k :| 0 <= k < |base| && base[k] == e;
        BaseEntry(base, k);
      }
    }
  }

  lemma {:induction false} MovedIsFixed(es: seq<Entry>, lastIdx: int, lastWhen: int)
    requires lastIdx >= -1
    requires forall i :: 0 <= i < |es| ==> Settled(es, lastIdx, lastWhen, i)
    ensures Moved(es, lastIdx, lastWhen) == es
  {
    hide NewTag;
    if es != [] {
      assert Settled(es, lastIdx, lastWhen, 0);
      var rest := es[1..];
      forall i {:trigger rest[i]} | 0 <= i < |rest| ensures Settled(rest, lastIdx + 1, es[0].when, i) {
        assert Settled(es, lastIdx, lastWhen, i + 1);
      }
      MovedIsFixed(rest, lastIdx + 1, es[0].when);
      assert es == [es[0]] + rest;
    }
  }

  lemma {:induction false} NoTagMoves(es: seq<Entry>)
    ensures TagMap(es, es) == map[]
  {
    if es != [] {
      NoTagMoves(es[..|es| - 1]);
    }
  }

  /** A branch whose journal is in order keeps that order. */
  lemma {:induction false} OwnKeepsBranchOrder(base: seq<Entry>, ours: seq<Entry>)
    requires Valid(base)
    requires forall i, j :: 0 <= i < j < |ours| ==> ours[i].idx <= ours[j].idx
    ensures Own(base, UnionJournal(ours, base)) == NotIn(base, ours)
  {
    UnionKeepsBase(ours, base);
    FilterOrdered(ours, (e: Entry) => !HasTag(base, e.tag));
    SortedIsFixed(NotIn(base, ours), ByIdx);
  }

  lemma {:induction false} FilterOrdered(es: seq<Entry>, p: Entry -> bool)
    requires forall i, j :: 0 <= i < j < |es| ==> es[i].idx <= es[j].idx
    ensures Sorted(Filter(es, p), ByIdx)
  {
    if es != [] {
      FilterOrdered(es[1..], p);
      forall e | e in Filter(es[1..], p) ensures es[0].idx <= e.idx {
        var k :| 0 <= k < |es[1..]| && es[1..][k] == e;
        assert e == es[k + 1];
      }
    }
  }

  /** One entry past the last four-digit number: the pipeline's own output is refused by the planner. */
  lemma {:induction false} TooManyMigrations(base: seq<Entry>, own: Entry, files: seq<P.Hash>)
    requires Valid(base) && |base| == 10_000 && !HasTag(base, own.tag)
    ensures Renumber(base, UnionJournal([own], base)).Ok?
    ensures !P.ValidJournal(Read(Renumber(base, UnionJournal([own], base)).value.entries, files))
  {
    UnionKeepsBase([own], base);
    MergedJournalValidIff(base, UnionJournal([own], base), files);
  }
}
