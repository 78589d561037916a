/** What renumbering keeps of a migration and what it writes anew (`planMigrations`, scripts/renumber/plan.ts). */
module MigrationNames {
  import opened Decimals
  import opened JournalMerge
  import opened Seqs
  import opened Sorting

  // ---------------------------------------------------------------------------------------------
  // Tags

  /** A tag with a number before its name. */
  predicate Numbered(tag: string, digits: string, name: string) {
    digits != "" && AllDigits(digits) && tag == digits + "_" + name
  }

  /** `idx` in at least four digits, and no zero too many. */
  predicate IsIndex(digits: string, idx: nat) {
    |digits| >= 4 && AllDigits(digits) && ValueOf(digits) == idx && (|digits| > 4 ==> digits[0] != '0')
  }

  /** The new tag is the index and the old name: what follows the number, or the whole tag when it has none. */
  ghost predicate NamedAnew(idx: nat, tag: string, next: string) {
    exists index ::
      && IsIndex(index, idx)
      && (forall digits, name :: Numbered(tag, digits, name) ==> next == index + "_" + name)
      && ((forall digits, name :: !Numbered(tag, digits, name)) ==> next == index + "_" + tag)
  }

  lemma {:induction false} DecimalIsShort(n: nat)
    ensures |Decimal(n)| > 1 ==> Decimal(n)[0] != '0'
    ensures n > 0 ==> Decimal(n)[0] != '0'
  {
    if n >= 10 {
      DecimalIsShort(n / 10);
      assert Decimal(n)[0] == Decimal(n / 10)[0];
    }
  }

  lemma {:induction false} IndexIs(idx: nat)
    ensures IsIndex(Pad4(Decimal(idx)), idx)
  {
    DecimalIsShort(idx);
    Pad4Digits(Decimal(idx));
    ValueOfDecimal(idx);
  }

  lemma {:induction false} NumberIs(tag: string, digits: string, name: string)
    requires Numbered(tag, digits, name)
    ensures StripNumber(tag) == name
  {
    assert forall k :: 0 <= k < |digits| ==> tag[k] == digits[k];
    RunIs(tag, IsDigit, 0, |digits|);
  }

  lemma {:induction false} NoNumber(tag: string)
    requires forall digits, name :: !Numbered(tag, digits, name)
    ensures StripNumber(tag) == tag
  {
    var n := Run(tag, IsDigit, 0);
    if 0 < n < |tag| && tag[n] == '_' {
      assert tag == tag[..n] + "_" + tag[n + 1..];
      assert Numbered(tag, tag[..n], tag[n + 1..]);
    }
  }

  lemma {:induction false} NewTagIs(idx: nat, tag: string)
    ensures NamedAnew(idx, tag, NewTag(idx, tag))
  {
    var index := Pad4(Decimal(idx));
    IndexIs(idx);
    forall digits, name | Numbered(tag, digits, name) ensures NewTag(idx, tag) == index + "_" + name {
      NumberIs(tag, digits, name);
    }
    if forall digits, name :: !Numbered(tag, digits, name) {
      NoNumber(tag);
    }
  }

  // ---------------------------------------------------------------------------------------------
  // Entries

  /** `out` is `e` behind an entry of time `before`: its time stays when it is later, otherwise it is 10,000 seconds later. */
  ghost predicate MovesTo(e: Entry, idx: nat, before: int, out: Entry) {
    && out == Entry(idx, e.format, if e.when > before then e.when else before + 10_000_000, out.tag, e.breakpoints)
    && NamedAnew(idx, e.tag, out.tag)
  }

  ghost predicate MoveAt(own: seq<Entry>, moved: seq<Entry>, first: nat, before: int, k: nat)
    requires k < |own| == |moved|
  {
    MovesTo(own[k], first + k, if k == 0 then before else moved[k - 1].when, moved[k])
  }

  ghost predicate AllMove(own: seq<Entry>, moved: seq<Entry>, first: nat, before: int) {
    |moved| == |own| && forall k :: 0 <= k < |own| ==> MoveAt(own, moved, first, before, k)
  }

  lemma {:induction false} MovedMove(own: seq<Entry>, first: nat, before: int)
    ensures AllMove(own, Moved(own, first - 1, before), first, before)
  {
    hide NewTag, NamedAnew, MovesTo;
    if own != [] {
      var when := NextWhen(own[0].when, before);
      var head := own[0].(idx := first, tag := NewTag(first, own[0].tag), when := when);
      MovedMove(own[1..], first + 1, when);
      HeadMoves(own[0], first, before, head);
      hide *;
      var rest := Moved(own[1..], first, when);
      MovedStep(own, first - 1, before);
      OneMoreMoves(own, head, rest, first, before);
    }
  }

  lemma {:induction false} MovedStep(own: seq<Entry>, lastIdx: int, before: int)
    requires lastIdx >= -1 && own != []
    ensures var when := NextWhen(own[0].when, before);
            Moved(own, lastIdx, before)
            == [own[0].(idx := lastIdx + 1, tag := NewTag(lastIdx + 1, own[0].tag), when := when)] + Moved(own[1..], lastIdx + 1, when)
  {
    hide NewTag, NextWhen;
  }

  lemma {:induction false} HeadMoves(e: Entry, idx: nat, before: int, out: Entry)
    requires out == e.(idx := idx, tag := NewTag(idx, e.tag), when := NextWhen(e.when, before))
    ensures MovesTo(e, idx, before, out)
  {
    NewTagIs(idx, e.tag);
    hide NewTag, NamedAnew;
  }

  lemma {:induction false} OneMoreMoves(own: seq<Entry>, head: Entry, rest: seq<Entry>, first: nat, before: int)
    requires own != [] && MovesTo(own[0], first, before, head) && AllMove(own[1..], rest, first + 1, head.when)
    ensures AllMove(own, [head] + rest, first, before)
  {
    hide MovesTo;
    var all, tail := [head] + rest, own[1..];
    forall k | 0 <= k < |own| ensures MoveAt(own, all, first, before, k) {
      if k > 0 {
        assert MoveAt(tail, rest, first + 1, head.when, k - 1);
      }
    }
  }

  // ---------------------------------------------------------------------------------------------
  // The map of the tags

  /** The last own migration of the tag that changes it. */
  predicate Renames(own: seq<Entry>, moved: seq<Entry>, tag: string, k: int)
    requires |own| == |moved|
  {
    && 0 <= k < |own| && own[k].tag == tag && moved[k].tag != tag
    && forall j :: k < j < |own| && own[j].tag == tag ==> moved[j].tag == tag
  }

  ghost predicate MapsTags(own: seq<Entry>, moved: seq<Entry>, tags: map<string, string>)
    requires |own| == |moved|
  {
    && (forall tag :: tag in tags ==> exists k :: Renames(own, moved, tag, k))
    && (forall tag, k :: Renames(own, moved, tag, k) ==> tag in tags && tags[tag] == moved[k].tag)
  }

  lemma {:induction false} RenamesBefore(own: seq<Entry>, moved: seq<Entry>, tag: string, k: int)
    requires |own| == |moved| && own != []
    ensures var n := |own| - 1;
            if tag == own[n].tag && moved[n].tag != tag then Renames(own, moved, tag, k) <==> k == n
            else Renames(own, moved, tag, k) <==> Renames(own[..n], moved[..n], tag, k)
  {
    var n := |own| - 1;
    assert forall j :: 0 <= j < n ==> own[..n][j] == own[j] && moved[..n][j] == moved[j];
  }

  lemma {:induction false} TagMapMaps(own: seq<Entry>, moved: seq<Entry>)
    requires |own| == |moved|
    ensures MapsTags(own, moved, TagMap(own, moved))
  {
    if own != [] {
      var n := |own| - 1;
      var a, b, tags := own[..n], moved[..n], TagMap(own, moved);
      TagMapMaps(a, b);
      TagMapNext(own, moved);
      hide TagMap;
      forall tag, k | Renames(own, moved, tag, k) ensures tag in tags && tags[tag] == moved[k].tag {
        RenamesBefore(own, moved, tag, k);
        assert k < n ==> b[k] == moved[k];
      }
      forall tag | tag in tags ensures exists k :: Renames(own, moved, tag, k) {
        if tag == own[n].tag && moved[n].tag != tag {
          RenamesBefore(own, moved, tag, n);
        } else {
          var k :| Renames(a, b, tag, k);
          RenamesBefore(own, moved, tag, k);
        }
      }
    }
  }

  lemma {:induction false} TagMapNext(own: seq<Entry>, moved: seq<Entry>)
    requires |own| == |moved| && own != []
    ensures var n := |own| - 1;
            var before := TagMap(own[..n], moved[..n]);
            TagMap(own, moved) == if own[n].tag == moved[n].tag then before else before[own[n].tag := moved[n].tag]
  {
  }

  // ---------------------------------------------------------------------------------------------
  // The theorem

  /** The copies of the base's entries, the own entries behind them under the next indexes, and the tags that changed. */
  ghost predicate NamesAnew(base: seq<Entry>, cur: seq<Entry>, own: seq<Entry>, r: Renumbered) {
    && |r.entries| == |base| + |own|
    && var copies, moved := r.entries[..|base|], r.entries[|base|..];
       && (forall i :: 0 <= i < |base| ==> copies[i] in cur && copies[i].tag == base[i].tag)
       && AllMove(own, moved, MaxIdx(copies, -1) + 1, MaxWhen(copies, 0))
       && MapsTags(own, moved, r.tags)
  }

  lemma {:induction false} NamesAre(base: seq<Entry>, cur: seq<Entry>, own: seq<Entry>, copies: seq<Entry>,
                                    moved: seq<Entry>, tags: map<string, string>)
    requires |copies| == |base| && |moved| == |own|
    requires forall i :: 0 <= i < |base| ==> copies[i] in cur && copies[i].tag == base[i].tag
    requires AllMove(own, moved, MaxIdx(copies, -1) + 1, MaxWhen(copies, 0)) && MapsTags(own, moved, tags)
    ensures NamesAnew(base, cur, own, Renumbered(tags, copies + moved))
  {
    hide AllMove, MapsTags, MaxIdx, MaxWhen;
    assert (copies + moved)[..|base|] == copies && (copies + moved)[|base|..] == moved;
  }

  /**
   * Renumbering keeps the tree's copies of the base's entries, and puts every own entry behind them under the next
   * index, with its name, its settings and its time, or a later one; the map has exactly the tags that changed.
   */
  lemma {:induction false} OwnAreNamedAnew(base: seq<Entry>, cur: seq<Entry>)
    requires Renumber(base, cur).Ok?
    ensures NamesAnew(base, cur, Own(base, cur), Renumber(base, cur).value)
  {
    hide *;
    HoldsBase(base, cur);
    var own, copies := Own(base, cur), Copies(base, cur);
    var moved := Moved(own, MaxIdx(copies, -1), MaxWhen(copies, 0));
    MovedShape(own, MaxIdx(copies, -1), MaxWhen(copies, 0));
    MovedMove(own, MaxIdx(copies, -1) + 1, MaxWhen(copies, 0));
    TagMapMaps(own, moved);
    CopiesAre(base, cur);
    RenumberIs(base, cur, own, copies, moved);
    NamesAre(base, cur, own, copies, moved, TagMap(own, moved));
  }

  lemma {:induction false} HoldsBase(base: seq<Entry>, cur: seq<Entry>)
    requires Renumber(base, cur).Ok?
    ensures Holds(base, cur)
  {
  }

  lemma {:induction false} CopiesAre(base: seq<Entry>, cur: seq<Entry>)
    requires Holds(base, cur)
    ensures |Copies(base, cur)| == |base|
    ensures forall i :: 0 <= i < |base| ==> Copies(base, cur)[i] in cur && Copies(base, cur)[i].tag == base[i].tag
  {
  }

  lemma {:induction false} RenumberIs(base: seq<Entry>, cur: seq<Entry>, own: seq<Entry>, copies: seq<Entry>, moved: seq<Entry>)
    requires Renumber(base, cur).Ok? && own == Own(base, cur) && copies == Copies(base, cur)
    requires moved == Moved(own, MaxIdx(copies, -1), MaxWhen(copies, 0))
    requires |own| == |moved|
    ensures Renumber(base, cur).value == Renumbered(TagMap(own, moved), copies + moved)
  {
    hide Moved, Own, TagMap, MaxIdx, MaxWhen, Copies;
  }
}
