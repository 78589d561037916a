/**
 * Merging two migration journals: `unionJournal` (scripts/renumber/conflicts.ts) keeps both sides, then
 * `planMigrations` (scripts/renumber/plan.ts) moves the branch's migrations after those of the base.
 */
module JournalMerge {
  import opened Decimals
  import opened Seqs
  import opened Sorting

  datatype Entry = Entry(idx: int, format: string, when: int, tag: string, breakpoints: bool)

  predicate HasTag(es: seq<Entry>, tag: string) {
    exists e :: e in es && e.tag == tag
  }

  /** The entries of `es` whose tag `base` does not hold. */
  function NotIn(base: seq<Entry>, es: seq<Entry>): seq<Entry> {
    Filter(es, (e: Entry) => !HasTag(base, e.tag))
  }

  /** `unionJournal`: the base's entries, then the branch's own. */
  function UnionJournal(ours: seq<Entry>, theirs: seq<Entry>): seq<Entry> {
    theirs + NotIn(theirs, ours)
  }

  function FirstWithTag(es: seq<Entry>, tag: string): (e: Entry)
    requires HasTag(es, tag)
    ensures e in es && e.tag == tag
  {
    if es[0].tag == tag then es[0]
    else
      assert forall e :: e in es && e.tag == tag ==> e in es[1..];
      FirstWithTag(es[1..], tag)
  }

  predicate ByIdx(a: Entry, b: Entry) { a.idx <= b.idx }

  /** The branch's own entries, by index. */
  function Own(base: seq<Entry>, cur: seq<Entry>): seq<Entry> { Sort(NotIn(base, cur), ByIdx) }

  predicate Holds(base: seq<Entry>, cur: seq<Entry>) { forall e :: e in base ==> HasTag(cur, e.tag) }

  /** The base's entries as the working tree has them. */
  function Copies(base: seq<Entry>, cur: seq<Entry>): (r: seq<Entry>)
    requires Holds(base, cur)
    ensures |r| == |base|
    ensures forall i :: 0 <= i < |base| ==> HasTag(cur, base[i].tag) && r[i] == FirstWithTag(cur, base[i].tag)
  {
    seq(|base|, i requires 0 <= i < |base| => assert base[i] in base; FirstWithTag(cur, base[i].tag))
  }

  /** `Math.max(floor, ...)` over the indexes. */
  function MaxIdx(es: seq<Entry>, floor: int): (m: int)
    ensures m >= floor && forall e :: e in es ==> e.idx <= m
    ensures m == floor || exists e :: e in es && e.idx == m
  {
    if es == [] then floor
    else
      var rest := MaxIdx(es[1..], floor);
      if es[0].idx > rest then es[0].idx else rest
  }

  function MaxWhen(es: seq<Entry>, floor: int): (m: int)
    ensures m >= floor && forall e :: e in es ==> e.when <= m
    ensures m == floor || exists e :: e in es && e.when == m
  {
    if es == [] then floor
    else
      var rest := MaxWhen(es[1..], floor);
      if es[0].when > rest then es[0].when else rest
  }

  /** `tag.replace(/^\d+_/, '')`. */
  function StripNumber(tag: string): string {
    var n := Run(tag, IsDigit, 0);
    if 0 < n < |tag| && tag[n] == '_' then tag[n + 1..] else tag
  }

  function NewTag(idx: nat, tag: string): string { Pad4(Decimal(idx)) + "_" + StripNumber(tag) }

  function NextWhen(when: int, last: int): int { if when > last then when else last + 10_000_000 }

  /** The branch's entries moved after index `lastIdx` and time `lastWhen`. */
  function Moved(own: seq<Entry>, lastIdx: int, lastWhen: int): seq<Entry>
    requires lastIdx >= -1
  {
    if own == [] then []
    else
      var when := NextWhen(own[0].when, lastWhen);
      [own[0].(idx := lastIdx + 1, tag := NewTag(lastIdx + 1, own[0].tag), when := when)]
      + Moved(own[1..], lastIdx + 1, when)
  }

  /** Old tag to new tag, for every tag that changed; the last of two equal tags wins. */
  function TagMap(own: seq<Entry>, moved: seq<Entry>): map<string, string>
    requires |own| == |moved|
  {
    if own == [] then map[]
    else
      var k := |own| - 1;
      var before := TagMap(own[..k], moved[..k]);
      if own[k].tag == moved[k].tag then before else before[own[k].tag := moved[k].tag]
  }

  datatype Renumbered = Renumbered(tags: map<string, string>, entries: seq<Entry>)

  /** `Err` holds the tag of a base migration the working tree lost. */
  function Renumber(base: seq<Entry>, cur: seq<Entry>): Result<Renumbered, string> {
    if !Holds(base, cur) then Err(Filter(base, (e: Entry) => !HasTag(cur, e.tag))[0].tag)
    else
      var copies := Copies(base, cur);
      var own := Own(base, cur);
      var moved := Moved(own, MaxIdx(copies, -1), MaxWhen(copies, 0));
      MovedShape(own, MaxIdx(copies, -1), MaxWhen(copies, 0));
      Ok(Renumbered(TagMap(own, moved), copies + moved))
  }

  /** The source's loop over the branch's own entries. */
  method MoveAll(own: seq<Entry>, copies: seq<Entry>, firstIdx: int, firstWhen: int)
    returns (tags: map<string, string>, entries: seq<Entry>)
    requires firstIdx >= -1 && |Moved(own, firstIdx, firstWhen)| == |own|
    ensures tags == TagMap(own, Moved(own, firstIdx, firstWhen))
    ensures entries == copies + Moved(own, firstIdx, firstWhen)
  {
    hide NewTag, NextWhen;
    ghost var moved := Moved(own, firstIdx, firstWhen);
    tags, entries := map[], copies;
    var lastIdx, lastWhen := firstIdx, firstWhen;
    assert own[0..] == own && moved[0..] == moved;
    for i := 0 to |own|
      invariant lastIdx >= -1
      invariant moved[i..] == Moved(own[i..], lastIdx, lastWhen)
      invariant entries == copies + moved[..i]
      invariant tags == TagMap(own[..i], moved[..i])
    {
      var e := own[i];
      assert own[i..][1..] == own[i + 1..] && moved[i..][1..] == moved[i + 1..] && moved[i..][0] == moved[i];
      lastIdx := lastIdx + 1;
      var tag := NewTag(lastIdx, e.tag);
      var when := NextWhen(e.when, lastWhen);
      lastWhen := when;
      var next := e.(idx := lastIdx, tag := tag, when := when);
      assert moved[i] == next;
      assert own[..i + 1][..i] == own[..i] && moved[..i + 1][..i] == moved[..i];
      if tag != e.tag {
        tags := tags[e.tag := tag];
      }
      entries := entries + [next];
    }
    assert own[..|own|] == own && moved[..|own|] == moved;
  }

  method PlanMigrations(base: seq<Entry>, cur: seq<Entry>) returns (r: Result<Renumbered, string>)
    ensures r == Renumber(base, cur)
  {
    var lost := Filter(base, (e: Entry) => !HasTag(cur, e.tag));
    if |lost| > 0 {
      assert lost[0] in lost;
      return Err(lost[0].tag);
    }
    assert Holds(base, cur) by {
      assert forall e :: e in base && !HasTag(cur, e.tag) ==> e in lost;
    }
    var own := Own(base, cur);
    var copies := Copies(base, cur);
    var lastWhen := MaxWhen(copies, 0);
    var lastIdx := MaxIdx(copies, -1);
    MovedShape(own, lastIdx, lastWhen);
    var tags, entries := MoveAll(own, copies, lastIdx, lastWhen);
    r := Ok(Renumbered(tags, entries));
  }

  /** Entry `i` of the moved list: only number, tag and time differ from the branch's own, and the time never goes back. */
  predicate MovedAt(own: seq<Entry>, m: seq<Entry>, lastIdx: int, lastWhen: int, i: nat)
    requires lastIdx >= -1 && i < |m| == |own|
  {
    && m[i] == own[i].(idx := lastIdx + 1 + i, tag := NewTag(lastIdx + 1 + i, own[i].tag), when := m[i].when)
    && m[i].when >= own[i].when
    && m[i].when > (if i == 0 then lastWhen else m[i - 1].when)
  }

  /** Numbers follow on without a gap and times increase strictly. */
  lemma {:induction false} MovedShape(own: seq<Entry>, lastIdx: int, lastWhen: int)
    requires lastIdx >= -1
    ensures var m := Moved(own, lastIdx, lastWhen);
            |m| == |own| && forall i :: 0 <= i < |own| ==> MovedAt(own, m, lastIdx, lastWhen, i)
  {
    if own != [] {
      var when := NextWhen(own[0].when, lastWhen);
      MovedShape(own[1..], lastIdx + 1, when);
      var m := Moved(own, lastIdx, lastWhen);
      var rest := m[1..];
      assert rest == Moved(own[1..], lastIdx + 1, when);
      hide Moved, NewTag;
      forall i | 1 <= i < |own| ensures MovedAt(own, m, lastIdx, lastWhen, i) {
        assert MovedAt(own[1..], rest, lastIdx + 1, when, i - 1);
      }
    }
  }
}
