/** What `unionChangelogMd` does to the version sections: the three-way merge by heading, written where the base has it. */
module MdMergeTheorems {
  import opened ChangelogMd
  import opened MdLayout
  import opened MdMerge
  import opened MdReading
  import opened Merging
  import opened Seqs
  import opened Texts
  import opened Unreleased

  // ---------------------------------------------------------------------------------------------
  // The three-way merge of the sections

  /** The merge of the sections of one heading. */
  function MergeAt(a: seq<Text>, o: seq<Text>, t: seq<Text>, g: Line): Option<Option<Text>> {
    Merge3(ByHead(a, g), ByHead(o, g), ByHead(t, g))
  }

  function EditOf(texts: map<Line, Text>, x: Text): Text { if HeadOf(x) in texts then texts[HeadOf(x)] else x }

  predicate Stays(o: seq<Text>, t: seq<Text>, a: seq<Text>, texts: map<Line, Text>, x: Text) {
    !(x in a && Dropped(o, t, texts, x))
  }

  function Edited(t: seq<Text>, texts: map<Line, Text>): seq<Text> { Map(t, (x: Text) => EditOf(texts, x)) }

  /** The base's sections after the branch's edits and deletions. */
  function Survivors(o: seq<Text>, t: seq<Text>, a: seq<Text>, texts: map<Line, Text>): seq<Text> {
    Filter(Edited(t, texts), (x: Text) => Stays(o, t, a, texts, x))
  }

  /** The merged sections, newest first as in the file: the branch's new ones, then the base's. */
  function MergedTexts(o: seq<Text>, t: seq<Text>, a: seq<Text>, texts: map<Line, Text>): seq<Text> {
    Extra(ChangedOf(o, t, a), texts) + Survivors(o, t, a, texts)
  }

  /** What the edits are: the changed sections whose heading the base has. */
  ghost predicate AreEdits(e: Edits, changed: seq<Text>, t: seq<Text>) {
    && Distinct(e.order) && IsListed(e)
    && (forall g :: g in e.texts ==> e.texts[g] in changed && HeadOf(e.texts[g]) == g && HasHead(t, g))
    && (forall b :: b in changed && HasHead(t, HeadOf(b)) ==> HeadOf(b) in e.texts)
  }

  lemma {:induction false} EditsAre(changed: seq<Text>, t: seq<Text>, a: seq<Text>)
    ensures EditsOf(changed, t, a).None? <==> exists b :: b in changed && EditedTwice(t, a, b)
    ensures EditsOf(changed, t, a).Some? ==> AreEdits(EditsOf(changed, t, a).value, changed, t)
  {
    hide EditedTwice, HeadOf, HasHead, ByHead;
    if changed != [] {
      var front, b := changed[..|changed| - 1], changed[|changed| - 1];
      EditsAre(front, t, a);
      assert changed == front + [b];
      if EditsOf(changed, t, a).Some? {
        var e := EditsOf(front, t, a).value;
        SetEditIs(e, front, t, b);
      }
    }
  }

  lemma {:induction false} SetEditIs(e: Edits, front: seq<Text>, t: seq<Text>, b: Text)
    requires AreEdits(e, front, t)
    ensures AreEdits(SetEdit(e, t, b), front + [b], t)
  {
    hide HeadOf, HasHead, ByHead;
    var r := SetEdit(e, t, b);
    var changed := front + [b];
    assert b in changed && forall x :: x in changed <==> x in front || x == b;
  }

  lemma {:induction false} HeadFinds(ts: seq<Text>, x: Text)
    requires UniqueHeads(ts)
    ensures x in ts <==> ByHead(ts, HeadOf(x)) == Some(x)
  {
    hide ByHead, HeadOf;
    if x in ts {
      var f := ByHead(ts, HeadOf(x)).value;
      var i :| 0 <= i < |ts| && ts[i] == x;
      var j :| 0 <= j < |ts| && ts[j] == f;
      var heads := Map(ts, HeadOf);
      assert heads[i] == heads[j];
    }
  }

  /** A heading is edited when the branch changed a section of the base. */
  lemma {:induction false} EditedIff(o: seq<Text>, t: seq<Text>, a: seq<Text>, e: Edits, g: Line)
    requires UniqueHeads(o) && UniqueHeads(t) && UniqueHeads(a) && AreEdits(e, ChangedOf(o, t, a), t)
    ensures var x := ByHead(o, g);
            && (g in e.texts <==> x.Some? && x != ByHead(t, g) && x != ByHead(a, g) && ByHead(t, g).Some?)
            && (g in e.texts ==> Some(e.texts[g]) == x)
  {
    hide ByHead, HeadOf, UniqueHeads;
    if g in e.texts {
      HeadFinds(o, e.texts[g]);
      HeadFinds(t, e.texts[g]);
      HeadFinds(a, e.texts[g]);
    }
    if ByHead(o, g).Some? {
      var b := ByHead(o, g).value;
      HeadFinds(t, b);
      HeadFinds(a, b);
    }
  }

  /** The merge refuses exactly when some section was edited on both sides. */
  lemma {:induction false} RefusedIff(o: seq<Text>, t: seq<Text>, a: seq<Text>)
    requires UniqueHeads(o) && UniqueHeads(t) && UniqueHeads(a)
    ensures EditsOf(ChangedOf(o, t, a), t, a).None? <==> exists g :: MergeAt(a, o, t, g).None?
  {
    hide ByHead, HeadOf, UniqueHeads;
    var changed := ChangedOf(o, t, a);
    EditsAre(changed, t, a);
    if b: Text :| b in changed && EditedTwice(t, a, b) {
      HeadFinds(o, b);
      HeadFinds(t, b);
      HeadFinds(a, b);
      assert MergeAt(a, o, t, HeadOf(b)).None?;
    }
    if g: Line :| MergeAt(a, o, t, g).None? {
      var b := ByHead(o, g).value;
      HeadFinds(t, b);
      HeadFinds(a, b);
      assert b in changed && EditedTwice(t, a, b);
    }
  }

  lemma {:induction false} SurvivorsAre(o: seq<Text>, t: seq<Text>, a: seq<Text>, e: Edits, x: Text)
    requires UniqueHeads(t) && forall g :: g in e.texts ==> HeadOf(e.texts[g]) == g
    ensures x in Survivors(o, t, a, e.texts)
       <==> && ByHead(t, HeadOf(x)).Some? && x == EditOf(e.texts, ByHead(t, HeadOf(x)).value)
            && Stays(o, t, a, e.texts, x)
  {
    hide ByHead, HeadOf, UniqueHeads, Stays;
    var edited := Edited(t, e.texts);
    if x in edited {
      var i :| 0 <= i < |t| && edited[i] == x;
      HeadFinds(t, t[i]);
      assert HeadOf(t[i]) == HeadOf(x);
    }
    if ByHead(t, HeadOf(x)).Some? && x == EditOf(e.texts, ByHead(t, HeadOf(x)).value) {
      var s := ByHead(t, HeadOf(x)).value;
      var i :| 0 <= i < |t| && t[i] == s;
      assert edited[i] == x;
    }
  }

  /** The merged sections are those of the three-way merge, heading by heading. */
  lemma {:induction false} MergedIs(o: seq<Text>, t: seq<Text>, a: seq<Text>, e: Edits, x: Text)
    requires UniqueHeads(o) && UniqueHeads(t) && UniqueHeads(a)
    requires EditsOf(ChangedOf(o, t, a), t, a) == Some(e)
    ensures x in MergedTexts(o, t, a, e.texts) <==> MergeAt(a, o, t, HeadOf(x)) == Some(Some(x))
  {
    var g := HeadOf(x);
    EditsAre(ChangedOf(o, t, a), t, a);
    RefusedIff(o, t, a);
    assert MergeAt(a, o, t, g).Some?;
    EditedIff(o, t, a, e, g);
    SurvivorsAre(o, t, a, e, x);
    HeadFinds(o, x);
    HeadFinds(t, x);
    HeadFinds(a, x);
    hide ByHead, HeadOf, UniqueHeads, Survivors, AreEdits, EditsOf, HasHead;
  }

  lemma {:induction false} TailHeads(ts: seq<Text>)
    requires ts != [] && UniqueHeads(ts)
    ensures UniqueHeads(ts[1..]) && UniqueHeads([ts[0]]) && forall x :: x in ts[1..] ==> HeadOf(ts[0]) != HeadOf(x)
  {
    hide HeadOf;
    var rest := ts[1..];
    forall i, j | 0 <= i < j < |rest| ensures Map(rest, HeadOf)[i] != Map(rest, HeadOf)[j] {
      HeadsApart(ts, i + 1, j + 1);
    }
    forall x | x in rest ensures HeadOf(ts[0]) != HeadOf(x) {
      var i :| 0 <= i < |rest| && rest[i] == x;
      HeadsApart(ts, 0, i + 1);
    }
  }

  lemma {:induction false} FilterHeads(ts: seq<Text>, p: Text -> bool)
    requires UniqueHeads(ts)
    ensures UniqueHeads(Filter(ts, p))
  {
    hide HeadOf, UniqueHeads;
    if ts != [] {
      TailHeads(ts);
      FilterHeads(ts[1..], p);
      ConcatHeads([ts[0]], Filter(ts[1..], p));
    } else {
      assert Filter(ts, p) == ts;
    }
  }

  lemma {:induction false} SurvivorHeads(o: seq<Text>, t: seq<Text>, a: seq<Text>, e: Edits)
    requires UniqueHeads(t) && forall g :: g in e.texts ==> HeadOf(e.texts[g]) == g
    ensures UniqueHeads(Survivors(o, t, a, e.texts))
  {
    assert Map(Edited(t, e.texts), HeadOf) == Map(t, HeadOf);
    hide HeadOf, Stays, Edited;
    FilterHeads(Edited(t, e.texts), (x: Text) => Stays(o, t, a, e.texts, x));
  }

  lemma {:induction false} ExtraHeads(o: seq<Text>, t: seq<Text>, a: seq<Text>, e: Edits)
    requires UniqueHeads(o)
    ensures UniqueHeads(Extra(ChangedOf(o, t, a), e.texts))
  {
    hide HeadOf, UniqueHeads;
    FilterHeads(o, (b: Text) => b !in t && b !in a);
    FilterHeads(ChangedOf(o, t, a), (b: Text) => HeadOf(b) !in e.texts);
  }

  lemma {:induction false} ConcatHeads(a: seq<Text>, b: seq<Text>)
    requires UniqueHeads(a) && UniqueHeads(b) && forall x, y :: x in a && y in b ==> HeadOf(x) != HeadOf(y)
    ensures UniqueHeads(a + b)
  {
    hide HeadOf;
    MapConcat(a, b, HeadOf);
    var f, g := Map(a, HeadOf), Map(b, HeadOf);
    DistinctConcat(f, g);
    forall h | h in g ensures h !in f {
      var i :| 0 <= i < |g| && g[i] == h;
      assert h == HeadOf(b[i]) && b[i] in b;
    }
  }

  lemma {:induction false} MergedHeads(o: seq<Text>, t: seq<Text>, a: seq<Text>, e: Edits)
    requires UniqueHeads(o) && UniqueHeads(t) && AreEdits(e, ChangedOf(o, t, a), t)
    ensures UniqueHeads(MergedTexts(o, t, a, e.texts))
  {
    hide HeadOf, UniqueHeads, Stays, ByHead, Survivors, EditOf;
    SurvivorHeads(o, t, a, e);
    ExtraHeads(o, t, a, e);
    forall x, y | x in Extra(ChangedOf(o, t, a), e.texts) && y in Survivors(o, t, a, e.texts)
      ensures HeadOf(x) != HeadOf(y)
    {
      SurvivorsAre(o, t, a, e, y);
      assert HasHead(t, HeadOf(y));
    }
    ConcatHeads(Extra(ChangedOf(o, t, a), e.texts), Survivors(o, t, a, e.texts));
  }

  // ---------------------------------------------------------------------------------------------
  // The merge of the files

  /** The branch's edits of sections the base has. */
  function EditsIn(o: seq<Text>, t: seq<Text>, a: seq<Text>): seq<Text> {
    Filter(ChangedOf(o, t, a), (b: Text) => HasHead(t, HeadOf(b)))
  }

  /** The branch deleted a section that the base left as the ancestor had it. */
  predicate IsDeleted(o: seq<Text>, t: seq<Text>, a: seq<Text>, x: Text) {
    x in a && x in t && x !in o && !HasHead(ChangedOf(o, t, a), HeadOf(x))
  }

  /** The deleted sections, in the order the ancestor lists them. */
  function Deleted(o: seq<Text>, t: seq<Text>, a: seq<Text>): seq<Text> { Filter(a, (x: Text) => IsDeleted(o, t, a, x)) }

  /** The base's sections that are searched for: the edited and the deleted ones. */
  function Touched(o: seq<Text>, t: seq<Text>, a: seq<Text>): seq<Text> {
    Filter(t, (x: Text) => HasHead(ChangedOf(o, t, a), HeadOf(x)) || IsDeleted(o, t, a, x))
  }

  /**
   * The files the merge is made for: one section per heading on each side, a line under the base's header, and no heading
   * of an edited or deleted section quoted in another line of a section, or behind the sections.
   */
  ghost predicate Mergeable(ours: seq<Line>, theirs: seq<Line>, base: seq<Line>, series: nat) {
    && ActiveSections(ours, series).Some? && ActiveSections(theirs, series).Some?
    && HeaderLine(theirs, series) + 1 < |theirs|
    && var o, t, a := TextsIn(ours, series), TextsIn(theirs, series), TextsIn(base, series);
       && UniqueHeads(o) && UniqueHeads(t) && UniqueHeads(a)
       && Plain(EditsIn(o, t, a), Touched(o, t, a)) && Plain(t, Touched(o, t, a))
       && QuietBack(theirs[ActiveSections(theirs, series).value.end..], Touched(o, t, a))
  }

  /** Each deleted section has an empty line after it, and a line after that, when its turn comes. */
  predicate Droppable(theirs: seq<Line>, s: Sections, gone: seq<Text>)
    requires s.at < s.end <= |theirs|
  {
    var blanks := BlanksOf(theirs[s.at..s.end]);
    |blanks| == |s.texts| ==> CanDrop(s.texts, blanks, theirs[s.end..], gone)
  }

  lemma {:induction false} UniqueIsDistinct(ts: seq<Text>)
    requires UniqueHeads(ts)
    ensures Distinct(ts)
  {
    forall i, j | 0 <= i < j < |ts| ensures ts[i] != ts[j] {
      HeadsApart(ts, i, j);
    }
  }

  /** The collected edits can be put, and put together they give the edited sections. */
  lemma {:induction false} EditsCanPut(o: seq<Text>, t: seq<Text>, a: seq<Text>, e: Edits)
    requires AreEdits(e, ChangedOf(o, t, a), t) && AreTexts(o) && UniqueHeads(t)
    ensures CanPut(e.order, e.texts, t, t) && EditedBy(t, e.order, e.texts) == Edited(t, e.texts)
  {
    hide IsText, HeadOf, ByHead, HasHead, UniqueHeads;
    forall g | g in e.order ensures IsText(e.texts[g]) && TextFor(t, g) in t && e.texts[g] != TextFor(t, g) {
      assert e.texts[g] in o;
    }
  }

  /** The edited sections are touched, and their edits are among those asked to be plain. */
  lemma {:induction false} EditsArePlain(o: seq<Text>, t: seq<Text>, a: seq<Text>, e: Edits)
    requires AreEdits(e, ChangedOf(o, t, a), t) && Plain(EditsIn(o, t, a), Touched(o, t, a))
    ensures forall g :: g in e.order ==> TextFor(t, g) in Touched(o, t, a) && Plain([e.texts[g]], Touched(o, t, a))
  {
    hide HeadOf, Contains, ByHead, ChangedOf, IsDeleted;
    forall g | g in e.order ensures TextFor(t, g) in Touched(o, t, a) && Plain([e.texts[g]], Touched(o, t, a)) {
      assert e.texts[g] in EditsIn(o, t, a);
      assert forall x :: x in [e.texts[g]] ==> x in EditsIn(o, t, a);
    }
  }

  /** The edited sections are still sections, and show no searched heading but their own. */
  lemma {:induction false} EditedKeeps(o: seq<Text>, t: seq<Text>, a: seq<Text>, e: Edits)
    requires AreEdits(e, ChangedOf(o, t, a), t) && UniqueHeads(t)
    requires AreTexts(o) && AreTexts(t) && NoRules(o) && NoRules(t)
    requires Plain(EditsIn(o, t, a), Touched(o, t, a)) && Plain(t, Touched(o, t, a))
    ensures var r := Edited(t, e.texts);
            AreTexts(r) && NoRules(r) && Plain(r, Touched(o, t, a)) && UniqueHeads(r)
  {
    hide *;
    EditedHeads(t, e, ChangedOf(o, t, a));
    var r, edits := Edited(t, e.texts), EditsIn(o, t, a);
    EditedFrom(o, t, a, e);
    KeepsTexts(r, t, edits, o);
    PlainPart(r, t, edits, Touched(o, t, a));
  }

  lemma {:induction false} EditedHeads(t: seq<Text>, e: Edits, changed: seq<Text>)
    requires AreEdits(e, changed, t) && UniqueHeads(t)
    ensures UniqueHeads(Edited(t, e.texts))
  {
    hide HasHead;
    assert Map(Edited(t, e.texts), HeadOf) == Map(t, HeadOf);
  }

  lemma {:induction false} EditedFrom(o: seq<Text>, t: seq<Text>, a: seq<Text>, e: Edits)
    requires AreEdits(e, ChangedOf(o, t, a), t)
    ensures forall x :: x in Edited(t, e.texts) ==> x in t || x in EditsIn(o, t, a)
    ensures forall x :: x in EditsIn(o, t, a) ==> x in o
  {
    hide HeadOf, HasHead;
    var r := Edited(t, e.texts);
    forall x | x in r ensures x in t || x in EditsIn(o, t, a) {
      var i :| 0 <= i < |r| && r[i] == x;
      assert r[i] == EditOf(e.texts, t[i]);
    }
  }

  lemma {:induction false} KeepsTexts(r: seq<Text>, t: seq<Text>, edits: seq<Text>, o: seq<Text>)
    requires AreTexts(o) && AreTexts(t) && NoRules(o) && NoRules(t)
    requires (forall x :: x in r ==> x in t || x in edits) && forall x :: x in edits ==> x in o
    ensures AreTexts(r) && NoRules(r)
  {
    hide IsText, IsRule;
  }

  lemma {:induction false} PlainPart(r: seq<Text>, t: seq<Text>, edits: seq<Text>, heads: seq<Text>)
    requires Plain(t, heads) && Plain(edits, heads) && forall x :: x in r ==> x in t || x in edits
    ensures Plain(r, heads)
  {
    hide Contains, HeadOf;
  }

  /** What the code drops are the deleted sections; they are not edited. */
  lemma {:induction false} GoneIsDeleted(o: seq<Text>, t: seq<Text>, a: seq<Text>, e: Edits)
    requires AreEdits(e, ChangedOf(o, t, a), t)
    ensures GoneOf(a, o, t, e.texts) == Deleted(o, t, a)
    ensures forall x :: x in Deleted(o, t, a) ==> x in t && x in Edited(t, e.texts) && x in Touched(o, t, a)
    ensures forall x, i :: x in Deleted(o, t, a) && 0 <= i < |t| ==> (Edited(t, e.texts)[i] == x <==> t[i] == x)
  {
    hide HeadOf, ByHead, ChangedOf;
    FilterAgree(a, (x: Text) => Dropped(o, t, e.texts, x), (x: Text) => IsDeleted(o, t, a, x)) by {
      forall x | x in a ensures Dropped(o, t, e.texts, x) == IsDeleted(o, t, a, x) {
        SameDrop(o, t, a, e, x);
      }
    }
    forall x, i | x in Deleted(o, t, a) && 0 <= i < |t| ensures Edited(t, e.texts)[i] == x <==> t[i] == x {
      DeletedIsUnedited(o, t, a, e, x, i);
    }
    forall x | x in Deleted(o, t, a) ensures x in t && x in Edited(t, e.texts) && x in Touched(o, t, a) {
      var i :| 0 <= i < |t| && t[i] == x;
      assert Edited(t, e.texts)[i] == x;
    }
  }

  lemma {:induction false} SameDrop(o: seq<Text>, t: seq<Text>, a: seq<Text>, e: Edits, x: Text)
    requires AreEdits(e, ChangedOf(o, t, a), t) && x in a
    ensures Dropped(o, t, e.texts, x) <==> IsDeleted(o, t, a, x)
  {
    hide HeadOf, ChangedOf;
    var g := HeadOf(x);
    if x in t {
      assert HasHead(t, g);
      if b: Text :| b in ChangedOf(o, t, a) && HeadOf(b) == g {
        assert g in e.texts;
      }
    }
  }

  lemma {:induction false} DeletedIsUnedited(o: seq<Text>, t: seq<Text>, a: seq<Text>, e: Edits, x: Text, i: nat)
    requires AreEdits(e, ChangedOf(o, t, a), t) && IsDeleted(o, t, a, x) && i < |t|
    ensures Edited(t, e.texts)[i] == x <==> t[i] == x
  {
    hide HeadOf, HasHead;
    var g := HeadOf(t[i]);
    if g in e.texts {
      assert e.texts[g] in ChangedOf(o, t, a) && e.texts[g] in o;
      assert t[i] == x ==> HasHead(ChangedOf(o, t, a), HeadOf(x)) by {
        HeadIn(ChangedOf(o, t, a), e.texts[g]);
      }
    }
  }

  lemma {:induction false} HeadIn(ts: seq<Text>, x: Text)
    requires x in ts
    ensures HasHead(ts, HeadOf(x))
  {
    hide HeadOf;
  }

  lemma {:induction false} LeftIsSurvivors(o: seq<Text>, t: seq<Text>, a: seq<Text>, e: Edits)
    ensures Left(Edited(t, e.texts), GoneOf(a, o, t, e.texts)) == Survivors(o, t, a, e.texts)
  {
    hide Dropped, EditOf;
    var gone := GoneOf(a, o, t, e.texts);
    FilterAgree(Edited(t, e.texts), (x: Text) => x !in gone, (x: Text) => Stays(o, t, a, e.texts, x));
  }

  /** Only where the deleted sections are decides whether they can be dropped. */
  lemma {:induction false} DropAlike(x: seq<Text>, y: seq<Text>, blanks: seq<nat>, back: seq<Line>, gone: seq<Text>)
    requires |x| == |y| == |blanks|
    requires forall b, i :: b in gone && 0 <= i < |x| ==> (x[i] == b <==> y[i] == b)
    ensures CanDrop(x, blanks, back, gone) <==> CanDrop(y, blanks, back, gone)
    decreases |gone|
  {
    if gone != [] {
      var b, rest := gone[0], gone[1..];
      assert b in gone && forall z :: z in rest ==> z in gone;
      var j := Position(x, b);
      PositionAlike(x, y, b);
      if j < |x| && HasGap(blanks, back, j) {
        var p, q := Without(x, j), Without(y, j);
        assert forall i :: 0 <= i < |p| ==> p[i] == x[if i < j then i else i + 1] && q[i] == y[if i < j then i else i + 1];
        DropAlike(p, q, BlanksWithout(blanks, j), back, rest);
      }
    }
  }

  lemma {:induction false} PositionAlike(x: seq<Text>, y: seq<Text>, b: Text)
    requires |x| == |y| && forall i :: 0 <= i < |x| ==> (x[i] == b <==> y[i] == b)
    ensures Position(x, b) == Position(y, b)
  {
    FindFromIs(y, (z: Text) => z == b, 0, Position(x, b));
  }

  /** In the base's file every edit lands on its own section exactly when every search finds the section itself. */
  lemma {:induction false} EditsLandInFileIff(o: seq<Text>, theirs: seq<Line>, a: seq<Text>, series: nat, e: Edits)
    requires ActiveSections(theirs, series).Some? && AreTexts(o)
    requires var t := TextsIn(theirs, series);
             t != [] && UniqueHeads(t) && EditsOf(ChangedOf(o, t, a), t, a) == Some(e)
    ensures var s := ActiveSections(theirs, series).value;
            var front, blanks, back := theirs[..s.at], BlanksOf(theirs[s.at..s.end]), theirs[s.end..];
            && |blanks| == |s.texts| && Laid(front, 0, s.texts, blanks, back) == theirs
            && (AllLand(front, 0, s.texts, blanks, back, e.order, e.texts, s.texts)
                <==> AllHome(front, 0, s.texts, blanks, back, e.order, e.texts, s.texts))
  {
    var s := ActiveSections(theirs, series).value;
    SectionTexts(theirs, series);
    FileIsLaid(theirs, series);
    TextsAre(theirs, series);
    EditsAre(ChangedOf(o, s.texts, a), s.texts, a);
    EditsCanPut(o, s.texts, a, e);
    hide *;
    EditsLandIff(theirs[..s.at], 0, s.texts, BlanksOf(theirs[s.at..s.end]), theirs[s.end..], e.order, e.texts, s.texts);
  }

  /**
   * Without a conflict the merge writes the merged sections where the base has its own, and nothing else; it is refused
   * exactly when a deleted section cannot be dropped.
   */
  lemma {:induction false} SectionsAreWritten(ours: seq<Line>, theirs: seq<Line>, base: seq<Line>, series: nat, e: Edits)
    returns (lead: nat, blanks: seq<nat>)
    requires Mergeable(ours, theirs, base, series) && TextsIn(theirs, series) != []
    requires var o, t, a := TextsIn(ours, series), TextsIn(theirs, series), TextsIn(base, series);
             EditsOf(ChangedOf(o, t, a), t, a) == Some(e)
    ensures var s := ActiveSections(theirs, series).value;
            var o, a := TextsIn(ours, series), TextsIn(base, series);
            var m, r := MergedTexts(o, s.texts, a, e.texts), UnionSections(ours, theirs, base, series);
            && AreTexts(m) && NoRules(m)
            && (r.Some? <==> Droppable(theirs, s, Deleted(o, s.texts, a)))
            && (r.Some? ==> |m| == |blanks| && r == Some(Laid(theirs[..s.at], lead, m, blanks, theirs[s.end..])))
  {
    var s := ActiveSections(theirs, series).value;
    var o, t, a := TextsIn(ours, series), s.texts, TextsIn(base, series);
    var front, back, slots := theirs[..s.at], theirs[s.end..], BlanksOf(theirs[s.at..s.end]);
    var heads := Touched(o, t, a);
    SectionTexts(ours, series);
    SectionTexts(theirs, series);
    FileIsLaid(theirs, series);
    EditsAre(ChangedOf(o, t, a), t, a);
    EditsCanPut(o, t, a, e);
    EditsArePlain(o, t, a, e);
    EditedKeeps(o, t, a, e);
    GoneIsDeleted(o, t, a, e);
    LeftIsSurvivors(o, t, a, e);
    UniqueIsDistinct(a);
    hide *;
    PlainIsHome(front, 0, t, slots, back, e.order, e.texts, t, heads);
    EditsLaid(front, 0, t, slots, back, e.order, e.texts, t);
    var edited, gone := Edited(t, e.texts), Deleted(o, t, a);
    PutIsLonger(theirs, s, e);
    DropAlike(edited, t, slots, back, gone);
    DroppableIs(theirs, s, gone);
    var m, ns := DropsLaidIff(front, 0, edited, slots, back, a, o, t, e.texts, heads);
    var kept := Survivors(o, t, a, e.texts);
    var extra := Extra(ChangedOf(o, t, a), e.texts);
    MergedAreTexts(o, t, a, e, extra, kept);
    UnionParts(ours, theirs, base, series);
    WrittenParts(theirs, s, o, a, e, Laid(front, 0, edited, slots, back));
    if CanDrop(edited, slots, back, gone) {
      lead, blanks := ExtraLaid(front, m, kept, ns, back, extra);
    } else {
      lead, blanks := 0, [];
    }
  }

  lemma {:induction false} PutIsLonger(theirs: seq<Line>, s: Sections, e: Edits)
    requires s.at < |theirs| && (forall g :: g in e.order ==> g in e.texts)
    requires PutEdits(theirs, s.at, e.order, e.texts, s.texts).Some?
    ensures s.at < |PutEdits(theirs, s.at, e.order, e.texts, s.texts).value|
  {
  }

  lemma {:induction false} DroppableIs(theirs: seq<Line>, s: Sections, gone: seq<Text>)
    requires s.at < s.end <= |theirs| && |BlanksOf(theirs[s.at..s.end])| == |s.texts|
    ensures Droppable(theirs, s, gone) <==> CanDrop(s.texts, BlanksOf(theirs[s.at..s.end]), theirs[s.end..], gone)
  {
    hide BlanksOf, CanDrop;
  }

  lemma {:induction false} UnionParts(ours: seq<Line>, theirs: seq<Line>, base: seq<Line>, series: nat)
    requires ActiveSections(ours, series).Some? && ActiveSections(theirs, series).Some?
    ensures UnionSections(ours, theirs, base, series)
         == WriteSections(theirs, ActiveSections(theirs, series).value, TextsIn(ours, series), TextsIn(base, series))
  {
    hide ActiveSections, WriteSections;
  }

  lemma {:induction false} WrittenParts(theirs: seq<Line>, s: Sections, o: seq<Text>, a: seq<Text>, e: Edits,
                                        edited: seq<Line>)
    requires s.at < |theirs| && s.at < |edited| && EditsOf(ChangedOf(o, s.texts, a), s.texts, a) == Some(e)
    requires PutEdits(theirs, s.at, e.order, e.texts, s.texts) == Some(edited)
    ensures var left := DropAll(edited, s.at, a, o, s.texts, e.texts);
            WriteSections(theirs, s, o, a)
            == if left.None? then None
               else Some(left.value[..s.at] + Spread(Extra(ChangedOf(o, s.texts, a), e.texts)) + left.value[s.at..])
    ensures MergedTexts(o, s.texts, a, e.texts) == Extra(ChangedOf(o, s.texts, a), e.texts) + Survivors(o, s.texts, a, e.texts)
  {
    hide PutEdits, DropAll, EditsOf, ChangedOf, Extra, Spread, Survivors, ByHead;
  }

  lemma {:induction false} MergedAreTexts(o: seq<Text>, t: seq<Text>, a: seq<Text>, e: Edits, extra: seq<Text>,
                                          kept: seq<Text>)
    requires AreTexts(o) && NoRules(o) && AreTexts(Edited(t, e.texts)) && NoRules(Edited(t, e.texts))
    requires extra == Extra(ChangedOf(o, t, a), e.texts) && kept == Survivors(o, t, a, e.texts)
    ensures AreTexts(extra + kept) && NoRules(extra + kept)
  {
    hide IsText, IsRule, Edited, HeadOf, Stays;
    forall x | x in extra + kept ensures x in o || x in Edited(t, e.texts) {
    }
  }

  /** Every heading has the section of the three-way merge, once. */
  ghost predicate IsMerge(m: seq<Text>, o: seq<Text>, t: seq<Text>, a: seq<Text>) {
    UniqueHeads(m) && forall g :: MergeAt(a, o, t, g) == Some(ByHead(m, g))
  }

  lemma {:induction false} MergedIsMerge(o: seq<Text>, t: seq<Text>, a: seq<Text>, e: Edits)
    requires UniqueHeads(o) && UniqueHeads(t) && UniqueHeads(a)
    requires EditsOf(ChangedOf(o, t, a), t, a) == Some(e)
    ensures IsMerge(MergedTexts(o, t, a, e.texts), o, t, a)
  {
    var m := MergedTexts(o, t, a, e.texts);
    EditsAre(ChangedOf(o, t, a), t, a);
    MergedHeads(o, t, a, e);
    RefusedIff(o, t, a);
    hide *;
    MergeParts(MergedTexts(o, t, a, e.texts), o, t, a) by {
      forall g ensures MergeAt(a, o, t, g) == Some(ByHead(m, g)) {
        MergedHeading(o, t, a, e, g);
      }
    }
  }

  lemma {:induction false} MergeParts(m: seq<Text>, o: seq<Text>, t: seq<Text>, a: seq<Text>)
    requires UniqueHeads(m) && forall g :: MergeAt(a, o, t, g) == Some(ByHead(m, g))
    ensures IsMerge(m, o, t, a)
  {
  }

  lemma {:induction false} MergedHeading(o: seq<Text>, t: seq<Text>, a: seq<Text>, e: Edits, g: Line)
    requires UniqueHeads(o) && UniqueHeads(t) && UniqueHeads(a) && UniqueHeads(MergedTexts(o, t, a, e.texts))
    requires EditsOf(ChangedOf(o, t, a), t, a) == Some(e) && MergeAt(a, o, t, g).Some?
    ensures MergeAt(a, o, t, g) == Some(ByHead(MergedTexts(o, t, a, e.texts), g))
  {
    hide ByHead, HeadOf, UniqueHeads, MergedTexts, EditsOf, ChangedOf, HasHead;
    var m, x := MergedTexts(o, t, a, e.texts), MergeAt(a, o, t, g).value;
    HeadFound(a, g);
    HeadFound(o, g);
    HeadFound(t, g);
    HeadFound(m, g);
    if x.Some? {
      assert HeadOf(x.value) == g;
      hide MergeAt;
      MergedIs(o, t, a, e, x.value);
      HeadFinds(m, x.value);
    } else if ByHead(m, g).Some? {
      hide MergeAt;
      MergedIs(o, t, a, e, ByHead(m, g).value);
    }
  }

  lemma {:induction false} HeadFound(ts: seq<Text>, g: Line)
    ensures ByHead(ts, g).Some? ==> ByHead(ts, g).value in ts && HeadOf(ByHead(ts, g).value) == g
  {
    hide HeadOf;
  }

  /** Only the sections change: what comes before and after them is the base's. */
  ghost predicate KeepsRest(out: seq<Line>, theirs: seq<Line>, s: Sections)
    requires s.at < s.end <= |theirs|
  {
    var n := |theirs| - s.end;
    && s.at + n <= |out|
    && out[..s.at] == theirs[..s.at] && out[|out| - n..] == theirs[s.end..]
  }

  lemma {:induction false} LaidKeepsRest(theirs: seq<Line>, s: Sections, lead: nat, m: seq<Text>, blanks: seq<nat>)
    requires s.at < s.end <= |theirs| && |m| == |blanks|
    ensures KeepsRest(Laid(theirs[..s.at], lead, m, blanks, theirs[s.end..]), theirs, s)
  {
    hide Assemble, Blanks;
  }

  /** Some section is left after the merge. */
  ghost predicate SomeLeft(o: seq<Text>, t: seq<Text>, a: seq<Text>) { exists g :: MergeAt(a, o, t, g) != Some(None) }

  /**
   * The new sections stand apart from what the base has there. It matters for a base without sections only: the new ones
   * are written directly under the header, and what stands between the header and the rule then follows them.
   */
  predicate HasRoom(theirs: seq<Line>, s: Sections, o: seq<Text>, a: seq<Text>)
    requires s.at <= |theirs|
  {
    s.texts != [] || ChangedOf(o, s.texts, a) == [] || OnlyEmpty(theirs, s.at)
  }

  /** A line lies between the header and the sections, or a section is left. */
  ghost predicate ReadsApart(theirs: seq<Line>, series: nat, s: Sections, o: seq<Text>, a: seq<Text>) {
    s.texts == [] || HeaderLine(theirs, series) + 1 < s.at || SomeLeft(o, s.texts, a)
  }

  /** What the file the sections are merged into holds. */
  ghost predicate IsMergedFile(out: seq<Line>, theirs: seq<Line>, series: nat, s: Sections, o: seq<Text>, a: seq<Text>)
    requires s.at < s.end <= |theirs|
  {
    && KeepsRest(out, theirs, s)
    && (ReadsApart(theirs, series, s, o, a) ==>
          && ActiveSections(out, series).Some? && HeaderLine(out, series) == HeaderLine(theirs, series)
          && (TextsIn(out, series) != [] ==> ActiveSections(out, series).value.at >= s.at)
          && (IsMerge(TextsIn(out, series), o, s.texts, a) <==> HasRoom(theirs, s, o, a)))
  }

  /**
   * The merge of the sections is refused exactly when both sides edited one, or a deleted one has no empty line to go with
   * it. Otherwise the file reads back with the section of the three-way merge under every heading, and the rest of the
   * base's file untouched, exactly when the base has a section, or the branch has no new one, or nothing stands in the way.
   */
  lemma {:induction false} SectionsAreMergedIff(ours: seq<Line>, theirs: seq<Line>, base: seq<Line>, series: nat)
    requires Mergeable(ours, theirs, base, series)
    ensures var o, t, a := TextsIn(ours, series), TextsIn(theirs, series), TextsIn(base, series);
            var s, r := ActiveSections(theirs, series).value, UnionSections(ours, theirs, base, series);
            && (r.None? <==> (exists g :: MergeAt(a, o, t, g).None?) || !Droppable(theirs, s, Deleted(o, t, a)))
            && (r.Some? ==> IsMergedFile(r.value, theirs, series, s, o, a))
  {
    var o, t, a := TextsIn(ours, series), TextsIn(theirs, series), TextsIn(base, series);
    hide *;
    MergeableParts(ours, theirs, base, series);
    RefusedIff(o, t, a);
    var e := EditsOf(ChangedOf(o, t, a), t, a);
    if e.None? {
      UnionRefused(ours, theirs, base, series);
    } else if t == [] {
      FirstAreMerged(ours, theirs, base, series, e.value);
    } else {
      OthersAreMerged(ours, theirs, base, series, e.value);
    }
  }

  lemma {:induction false} MergeableParts(ours: seq<Line>, theirs: seq<Line>, base: seq<Line>, series: nat)
    requires Mergeable(ours, theirs, base, series)
    ensures ActiveSections(ours, series).Some? && ActiveSections(theirs, series).Some?
    ensures HeaderLine(theirs, series) + 1 < |theirs|
    ensures TextsIn(theirs, series) == ActiveSections(theirs, series).value.texts
    ensures UniqueHeads(TextsIn(ours, series)) && UniqueHeads(TextsIn(theirs, series)) && UniqueHeads(TextsIn(base, series))
  {
    hide ActiveSections, HeaderLine, UniqueHeads, Plain, QuietBack, EditsIn, Touched;
  }

  lemma {:induction false} UnionRefused(ours: seq<Line>, theirs: seq<Line>, base: seq<Line>, series: nat)
    requires ActiveSections(ours, series).Some? && ActiveSections(theirs, series).Some?
    requires var o, t, a := TextsIn(ours, series), TextsIn(theirs, series), TextsIn(base, series);
             EditsOf(ChangedOf(o, t, a), t, a).None?
    ensures UnionSections(ours, theirs, base, series).None?
  {
    hide ActiveSections, EditsOf, ChangedOf;
  }

  lemma {:induction false} OthersAreMerged(ours: seq<Line>, theirs: seq<Line>, base: seq<Line>, series: nat, e: Edits)
    requires Mergeable(ours, theirs, base, series) && TextsIn(theirs, series) != []
    requires var o, t, a := TextsIn(ours, series), TextsIn(theirs, series), TextsIn(base, series);
             EditsOf(ChangedOf(o, t, a), t, a) == Some(e)
    ensures var o, t, a := TextsIn(ours, series), TextsIn(theirs, series), TextsIn(base, series);
            var s, r := ActiveSections(theirs, series).value, UnionSections(ours, theirs, base, series);
            && (r.Some? <==> Droppable(theirs, s, Deleted(o, t, a)))
            && (r.Some? ==> IsMergedFile(r.value, theirs, series, s, o, a))
  {
    hide *;
    MergeableParts(ours, theirs, base, series);
    var o, t, a := TextsIn(ours, series), TextsIn(theirs, series), TextsIn(base, series);
    var s := ActiveSections(theirs, series).value;
    var m := MergedTexts(o, t, a, e.texts);
    MergedIsMerge(o, t, a, e);
    var lead, blanks := SectionsAreWritten(ours, theirs, base, series, e);
    FileStarts(theirs, series);
    SectionsInside(theirs, series, s);
    AtHeader(theirs, series, s);
    if UnionSections(ours, theirs, base, series).Some? {
      LaidKeepsRest(theirs, s, lead, m, blanks);
      LeftIff(m, o, t, a);
      if HeaderLine(theirs, series) + 2 <= s.at + lead + |m| {
        LaidIsRead(theirs, series, s, lead, m, blanks);
        TextsAre(Laid(theirs[..s.at], lead, m, blanks, theirs[s.end..]), series);
      }
      MergedFileIs(UnionSections(ours, theirs, base, series).value, theirs, series, s, o, a);
    }
  }

  lemma {:induction false} AtHeader(theirs: seq<Line>, series: nat, s: Sections)
    requires StartsAt(theirs, series, s)
    ensures HeaderLine(theirs, series) + 1 <= s.at
  {
    hide HeaderLine;
  }

  /** A merged list without sections means that nothing is left. */
  lemma {:induction false} LeftIff(m: seq<Text>, o: seq<Text>, t: seq<Text>, a: seq<Text>)
    requires IsMerge(m, o, t, a)
    ensures SomeLeft(o, t, a) <==> m != []
  {
    hide MergeAt, ByHead, UniqueHeads;
    if m != [] {
      var g := HeadOf(m[0]);
      HeadIn(m, m[0]);
      assert ByHead(m, g).Some? by {
        HeadHas(m, g);
      }
      assert MergeAt(a, o, t, g) == Some(ByHead(m, g));
    } else if g: Line :| MergeAt(a, o, t, g) != Some(None) {
      HeadHas(m, g);
    }
  }

  lemma {:induction false} HeadHas(ts: seq<Text>, g: Line)
    ensures ByHead(ts, g).Some? <==> HasHead(ts, g)
    ensures ts == [] ==> ByHead(ts, g).None?
  {
  }

  lemma {:induction false} MergedFileIs(out: seq<Line>, theirs: seq<Line>, series: nat, s: Sections, o: seq<Text>, a: seq<Text>)
    requires s.at < s.end <= |theirs| && s.texts != [] && KeepsRest(out, theirs, s)
    requires HeaderLine(theirs, series) + 1 < s.at || SomeLeft(o, s.texts, a) ==>
               && ActiveSections(out, series).Some? && HeaderLine(out, series) == HeaderLine(theirs, series)
               && (TextsIn(out, series) != [] ==> ActiveSections(out, series).value.at >= s.at)
               && IsMerge(TextsIn(out, series), o, s.texts, a)
    ensures IsMergedFile(out, theirs, series, s, o, a)
  {
    hide ActiveSections, HeaderLine, KeepsRest, IsMerge, SomeLeft, ChangedOf, OnlyEmpty, TextsIn;
  }

  /** A base without sections has nothing to edit or to delete. */
  lemma {:induction false} FirstWritten(ours: seq<Line>, theirs: seq<Line>, base: seq<Line>, series: nat, e: Edits)
    requires ActiveSections(ours, series).Some? && ActiveSections(theirs, series).Some? && TextsIn(theirs, series) == []
    requires EditsOf(ChangedOf(TextsIn(ours, series), [], TextsIn(base, series)), [], TextsIn(base, series)) == Some(e)
    ensures var o, a := TextsIn(ours, series), TextsIn(base, series);
            var s, changed := ActiveSections(theirs, series).value, ChangedOf(o, [], a);
            && MergedTexts(o, [], a, e.texts) == changed
            && UnionSections(ours, theirs, base, series) == Some(WithFirst(theirs, s.at, changed))
            && Droppable(theirs, s, Deleted(o, [], a))
  {
    var o, a := TextsIn(ours, series), TextsIn(base, series);
    var s, changed := ActiveSections(theirs, series).value, ChangedOf(o, [], a);
    EditsAre(changed, [], a);
    NothingEdited(e, changed);
    hide HeadOf, ByHead, ActiveSections, EditsOf, ChangedOf, HasHead, Spread;
    TextsAre(theirs, series);
    assert PutEdits(theirs, s.at, [], map[], []) == Some(theirs);
    NothingDropped(theirs, s.at, a, o);
    FilterAll(changed, (b: Text) => HeadOf(b) !in e.texts);
    NothingDeleted(o, a);
    UnionParts(ours, theirs, base, series);
  }

  lemma {:induction false} NothingEdited(e: Edits, changed: seq<Text>)
    requires AreEdits(e, changed, [])
    ensures e.order == [] && e.texts == map[]
  {
    hide HeadOf;
    assert forall g :: !HasHead([], g);
    assert forall g :: g !in e.texts;
    NoElements(e.order);
  }

  lemma {:induction false} NoElements(s: seq<Line>)
    ensures s == [] || s[0] in s
  {
  }

  lemma {:induction false} NothingDropped(theirs: seq<Line>, at: nat, a: seq<Text>, o: seq<Text>)
    requires at < |theirs|
    ensures DropAll(theirs, at, a, o, [], map[]) == Some(theirs)
    decreases |a|
  {
    if a != [] {
      NothingDropped(theirs, at, a[1..], o);
    }
  }

  lemma {:induction false} NothingDeleted(o: seq<Text>, a: seq<Text>)
    ensures Deleted(o, [], a) == []
  {
    hide ChangedOf;
    FilterNone(a, (x: Text) => IsDeleted(o, [], a, x));
  }

  lemma {:induction false} FirstAreMerged(ours: seq<Line>, theirs: seq<Line>, base: seq<Line>, series: nat, e: Edits)
    requires Mergeable(ours, theirs, base, series) && TextsIn(theirs, series) == []
    requires EditsOf(ChangedOf(TextsIn(ours, series), [], TextsIn(base, series)), [], TextsIn(base, series)) == Some(e)
    ensures var o, a := TextsIn(ours, series), TextsIn(base, series);
            var s, r := ActiveSections(theirs, series).value, UnionSections(ours, theirs, base, series);
            && Droppable(theirs, s, Deleted(o, [], a)) && r.Some?
            && IsMergedFile(r.value, theirs, series, s, o, a)
  {
    hide *;
    MergeableParts(ours, theirs, base, series);
    var o, a := TextsIn(ours, series), TextsIn(base, series);
    var s, changed := ActiveSections(theirs, series).value, ChangedOf(o, [], a);
    FirstWritten(ours, theirs, base, series, e);
    MergedIsMerge(o, [], a, e);
    NoSections(theirs, series);
    var out := WithFirst(theirs, s.at, changed);
    SectionsLie(theirs, series);
    FirstKeepsRest(theirs, s, changed);
    if changed == [] {
      NoneWritten(theirs, s.at);
      TextsAre(theirs, series);
    } else {
      SectionTexts(ours, series);
      TextsAre(ours, series);
      ChangedAreTexts(o, a);
      FirstIsRead(theirs, series, changed);
      FirstIsMergeIff(theirs, s.at, changed, o, a, TextsIn(out, series));
    }
    FirstFileIs(out, theirs, series, s, o, a);
  }

  lemma {:induction false} SectionsLie(theirs: seq<Line>, series: nat)
    requires ActiveSections(theirs, series).Some?
    ensures var s := ActiveSections(theirs, series).value; s.at < s.end <= |theirs|
  {
    hide HeaderLine;
  }

  lemma {:induction false} NoneWritten(theirs: seq<Line>, at: nat)
    requires at <= |theirs|
    ensures WithFirst(theirs, at, []) == theirs
  {
  }

  lemma {:induction false} FirstKeepsRest(theirs: seq<Line>, s: Sections, ts: seq<Text>)
    requires s.at < s.end <= |theirs|
    ensures KeepsRest(WithFirst(theirs, s.at, ts), theirs, s)
  {
    hide Spread;
  }

  lemma {:induction false} ChangedAreTexts(o: seq<Text>, a: seq<Text>)
    requires AreTexts(o) && NoRules(o)
    ensures AreTexts(ChangedOf(o, [], a)) && NoRules(ChangedOf(o, [], a))
  {
    hide IsText, IsRule;
  }

  lemma {:induction false} FirstFileIs(out: seq<Line>, theirs: seq<Line>, series: nat, s: Sections, o: seq<Text>, a: seq<Text>)
    requires s.at < s.end <= |theirs| && s.texts == [] && KeepsRest(out, theirs, s)
    requires ActiveSections(out, series).Some? && HeaderLine(out, series) == HeaderLine(theirs, series)
    requires TextsIn(out, series) != [] ==> ActiveSections(out, series).value.at >= s.at
    requires IsMerge(TextsIn(out, series), o, [], a) <==> ChangedOf(o, [], a) == [] || OnlyEmpty(theirs, s.at)
    ensures IsMergedFile(out, theirs, series, s, o, a)
  {
    hide ActiveSections, HeaderLine, KeepsRest, IsMerge, SomeLeft, ChangedOf, OnlyEmpty, TextsIn;
  }

  /** The lines under the last new section belong to it: it is the merge only if they are empty. */
  lemma {:induction false} FirstIsMergeIff(theirs: seq<Line>, at: nat, changed: seq<Text>, o: seq<Text>, a: seq<Text>,
                                           read: seq<Text>)
    requires at <= |theirs| && changed != [] && AreTexts(changed) && IsMerge(changed, o, [], a)
    requires read == changed[..|changed| - 1] + [Strip(changed[|changed| - 1] + [""] + UpToRule(theirs, at))]
    ensures IsMerge(read, o, [], a) <==> OnlyEmpty(theirs, at)
  {
    var n := |changed| - 1;
    var t, stray := changed[n], UpToRule(theirs, at);
    assert t in changed && IsText(t);
    hide *;
    StripIff(t, stray);
    OnlyEmptyIff(theirs, at);
    var u := Strip(t + [""] + stray);
    SameFront(changed, n);
    if u != t {
      HeadKept(t, u);
      OtherTextNoMerge(changed, read, o, a, t, u);
    }
  }

  lemma {:induction false} SameFront(ts: seq<Text>, n: nat)
    requires |ts| == n + 1
    ensures ts[..n] + [ts[n]] == ts
    ensures forall x: Text :: x in ts[..n] + [x]
  {
    assert forall x: Text :: (ts[..n] + [x])[n] == x;
  }

  lemma {:induction false} HeadKept(t: Text, u: Text)
    requires IsText(t) && |t| <= |u| && u[..|t|] == t
    ensures HeadOf(u) == HeadOf(t)
  {
    assert u[0] == u[..|t|][0];
  }

  /** A list that has another text under a heading is not the merge. */
  lemma {:induction false} OtherTextNoMerge(m: seq<Text>, read: seq<Text>, o: seq<Text>, a: seq<Text>, t: Text, u: Text)
    requires IsMerge(m, o, [], a) && t in m && u in read && HeadOf(t) == HeadOf(u) && t != u
    ensures !IsMerge(read, o, [], a)
  {
    HeadFinds(m, t);
    hide MergeAt, ByHead, UniqueHeads, HeadOf;
    if IsMerge(read, o, [], a) {
      HeadFinds(read, u);
    }
  }

  lemma {:induction false} RefusedAlike(o: seq<Text>, t: seq<Text>, a: seq<Text>)
    ensures forall g :: MergeAt(a, o, t, g) == MergeAt(a, t, o, g)
    ensures (exists g :: MergeAt(a, o, t, g).None?) <==> exists g :: MergeAt(a, t, o, g).None?
  {
    hide Merge3, ByHead;
    forall g ensures MergeAt(a, o, t, g) == MergeAt(a, t, o, g) {
      MergeIsSymmetric(ByHead(a, g), ByHead(o, g), ByHead(t, g));
    }
    hide MergeAt;
  }

  lemma {:induction false} SameMerge(m: seq<Text>, n: seq<Text>, o: seq<Text>, t: seq<Text>, a: seq<Text>)
    requires IsMerge(m, o, t, a) && IsMerge(n, t, o, a)
    ensures forall g :: ByHead(m, g) == ByHead(n, g)
  {
    RefusedAlike(o, t, a);
    hide ByHead, MergeAt, UniqueHeads;
    forall g ensures ByHead(m, g) == ByHead(n, g) {
      assert MergeAt(a, o, t, g) == MergeAt(a, t, o, g);
    }
  }

  /** The two sides are equal partners: merged either way, the file is refused or has the same sections. */
  lemma {:induction false} SidesAreEqual(left: seq<Line>, right: seq<Line>, base: seq<Line>, series: nat)
    requires Mergeable(left, right, base, series) && Mergeable(right, left, base, series)
    ensures var l, r, a := TextsIn(left, series), TextsIn(right, series), TextsIn(base, series);
            var ls, rs := ActiveSections(left, series).value, ActiveSections(right, series).value;
            var x, y := UnionSections(left, right, base, series), UnionSections(right, left, base, series);
            && (Droppable(right, rs, Deleted(l, r, a)) && Droppable(left, ls, Deleted(r, l, a)) ==> (x.None? <==> y.None?))
            && (x.Some? && y.Some? && Fits(right, series, rs, l, a) && Fits(left, series, ls, r, a) ==>
                  forall g :: ByHead(TextsIn(x.value, series), g) == ByHead(TextsIn(y.value, series), g))
  {
    hide *;
    SectionsAreMergedIff(left, right, base, series);
    SectionsAreMergedIff(right, left, base, series);
    MergeableParts(left, right, base, series);
    MergeableParts(right, left, base, series);
    var l, r, a := TextsIn(left, series), TextsIn(right, series), TextsIn(base, series);
    var ls, rs := ActiveSections(left, series).value, ActiveSections(right, series).value;
    var x, y := UnionSections(left, right, base, series), UnionSections(right, left, base, series);
    RefusedAlike(l, r, a);
    SectionsLie(left, series);
    SectionsLie(right, series);
    if x.Some? && y.Some? && Fits(right, series, rs, l, a) && Fits(left, series, ls, r, a) {
      FitsReads(x.value, right, series, rs, l, a);
      FitsReads(y.value, left, series, ls, r, a);
      SameMerge(TextsIn(x.value, series), TextsIn(y.value, series), l, r, a);
    }
  }

  /** What makes the merged file read back as the merge. */
  ghost predicate Fits(theirs: seq<Line>, series: nat, s: Sections, o: seq<Text>, a: seq<Text>)
    requires s.at <= |theirs|
  {
    ReadsApart(theirs, series, s, o, a) && HasRoom(theirs, s, o, a)
  }

  lemma {:induction false} FitsReads(out: seq<Line>, theirs: seq<Line>, series: nat, s: Sections, o: seq<Text>, a: seq<Text>)
    requires s.at < s.end <= |theirs| && IsMergedFile(out, theirs, series, s, o, a) && Fits(theirs, series, s, o, a)
    ensures IsMerge(TextsIn(out, series), o, s.texts, a)
  {
    hide ActiveSections, HeaderLine, KeepsRest, IsMerge, ReadsApart, HasRoom, TextsIn;
  }

  // ---------------------------------------------------------------------------------------------
  // With the Unreleased lines

  /** The branch brings no Unreleased line that would have to be written into a file without them. */
  predicate NothingToWrite(ours: seq<Line>, base: seq<Line>, series: nat) {
    RegionOf(ours, series).None? || Own(UnreleasedLines(ours, series), [], UnreleasedLines(base, series)) == []
  }

  /** The first section reads from its heading to the next one, or to the rule. */
  lemma {:induction false} FirstTextIsLong(r: seq<Line>, series: nat, front: seq<Line>, part: seq<Line>, tail: seq<Line>, k: nat)
    requires r == front + part + tail && |front| >= 1 && k < |part| && part[k] != ""
    requires HoldsHeader(series, front[|front| - 1]) && forall i :: 0 <= i < |front| - 1 ==> !HoldsHeader(series, front[i])
    requires IsHeading(part[0]) && forall i :: 1 <= i < |part| ==> !IsHeading(part[i])
    requires forall l :: l in part ==> !IsRule(l)
    ensures ActiveSections(r, series).Some? && TextsIn(r, series) != []
    ensures HeadOf(TextsIn(r, series)[0]) == part[0] && |TextsIn(r, series)[0]| > k
  {
    var h := |front| - 1;
    hide HoldsHeader, IsHeading, IsRule, TextsOf, HeadOf;
    assert forall i :: 0 <= i <= h ==> r[i] == front[i];
    assert forall i :: h + 1 <= i < h + 1 + |part| ==> r[i] == part[i - h - 1];
    var end := FindFrom(r, IsRule, h + 2);
    forall i | h + 1 <= i < h + 1 + |part| ensures !IsRule(r[i]) {
      assert part[i - h - 1] in part;
    }
    assert end >= h + 1 + |part|;
    assert EndsAt(r, series, h, h + 1, end);
    EndsRead(r, series, h, h + 1, end);
    TextsAre(r, series);
    var body := r[h + 1..end];
    assert forall i :: 0 <= i < |part| ==> body[i] == part[i];
    FirstText(body, part, k);
  }

  lemma {:induction false} FirstText(body: seq<Line>, part: seq<Line>, k: nat)
    requires |part| <= |body| && (forall i :: 0 <= i < |part| ==> body[i] == part[i]) && k < |part| && part[k] != ""
    requires IsHeading(part[0]) && forall i :: 1 <= i < |part| ==> !IsHeading(part[i])
    ensures TextsOf(body) != [] && HeadOf(TextsOf(body)[0]) == part[0] && |TextsOf(body)[0]| > k
  {
    var n := BlockLength(body);
    assert n >= |part|;
    HeadingIsNoRule("");
    hide Strip, IsHeading, BlockLength;
    var t := Strip(body[..n]);
    assert body[..n][k] == part[k] && body[..n][0] == part[0];
  }

  /** The first section of the file, once Unreleased lines were written under its first empty line. */
  function Inserted(t: Text, q: nat, own: seq<Line>): seq<Line>
    requires q <= |t|
  {
    (t + [""])[..q + 1] + [UNRELEASED] + own + [""] + (t + [""])[q + 1..]
  }

  lemma {:induction false} InsertedIsLong(t: Text, q: nat, own: seq<Line>) returns (k: nat)
    requires IsText(t) && 1 <= q <= |t| && (t + [""])[q] == "" && (forall l :: l in t || l in own ==> !IsRule(l))
    requires forall l :: l in own ==> IsEntry(l)
    ensures var part := Inserted(t, q, own);
            && |t| <= k < |part| && part[k] != "" && part[0] == t[0] && IsHeading(part[0])
            && (forall i :: 1 <= i < |part| ==> !IsHeading(part[i])) && (forall l :: l in part ==> !IsRule(l))
  {
    var part := Inserted(t, q, own);
    UnreleasedIsNoHeading();
    RuleSign(UNRELEASED);
    HeadingIsNoRule("");
    forall l | l in own ensures !IsHeading(l) {
      EntryIsNoHeading(l);
    }
    k := if q < |t| then |t| + |own| + 1 else |t| + 1;
    hide IsHeading, IsRule, IsEntry;
    forall i | 1 <= i < |part| ensures !IsHeading(part[i]) {
      assert part[i] == "" || part[i] == UNRELEASED || part[i] in own || (i <= q && part[i] == (t + [""])[i])
          || part[i] == (t + [""])[i - |own| - 2];
    }
    assert forall l :: l in part ==> l == "" || l == UNRELEASED || l in own || l in t;
  }

  /** Unreleased lines written into a file that starts with its sections end up in the first one. */
  lemma {:induction false} InsertedSpoils(theirs: seq<Line>, series: nat, ts: seq<Text>, own: seq<Line>)
    requires ActiveSections(theirs, series).Some? && ActiveSections(theirs, series).value.texts == []
    requires HeaderLine(theirs, series) + 1 < |theirs| && ts != [] && AreTexts(ts) && NoRules(ts)
    requires forall l :: l in own ==> IsEntry(l) && !IsRule(l)
    ensures var r := CreateRegion(WithFirst(theirs, HeaderLine(theirs, series) + 1, ts), series, own);
            && TextsIn(r, series) != [] && HeadOf(TextsIn(r, series)[0]) == HeadOf(ts[0])
            && |TextsIn(r, series)[0]| > |ts[0]|
  {
    hide *;
    var h, t := HeaderLine(theirs, series), ts[0];
    var out := WithFirst(theirs, h + 1, ts);
    NoSections(theirs, series);
    FirstIsRead(theirs, series, ts);
    RestTexts(ts);
    FirstShape(theirs, h, ts);
    NoRuleIn(ts);
    var front, tail := theirs[..h + 1], Spread(ts[1..]) + theirs[h + 1..];
    var q := FindFrom(t + [""], (l: Line) => l == "", 0);
    FirstBlank(t, q);
    LastOf(theirs, h, series);
    BlankInFirst(out, series, front, t, tail, q);
    var k := InsertedIsLong(t, q, own);
    CreatedInside(out, series, front, t, tail, q, own);
    FirstTextIsLong(CreateRegion(out, series, own), series, front, Inserted(t, q, own), tail, k);
    NotEmpty(t);
    HeadIs(t);
  }

  lemma {:induction false} NotEmpty(t: Text)
    requires IsText(t)
    ensures t != []
  {
  }

  lemma {:induction false} NoRuleIn(ts: seq<Text>)
    requires NoRules(ts) && ts != []
    ensures forall l :: l in ts[0] ==> !IsRule(l)
  {
    hide IsRule;
    assert ts[0] in ts;
  }

  lemma {:induction false} FirstShape(theirs: seq<Line>, h: nat, ts: seq<Text>)
    requires h + 1 < |theirs| && ts != []
    ensures var tail := Spread(ts[1..]) + theirs[h + 1..];
            tail != [] && WithFirst(theirs, h + 1, ts) == theirs[..h + 1] + (ts[0] + [""]) + tail
  {
    SpreadFirst(ts);
    hide Spread;
  }

  lemma {:induction false} HeadIs(t: Text)
    requires t != []
    ensures HeadOf(t) == t[0]
  {
  }

  lemma {:induction false} LastOf(theirs: seq<Line>, h: nat, series: nat)
    requires h < |theirs| && HoldsHeader(series, theirs[h]) && forall i :: 0 <= i < h ==> !HoldsHeader(series, theirs[i])
    ensures var front := theirs[..h + 1];
            && |front| == h + 1 && HoldsHeader(series, front[h]) && forall i :: 0 <= i < h ==> !HoldsHeader(series, front[i])
  {
    hide HoldsHeader;
  }

  lemma {:induction false} FirstBlank(t: Text, q: nat)
    requires IsText(t) && q == FindFrom(t + [""], (l: Line) => l == "", 0)
    ensures 1 <= q <= |t| && (t + [""])[q] == "" && forall i :: 0 <= i < q ==> (t + [""])[i] != ""
  {
    HeadingIsNoRule("");
    hide IsHeading;
    assert (t + [""])[|t|] == "";
    assert (t + [""])[0] == t[0];
  }

  lemma {:induction false} BlankInFirst(out: seq<Line>, series: nat, front: seq<Line>, t: Text, tail: seq<Line>, q: nat)
    requires out == front + (t + [""]) + tail && |front| >= 1 && HeaderLine(out, series) == |front| - 1
    requires q <= |t| && (t + [""])[q] == "" && forall i :: 0 <= i < q ==> (t + [""])[i] != ""
    ensures BlankLine(out, series) == |front| + q
  {
    hide HeaderLine;
    assert forall i :: |front| <= i < |front| + |t| + 1 ==> out[i] == (t + [""])[i - |front|];
    FindFromIs(out, (l: Line) => l == "", |front|, |front| + q);
  }

  lemma {:induction false} CreatedInside(out: seq<Line>, series: nat, front: seq<Line>, t: Text, tail: seq<Line>, q: nat,
                                         own: seq<Line>)
    requires out == front + (t + [""]) + tail && tail != [] && q <= |t| && BlankLine(out, series) == |front| + q
    ensures CreateRegion(out, series, own) == front + Inserted(t, q, own) + tail
  {
    hide BlankLine;
    var p := |front| + q;
    assert out[..p + 1] == front + (t + [""])[..q + 1];
    assert out[p + 1..] == (t + [""])[q + 1..] + tail;
  }

  /** A file whose sections start under the header has no Unreleased lines. */
  lemma {:induction false} NoneUnreleased(theirs: seq<Line>, series: nat, ts: seq<Text>)
    requires ActiveSections(theirs, series).Some? && ActiveSections(theirs, series).value.texts == []
    requires HeaderLine(theirs, series) + 1 < |theirs| && ts != [] && AreTexts(ts)
    requires !NamesUnreleased(theirs[HeaderLine(theirs, series)])
    ensures RegionOf(WithFirst(theirs, HeaderLine(theirs, series) + 1, ts), series).None?
  {
    var h := HeaderLine(theirs, series);
    NoSections(theirs, series);
    RestTexts(ts);
    SpreadFirst(ts);
    HeadFirst(ts[0]);
    hide HoldsHeader, IsHeading, NamesUnreleased, HeaderLine, ActiveSections, Spread, IsText;
    var out := WithFirst(theirs, h + 1, ts);
    assert forall i :: 0 <= i <= h ==> out[i] == theirs[i];
    assert out[h + 1] == ts[0][0];
    NoRegion(out, series, h, h + 1);
  }

  lemma {:induction false} UnitedFirst(out: seq<Line>, ours: seq<Line>, base: seq<Line>, series: nat)
    requires RegionOf(out, series).None?
    ensures UnionUnreleased(out, ours, base, series)
         == if NothingToWrite(ours, base, series) then out
            else CreateRegion(out, series, Own(UnreleasedLines(ours, series), [], UnreleasedLines(base, series)))
  {
    hide RegionOf, CreateRegion;
    assert UnreleasedLines(out, series) == [];
  }

  /** A base without sections: the whole merge reads back as the merge only if nothing is to be written around the first ones. */
  lemma {:induction false} FirstFileIff(ours: seq<Line>, theirs: seq<Line>, base: seq<Line>, series: nat)
    requires Mergeable(ours, theirs, base, series) && TextsIn(theirs, series) == []
    requires !NamesUnreleased(theirs[HeaderLine(theirs, series)])
    requires forall l :: l in UnreleasedLines(ours, series) ==> !IsRule(l)
    requires SomeLeft(TextsIn(ours, series), [], TextsIn(base, series))
    ensures var o, a, r := TextsIn(ours, series), TextsIn(base, series), UnionMd(ours, theirs, base, series);
            && (r.Some? <==> UnionSections(ours, theirs, base, series).Some?)
            && (r.Some? ==> (IsMerge(TextsIn(r.value, series), o, [], a)
                             <==> OnlyEmpty(theirs, ActiveSections(theirs, series).value.at)
                                  && NothingToWrite(ours, base, series)))
  {
    hide *;
    var o, a := TextsIn(ours, series), TextsIn(base, series);
    MergeableParts(ours, theirs, base, series);
    var s, changed := ActiveSections(theirs, series).value, ChangedOf(o, [], a);
    SectionsAreMergedIff(ours, theirs, base, series);
    UnionMdIs(ours, theirs, base, series);
    if UnionSections(ours, theirs, base, series).Some? {
      EditsSome(ours, theirs, base, series);
      var e := EditsOf(ChangedOf(o, [], a), [], a).value;
      FirstWritten(ours, theirs, base, series, e);
      MergedIsMerge(o, [], a, e);
      LeftIff(changed, o, [], a);
      NoSections(theirs, series);
      SectionsLie(theirs, series);
      SectionTexts(ours, series);
      TextsAre(ours, series);
      ChangedAreTexts(o, a);
      var out := WithFirst(theirs, s.at, changed);
      NoneUnreleased(theirs, series, changed);
      UnitedFirst(out, ours, base, series);
      RoomIs(out, theirs, series, s, o, a);
      if !NothingToWrite(ours, base, series) {
        var own := Own(UnreleasedLines(ours, series), [], UnreleasedLines(base, series));
        NewLines(ours, base, series);
        InsertedSpoils(theirs, series, changed, own);
        var read := TextsIn(CreateRegion(out, series, own), series);
        FirstIn(changed);
        FirstIn(read);
        OtherTextNoMerge(changed, read, o, a, changed[0], read[0]);
      }
    }
  }

  lemma {:induction false} FirstIn(ts: seq<Text>)
    requires ts != []
    ensures ts[0] in ts
  {
  }

  lemma {:induction false} NewLines(ours: seq<Line>, base: seq<Line>, series: nat)
    requires forall l :: l in UnreleasedLines(ours, series) ==> !IsRule(l)
    ensures forall l :: l in Own(UnreleasedLines(ours, series), [], UnreleasedLines(base, series)) ==> IsEntry(l) && !IsRule(l)
  {
    EntriesOf(ours, series);
    hide IsEntry, IsRule, UnreleasedLines;
  }

  lemma {:induction false} RoomIs(out: seq<Line>, theirs: seq<Line>, series: nat, s: Sections, o: seq<Text>, a: seq<Text>)
    requires s.at < s.end <= |theirs| && s.texts == [] && ChangedOf(o, [], a) != []
    requires IsMergedFile(out, theirs, series, s, o, a)
    ensures IsMerge(TextsIn(out, series), o, [], a) <==> OnlyEmpty(theirs, s.at)
  {
    hide ActiveSections, HeaderLine, KeepsRest, IsMerge, SomeLeft, ChangedOf, OnlyEmpty, TextsIn;
  }

  lemma {:induction false} UnionMdIs(ours: seq<Line>, theirs: seq<Line>, base: seq<Line>, series: nat)
    ensures var x := UnionSections(ours, theirs, base, series);
            UnionMd(ours, theirs, base, series)
            == if x.None? then None else Some(UnionUnreleased(x.value, ours, base, series))
  {
    hide UnionSections, UnionUnreleased;
  }

  lemma {:induction false} EditsSome(ours: seq<Line>, theirs: seq<Line>, base: seq<Line>, series: nat)
    requires UnionSections(ours, theirs, base, series).Some?
    ensures var o, t, a := TextsIn(ours, series), TextsIn(theirs, series), TextsIn(base, series);
            EditsOf(ChangedOf(o, t, a), t, a).Some?
  {
    hide EditsOf, ChangedOf, PutEdits, DropAll;
  }

  /** A base with sections: the Unreleased lines stand above them and leave them alone. */
  lemma {:induction false} OtherFile(ours: seq<Line>, theirs: seq<Line>, base: seq<Line>, series: nat)
    requires Mergeable(ours, theirs, base, series) && TextsIn(theirs, series) != []
    requires theirs[HeaderLine(theirs, series) + 1] == ""
    requires forall l :: l in UnreleasedLines(ours, series) ==> !IsRule(l)
    requires SomeLeft(TextsIn(ours, series), TextsIn(theirs, series), TextsIn(base, series))
    ensures var o, t, a := TextsIn(ours, series), TextsIn(theirs, series), TextsIn(base, series);
            var r := UnionMd(ours, theirs, base, series);
            && (r.Some? <==> UnionSections(ours, theirs, base, series).Some?)
            && (r.Some? ==> IsMerge(TextsIn(r.value, series), o, t, a))
  {
    hide *;
    var o, t, a := TextsIn(ours, series), TextsIn(theirs, series), TextsIn(base, series);
    MergeableParts(ours, theirs, base, series);
    var s, h := ActiveSections(theirs, series).value, HeaderLine(theirs, series);
    SectionsAreMergedIff(ours, theirs, base, series);
    UnionMdIs(ours, theirs, base, series);
    var x := UnionSections(ours, theirs, base, series);
    if x.Some? {
      SectionsLie(theirs, series);
      SomeFits(theirs, series, s, o, a);
      FitsReads(x.value, theirs, series, s, o, a);
      MergedParts(x.value, theirs, series, s, o, a);
      LeftIff(TextsIn(x.value, series), o, t, a);
      BlankAbove(x.value, theirs, series, s);
      UnreleasedKeepsSections(x.value, ours, base, series);
    }
  }

  lemma {:induction false} SomeFits(theirs: seq<Line>, series: nat, s: Sections, o: seq<Text>, a: seq<Text>)
    requires s.at <= |theirs| && s.texts != [] && SomeLeft(o, s.texts, a)
    ensures Fits(theirs, series, s, o, a) && ReadsApart(theirs, series, s, o, a)
  {
    hide SomeLeft, HeaderLine, ChangedOf, OnlyEmpty;
  }

  lemma {:induction false} MergedParts(out: seq<Line>, theirs: seq<Line>, series: nat, s: Sections, o: seq<Text>, a: seq<Text>)
    requires s.at < s.end <= |theirs| && IsMergedFile(out, theirs, series, s, o, a) && ReadsApart(theirs, series, s, o, a)
    ensures KeepsRest(out, theirs, s) && ActiveSections(out, series).Some?
    ensures HeaderLine(out, series) == HeaderLine(theirs, series)
    ensures TextsIn(out, series) != [] ==> ActiveSections(out, series).value.at >= s.at
  {
    hide ActiveSections, HeaderLine, KeepsRest, IsMerge, ReadsApart, HasRoom, TextsIn;
  }

  lemma {:induction false} BlankAbove(out: seq<Line>, theirs: seq<Line>, series: nat, s: Sections)
    requires ActiveSections(theirs, series) == Some(s) && s.texts != [] && s.at < s.end <= |theirs| && KeepsRest(out, theirs, s)
    requires HeaderLine(theirs, series) + 1 < |theirs| && theirs[HeaderLine(theirs, series) + 1] == ""
    ensures var h := HeaderLine(theirs, series); h + 1 < s.at && h + 1 < |out| && out[h + 1] == ""
  {
    FileStarts(theirs, series);
    SectionLines(theirs, series, s);
    HeadingIsNoRule("");
    var h := HeaderLine(theirs, series);
    hide HeaderLine, HoldsHeader, IsHeading, IsRule, ActiveSections;
    assert out[..s.at][h + 1] == theirs[..s.at][h + 1];
  }

  /**
   * The whole merge is refused exactly when the merge of the sections is. When a section is left, the written file has the
   * section of the three-way merge under every heading exactly when the base has a section, or nothing stands or has to be
   * written where the first ones go.
   */
  lemma {:induction false} FileIsMergedIff(ours: seq<Line>, theirs: seq<Line>, base: seq<Line>, series: nat)
    requires Mergeable(ours, theirs, base, series)
    requires theirs[HeaderLine(theirs, series) + 1] == "" && !NamesUnreleased(theirs[HeaderLine(theirs, series)])
    requires forall l :: l in UnreleasedLines(ours, series) ==> !IsRule(l)
    ensures var o, t, a := TextsIn(ours, series), TextsIn(theirs, series), TextsIn(base, series);
            var s, r := ActiveSections(theirs, series).value, UnionMd(ours, theirs, base, series);
            && (r.None? <==> (exists g :: MergeAt(a, o, t, g).None?) || !Droppable(theirs, s, Deleted(o, t, a)))
            && (r.Some? && SomeLeft(o, t, a) ==>
                  (IsMerge(TextsIn(r.value, series), o, t, a)
                   <==> t != [] || (OnlyEmpty(theirs, s.at) && NothingToWrite(ours, base, series))))
  {
    hide *;
    MergeableParts(ours, theirs, base, series);
    SectionsLie(theirs, series);
    SectionsAreMergedIff(ours, theirs, base, series);
    UnionMdIs(ours, theirs, base, series);
    var o, t, a := TextsIn(ours, series), TextsIn(theirs, series), TextsIn(base, series);
    if SomeLeft(o, t, a) {
      if t == [] {
        FirstFileIff(ours, theirs, base, series);
      } else {
        OtherFile(ours, theirs, base, series);
      }
    }
  }
}
