/** Files for which `unionChangelogMd` does not give the three-way merge. */
module MdFailures {
  import opened ChangelogMd
  import opened MdLayout
  import opened MdMerge
  import opened MdMergeTheorems
  import opened MdReading
  import R = Release
  import opened Seqs
  import opened Texts
  import opened Unreleased
  import opened Versions

  // ---------------------------------------------------------------------------------------------
  // A heading that starts another one

  const LONGER := "### v1.0.10"
  const SHORTER := "### v1.0.1"

  /** A file with a section of one line and the section `b` under it. */
  function TwoSections(series: nat, b: Text): seq<Line> {
    [Header(series), ""] + [LONGER, ""] + b + [""] + ["---"]
  }

  lemma {:induction false} HeaderIsPlain(series: nat)
    ensures HoldsHeader(series, Header(series)) && !IsHeading(Header(series))
  {
    HeaderHolds(series);
    assert Header(series)[2] == ' ';
    HeadingStart(Header(series));
  }

  lemma {:induction false} HeadingStart(l: Line)
    ensures IsHeading(l) ==> |l| > 2 && l[2] == '#'
  {
    assert IsHeading(l) ==> l[2] == l[..5][2];
  }

  lemma {:induction false} TwoSectionsEnd(series: nat, b: Text)
    requires NoRules([b])
    ensures EndsAt(TwoSections(series, b), series, 0, 2, 5 + |b|)
  {
    var file := TwoSections(series, b);
    HeaderIsPlain(series);
    HeadingIsNoRule(LONGER);
    assert IsHeading(LONGER) && IsRule("---") && b in [b];
    hide IsHeading, IsRule, HoldsHeader, Header;
    assert file[2] == LONGER && file[3] == "" && file[4 + |b|] == "";
    assert forall i :: 4 <= i < 4 + |b| ==> file[i] == b[i - 4];
  }

  lemma {:induction false} TwoSectionsRead(series: nat, b: Text)
    requires IsText(b) && NoRules([b])
    ensures var s := ActiveSections(TwoSections(series, b), series);
            s.Some? && s.value.at == 2 && s.value.texts == [[LONGER], b]
  {
    var file := TwoSections(series, b);
    TwoSectionsEnd(series, b);
    EndsRead(file, series, 0, 2, 5 + |b|);
    assert IsText([LONGER]);
    TwoAssembled(b);
    ReadAssembled([[LONGER], b], [1, 1]);
    hide *;
    assert file[2..5 + |b|] == [LONGER, ""] + b + [""] by {
      TwoBody(series, b);
    }
  }

  lemma {:induction false} TwoBody(series: nat, b: Text)
    ensures TwoSections(series, b)[2..5 + |b|] == [LONGER, ""] + b + [""]
  {
    hide Header;
  }

  lemma {:induction false} TwoAssembled(b: Text)
    ensures Assemble([[LONGER], b], [1, 1]) == [LONGER, ""] + b + [""]
  {
    AssembleFirst([LONGER], [b], 1, [1]);
    AssembleFirst(b, [], 1, []);
    BlanksJoin(0, 1);
    assert [[LONGER]] + [b] == [[LONGER], b] && [1] + [1] == [1, 1] && [b] + [] == [b] && [1] + [] == [1];
  }

  const EDIT: Text := [SHORTER, "x"]

  lemma {:induction false} ExampleTexts()
    ensures IsText([SHORTER]) && IsText(EDIT) && NoRules([[SHORTER]]) && NoRules([EDIT])
  {
    assert !IsHeading("x") && !IsRule("x");
    HeadingIsNoRule(SHORTER);
    hide IsRule;
    assert forall t, l :: t in [EDIT] && l in t ==> l == SHORTER || l == "x";
  }

  lemma {:induction false} ByHeadTwo(a: Text, b: Text, g: Line)
    requires HeadOf(a) != HeadOf(b)
    ensures UniqueHeads([a, b])
    ensures ByHead([a, b], g) == if g == HeadOf(b) then Some(b) else if g == HeadOf(a) then Some(a) else None
  {
    hide HeadOf;
    assert [a, b][..1] == [a] && [a][..0] == [];
  }

  lemma {:induction false} ExampleEdits()
    ensures var o, t: seq<Text> := [[LONGER], EDIT], [[LONGER], [SHORTER]];
            && UniqueHeads(o) && UniqueHeads(t) && MergeAt(t, o, t, LONGER) == Some(Some([LONGER]))
            && ChangedOf(o, t, t) == [EDIT]
            && EditsOf([EDIT], t, t) == Some(Edits([SHORTER], map[SHORTER := EDIT]))
            && TextFor(t, SHORTER) == [SHORTER]
  {
    var o, t: seq<Text> := [[LONGER], EDIT], [[LONGER], [SHORTER]];
    assert |LONGER| != |SHORTER|;
    ByHeadTwo([LONGER], EDIT, LONGER);
    ByHeadTwo([LONGER], [SHORTER], LONGER);
    ByHeadTwo([LONGER], [SHORTER], SHORTER);
    var p := (b: Text) => b !in t && b !in t;
    assert o == [[LONGER]] + [EDIT];
    FilterAppend([[LONGER]], [EDIT], p);
    FilterNone([[LONGER]], p);
    FilterAll([EDIT], p);
    assert HeadOf(EDIT) == SHORTER;
    hide ByHead, UniqueHeads, HeadOf, Filter;
    assert [EDIT][..0] == [];
    assert EditsOf([], t, t) == Some(Edits([], map[]));
    assert SetEdit(Edits([], map[]), t, EDIT) == Edits([SHORTER], map[SHORTER := EDIT]);
  }

  /** The longer heading is where the shorter one is found. */
  lemma {:induction false} ExampleFound(series: nat)
    ensures var theirs, p := TwoSections(series, [SHORTER]), Place(2, 0);
            && IndexOf(theirs, [SHORTER], 2) == Some(p) && TextAt(theirs, [SHORTER], p)
            && Splice(theirs, [SHORTER], p, EDIT) == [Header(series), "", SHORTER, "x0", "", SHORTER, "", "---"]
  {
    var theirs, p := TwoSections(series, [SHORTER]), Place(2, 0);
    hide Header;
    assert theirs == [Header(series), "", LONGER, "", SHORTER, "", "---"];
    assert theirs[2] == LONGER && LONGER[0..] == LONGER && LONGER[..|SHORTER|] == SHORTER;
    FirstPlace(theirs, [SHORTER], 2, 2);
    assert LONGER[|SHORTER|..] == "0" && LONGER[..0] == "";
    assert EDIT[1..1] == [] && "" + SHORTER == SHORTER && "x" + "0" == "x0";
    assert Glue("", EDIT, "0") == ["" + SHORTER] + EDIT[1..1] + ["x" + "0"] == [SHORTER, "x0"];
    assert theirs[..2] == [Header(series), ""] && theirs[3..] == ["", SHORTER, "", "---"];
  }

  lemma {:induction false} ExampleWritten(series: nat, at: Sections)
    requires at.at == 2 && at.texts == [[LONGER], [SHORTER]]
    ensures WriteSections(TwoSections(series, [SHORTER]), at, [[LONGER], EDIT], at.texts)
         == Some([Header(series), "", SHORTER, "x0", "", SHORTER, "", "---"])
  {
    var theirs, t := TwoSections(series, [SHORTER]), at.texts;
    var o, edits := [[LONGER], EDIT], map[SHORTER := EDIT];
    var out := [Header(series), "", SHORTER, "x0", "", SHORTER, "", "---"];
    ExampleEdits();
    ExampleFound(series);
    hide IndexOf, Splice, EditsOf, ChangedOf, Header, TwoSections, TextFor;
    assert [SHORTER][1..] == [];
    assert PutEdits(out, 2, [], edits, t) == Some(out);
    assert PutEdits(theirs, 2, [SHORTER], edits, t) == Some(out);
    assert t[1..] == [[SHORTER]] && t[1..][1..] == [];
    assert DropAll(out, 2, [], o, t, edits) == Some(out);
    assert !Dropped(o, t, edits, [SHORTER]) && !Dropped(o, t, edits, [LONGER]);
    assert DropAll(out, 2, [[SHORTER]], o, t, edits) == Some(out);
    assert DropAll(out, 2, t, o, t, edits) == Some(out);
    FilterNone([EDIT], (b: Text) => HeadOf(b) !in edits);
    assert out[..2] + [] + out[2..] == out;
  }

  /**
   * Without `Plain` the merge can lose a section no side touched: the text of an edited section is searched for, and a
   * heading that is the start of another section's heading is found there first.
   */
  lemma {:induction false} EditHitsAnotherSection(series: nat)
    ensures var ours, theirs := TwoSections(series, EDIT), TwoSections(series, [SHORTER]);
            var o, t := TextsIn(ours, series), TextsIn(theirs, series);
            && UniqueHeads(o) && UniqueHeads(t) && MergeAt(t, o, t, LONGER) == Some(Some([LONGER]))
            && UnionSections(ours, theirs, theirs, series)
               == Some([Header(series), "", SHORTER, "x0", "", SHORTER, "", "---"])
  {
    var ours, theirs := TwoSections(series, EDIT), TwoSections(series, [SHORTER]);
    ExampleTexts();
    TwoSectionsRead(series, EDIT);
    TwoSectionsRead(series, [SHORTER]);
    ExampleEdits();
    ExampleWritten(series, ActiveSections(theirs, series).value);
    hide WriteSections, ActiveSections, TwoSections, Header, UniqueHeads, MergeAt, EditsOf, ChangedOf;
  }

  // ---------------------------------------------------------------------------------------------
  // A section without an empty line after it

  /** Sections of one line each, directly under each other. */
  function Dense(series: nat, heads: seq<Line>): seq<Line> { [Header(series), ""] + heads + ["---"] }

  function Singles(heads: seq<Line>): (r: seq<Text>)
    ensures |r| == |heads|
  {
    Map(heads, (l: Line) => [l])
  }

  lemma {:induction false} DenseAssembled(heads: seq<Line>)
    requires forall l :: l in heads ==> IsHeading(l)
    ensures Assemble(Singles(heads), Zeros(|heads|)) == heads && AreTexts(Singles(heads))
  {
    hide *;
    if heads == [] {
      NoneDense();
    } else {
      DenseAssembled(heads[1..]);
      DenseFirst(heads);
      AssembleFirst([heads[0]], Singles(heads[1..]), 0, Zeros(|heads| - 1));
      DenseJoin(heads);
    }
  }

  function Zeros(n: nat): (r: seq<nat>)
    ensures |r| == n
  {
    seq(n, _ => 0)
  }

  lemma {:induction false} NoneDense()
    ensures Assemble(Singles([]), Zeros(0)) == [] && AreTexts(Singles([]))
  {
  }

  lemma {:induction false} DenseFirst(heads: seq<Line>)
    requires heads != [] && IsHeading(heads[0])
    ensures Singles(heads) == [[heads[0]]] + Singles(heads[1..]) && Zeros(|heads|) == [0] + Zeros(|heads| - 1)
    ensures AreTexts(Singles(heads[1..])) ==> AreTexts(Singles(heads))
  {
    HeadingIsNoRule("");
    assert IsText([heads[0]]);
    hide IsHeading, IsText;
    assert Singles(heads) == [[heads[0]]] + Singles(heads[1..]);
  }

  lemma {:induction false} DenseJoin(heads: seq<Line>)
    requires heads != []
    ensures [heads[0]] + Blanks(0) + heads[1..] == heads
  {
    NoBlanks();
  }

  lemma {:induction false} DenseEnds(series: nat, heads: seq<Line>)
    requires heads != [] && forall l :: l in heads ==> IsHeading(l)
    ensures EndsAt(Dense(series, heads), series, 0, 2, 2 + |heads|)
    ensures Dense(series, heads)[2..2 + |heads|] == heads
  {
    var file := Dense(series, heads);
    HeaderIsPlain(series);
    forall l | l in heads ensures !IsRule(l) {
      HeadingIsNoRule(l);
    }
    HeadingIsNoRule("");
    assert IsRule("---");
    hide IsHeading, IsRule, HoldsHeader, Header;
    assert forall i :: 2 <= i < 2 + |heads| ==> file[i] == heads[i - 2];
  }

  lemma {:induction false} DenseRead(series: nat, heads: seq<Line>)
    requires heads != [] && forall l :: l in heads ==> IsHeading(l)
    ensures var s := ActiveSections(Dense(series, heads), series);
            s.Some? && s.value.at == 2 && s.value.texts == Singles(heads)
  {
    hide *;
    DenseEnds(series, heads);
    EndsRead(Dense(series, heads), series, 0, 2, 2 + |heads|);
    DenseAssembled(heads);
    AllAreTexts(Singles(heads));
    ReadAssembled(Singles(heads), Zeros(|heads|));
  }

  /** A text that ends with an empty line is not in a file that has none. */
  lemma {:induction false} NotFound(lines: seq<Line>, t: Text, from: nat)
    requires t != [] && from <= |lines| && forall i :: from <= i < |lines| ==> lines[i] != ""
    ensures IndexOf(lines, t + ["", ""], from) == None
  {
    var q := IndexOf(lines, t + ["", ""], from);
    if q.Some? {
      EndsEmpty(lines, t, q.value);
    }
  }

  lemma {:induction false} EndsEmpty(lines: seq<Line>, t: Text, p: Place)
    requires t != [] && TextAt(lines, t + ["", ""], p)
    ensures p.line + |t| < |lines| && lines[p.line + |t|] == ""
  {
    var needle, n := t + ["", ""], |t| + 1;
    assert needle[1..n][n - 2] == "";
    assert lines[p.line + 1..p.line + n][n - 2] == lines[p.line + n - 1];
  }

  /** Without `Spaced` a section the branch deleted is not found, and the merge refuses although nothing conflicts. */
  lemma {:induction false} DeletionNeedsEmptyLine(series: nat)
    ensures var theirs, ours := Dense(series, [LONGER, SHORTER]), Dense(series, [SHORTER]);
            var o, t := TextsIn(ours, series), TextsIn(theirs, series);
            && o == [[SHORTER]] && t == [[LONGER], [SHORTER]] && (forall g :: MergeAt(t, o, t, g).Some?)
            && UnionSections(ours, theirs, theirs, series) == None
  {
    var theirs, ours := Dense(series, [LONGER, SHORTER]), Dense(series, [SHORTER]);
    assert IsHeading(LONGER) && IsHeading(SHORTER);
    DenseRead(series, [LONGER, SHORTER]);
    DenseRead(series, [SHORTER]);
    assert Singles([LONGER, SHORTER]) == [[LONGER], [SHORTER]] && Singles([SHORTER]) == [[SHORTER]];
    hide *;
    TextsAre(theirs, series);
    TextsAre(ours, series);
    AncestorIsBase([[SHORTER]], [[LONGER], [SHORTER]]);
    DenseRefused(series, ActiveSections(theirs, series).value);
    UnionParts(ours, theirs, theirs, series);
  }

  lemma {:induction false} AncestorIsBase(o: seq<Text>, t: seq<Text>)
    ensures forall g :: MergeAt(t, o, t, g).Some?
  {
    hide ByHead;
  }

  lemma {:induction false} DenseRefused(series: nat, s: Sections)
    requires s.at == 2 && s.texts == [[LONGER], [SHORTER]]
    ensures WriteSections(Dense(series, [LONGER, SHORTER]), s, [[SHORTER]], s.texts) == None
  {
    var theirs, o, t := Dense(series, [LONGER, SHORTER]), [[SHORTER]], s.texts;
    assert |LONGER| != |SHORTER|;
    FilterNone(o, (b: Text) => b !in t && b !in t);
    assert EditsOf([], t, t) == Some(Edits([], map[]));
    assert PutEdits(theirs, 2, [], map[], t) == Some(theirs);
    hide Header;
    assert theirs == [Header(series), "", LONGER, SHORTER, "---"];
    NotFound(theirs, [LONGER], 2);
    hide IndexOf, Splice;
    assert Dropped(o, t, map[], [LONGER]);
  }

  // ---------------------------------------------------------------------------------------------
  // The first version of a series

  /** A series that has Unreleased lines and no version yet. */
  function Young(series: nat): seq<Line> { [Header(series), "", UNRELEASED, "- x", "", "---"] }

  const FIRST: Text := ["### v1.0.0", "- y"]

  /** The same with its first version. */
  function Grown(series: nat): seq<Line> { [Header(series), "", UNRELEASED, "- x", ""] + FIRST + ["", "---"] }

  lemma {:induction false} ExampleSigns(series: nat)
    ensures IsText(FIRST) && NoRules([FIRST]) && IsRule("---") && !IsHeading("---") && IsHeading(FIRST[0])
    ensures !IsHeading("") && !IsRule("") && !IsHeading("- x") && !IsRule("- x") && !IsHeading("- y") && !IsRule("- y")
    ensures !IsHeading(UNRELEASED) && !IsRule(UNRELEASED) && !IsRule(FIRST[0])
  {
    UnreleasedIsNoHeading();
    HeadingIsNoRule("");
    HeadingIsNoRule(FIRST[0]);
    RuleSign(UNRELEASED);
    assert "- x"[..3] == "- x" && "- x"[1] == ' ' && "- y"[..3] == "- y" && "- y"[1] == ' ';
    HeadingSign("- x");
    HeadingSign("- y");
    assert forall t, l :: t in [FIRST] && l in t ==> l == FIRST[0] || l == "- y";
  }

  lemma {:induction false} YoungReads(series: nat)
    ensures var y := Young(series);
            && ActiveSections(y, series).Some? && HeaderLine(y, series) == 0 && TextsIn(y, series) == []
            && ActiveSections(y, series).value.at == 1 && !OnlyEmpty(y, 1)
  {
    var y := Young(series);
    HeaderIsPlain(series);
    ExampleSigns(series);
    hide IsHeading, IsRule, HoldsHeader, Header;
    assert EndsAt(y, series, 0, 5, 5);
    EndsRead(y, series, 0, 5, 5);
    TextsAre(y, series);
    NoSections(y, series);
    FindFromIs(y, IsRule, 1, 5);
    assert y[2] == UNRELEASED != "";
  }

  lemma {:induction false} GrownReads(series: nat)
    ensures ActiveSections(Grown(series), series).Some? && TextsIn(Grown(series), series) == [FIRST]
  {
    var g := Grown(series);
    HeaderIsPlain(series);
    ExampleSigns(series);
    NoBlanks();
    AssembleFirst(FIRST, [], 1, []);
    AssembleNone();
    assert [FIRST] + [] == [FIRST] && [1] + [] == [1];
    assert Assemble([FIRST], [1]) == FIRST + [""];
    ReadAssembled([FIRST], [1]);
    hide IsHeading, IsRule, HoldsHeader, Header, Assemble, TextsOf, BlanksOf;
    assert EndsAt(g, series, 0, 5, 8);
    EndsRead(g, series, 0, 5, 8);
    TextsAre(g, series);
    assert g[5..8] == FIRST + [""];
  }

  /**
   * The branch cuts the first version of the series. The base has Unreleased lines there, and the section is written above
   * them: they become part of it, the section for the Unreleased lines is gone, and the gate refuses the file.
   */
  lemma {:induction false} FirstSectionTakesUnreleased(series: nat, versions: seq<Version>)
    ensures var theirs, ours := Young(series), Grown(series);
            var o, r := TextsIn(ours, series), UnionSections(ours, theirs, theirs, series);
            && r == Some([Header(series), "### v1.0.0", "- y", "", "", UNRELEASED, "- x", "", "---"])
            && MergeAt([], o, [], FIRST[0]) == Some(Some(FIRST))
            && !IsMerge(TextsIn(r.value, series), o, [], []) && UnreleasedLines(r.value, series) == []
            && R.NoUnreleased in R.LayoutViolations(r.value, series, versions)
  {
    hide *;
    var theirs, ours, o := Young(series), Grown(series), [FIRST];
    YoungReads(series);
    GrownReads(series);
    ExampleLines(series);
    FirstIsText(series);
    FirstChanged();
    var e := FirstEdits();
    FirstWritten(ours, theirs, theirs, series, e);
    FirstFile(series);
    TextsAre(theirs, series);
    FirstIsRead(theirs, series, o);
    MergedIsMerge(o, [], [], e);
    var out := WithFirst(theirs, 1, o);
    FirstIsMergeIff(theirs, 1, o, o, [], TextsIn(out, series));
    FirstAlone();
    MergeHas(o, o, [], [], FIRST[0]);
    NoneUnreleased(theirs, series, o);
    NoSection(out, series);
    GateRefuses(out, series, versions);
  }

  lemma {:induction false} FirstIsText(series: nat)
    ensures AreTexts([FIRST]) && NoRules([FIRST]) && Young(series)[0] == Header(series) && |Young(series)| == 6
  {
    ExampleSigns(series);
    hide IsText, Header;
  }

  lemma {:induction false} FirstChanged()
    ensures ChangedOf([FIRST], [], []) == [FIRST] && UniqueHeads([FIRST]) && UniqueHeads([])
  {
    FilterAll([FIRST], (b: Text) => b !in [] && b !in []);
    hide HeadOf;
  }

  lemma {:induction false} FirstEdits() returns (e: Edits)
    ensures EditsOf(ChangedOf([FIRST], [], []), [], []) == Some(e)
  {
    EditsAre(ChangedOf([FIRST], [], []), [], []);
    hide ChangedOf, EditsOf, AreEdits;
    e := EditsOf(ChangedOf([FIRST], [], []), [], []).value;
  }

  lemma {:induction false} FirstFile(series: nat)
    ensures WithFirst(Young(series), 1, [FIRST])
         == [Header(series), "### v1.0.0", "- y", "", "", UNRELEASED, "- x", "", "---"]
  {
    hide Header;
    assert Spread([FIRST]) == FIRST + [""] by {
      SpreadFirst([FIRST]);
    }
    assert Young(series)[..1] == [Header(series)] && Young(series)[1..] == ["", UNRELEASED, "- x", "", "---"];
  }

  lemma {:induction false} MergeHas(m: seq<Text>, o: seq<Text>, t: seq<Text>, a: seq<Text>, g: Line)
    requires IsMerge(m, o, t, a)
    ensures MergeAt(a, o, t, g) == Some(ByHead(m, g))
  {
    hide MergeAt, ByHead, UniqueHeads;
  }

  lemma {:induction false} FirstAlone()
    ensures FIRST != [] && ByHead([FIRST], FIRST[0]) == Some(FIRST)
  {
  }

  lemma {:induction false} GateRefuses(out: seq<Line>, series: nat, versions: seq<Version>)
    requires HeaderLine(out, series) == 0 && |out| > 1 && out[1] != ""
    ensures R.NoUnreleased in R.LayoutViolations(out, series, versions)
  {
    hide HeaderLine, IsRule;
    var lines := R.SectionLines(out, series);
    assert |lines| >= 2 ==> lines[1] == out[1];
  }
}
