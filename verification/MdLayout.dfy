/**
 * The version sections of CHANGELOG.md as text: where a section is found, and when replacing it or cutting it out does
 * what it is meant to.
 */
module MdLayout {
  import opened ChangelogMd
  import opened MdMerge
  import opened Seqs
  import opened Texts

  // ---------------------------------------------------------------------------------------------
  // Where a section is found

  predicate UniqueHeads(ts: seq<Text>) { Distinct(Map(ts, HeadOf)) }

  /** A heading stands in no line of the file but its own. */
  ghost predicate Plain(ts: seq<Text>, heads: seq<Text>) {
    forall t, l, h :: t in ts && l in t && h in heads && Contains(l, HeadOf(h)) ==> l == HeadOf(h)
  }

  ghost predicate AreTexts(ts: seq<Text>) { forall t :: t in ts ==> IsText(t) }

  /** The sections over their empty lines, between the rest of the file. */
  function Laid(front: seq<Line>, lead: nat, texts: seq<Text>, blanks: seq<nat>, back: seq<Line>): seq<Line>
    requires |texts| == |blanks|
  {
    front + Blanks(lead) + Assemble(texts, blanks) + back
  }

  lemma {:induction false} FirstPlace(lines: seq<Line>, needle: Text, from: nat, k: nat)
    requires from <= k < |lines| && TextAt(lines, needle, Place(k, 0))
    requires forall i :: from <= i < k ==> !Contains(lines[i], needle[0])
    ensures IndexOf(lines, needle, from) == Some(Place(k, 0))
  {
    assert NotAfter(Place(from, 0), Place(k, 0));
    var p := IndexOf(lines, needle, from).value;
    TextHolds(lines, needle, p);
    hide TextAt, Contains;
    assert NotAfter(p, Place(k, 0));
  }

  lemma {:induction false} TextHolds(lines: seq<Line>, needle: Text, p: Place)
    requires TextAt(lines, needle, p)
    ensures p.line < |lines| && Contains(lines[p.line], needle[0])
  {
    assert StartsWith(lines[p.line][p.column..], needle[0]);
  }

  lemma {:induction false} AssembleConcat(a: seq<Text>, m: seq<nat>, b: seq<Text>, n: seq<nat>)
    requires |a| == |m| && |b| == |n|
    ensures Assemble(a + b, m + n) == Assemble(a, m) + Assemble(b, n)
  {
    if a == [] {
      assert a + b == b && m + n == n;
    } else {
      AssembleConcat(a[1..], m[1..], b, n);
      assert a + b == [a[0]] + (a[1..] + b) && m + n == [m[0]] + (m[1..] + n);
      AssembleFirst(a[0], a[1..] + b, m[0], m[1..] + n);
    }
  }

  /** The sections before and after number `j`. */
  lemma {:induction false} AssembleAt(texts: seq<Text>, blanks: seq<nat>, j: nat)
    requires |texts| == |blanks| && j < |texts|
    ensures Assemble(texts, blanks)
         == Assemble(texts[..j], blanks[..j]) + (texts[j] + Blanks(blanks[j]) + Assemble(texts[j + 1..], blanks[j + 1..]))
  {
    hide Assemble;
    assert texts == texts[..j] + ([texts[j]] + texts[j + 1..]);
    assert blanks == blanks[..j] + ([blanks[j]] + blanks[j + 1..]);
    AssembleConcat(texts[..j], blanks[..j], [texts[j]] + texts[j + 1..], [blanks[j]] + blanks[j + 1..]);
    AssembleFirst(texts[j], texts[j + 1..], blanks[j], blanks[j + 1..]);
  }

  lemma {:induction false} AssembleNone()
    ensures Assemble([], []) == []
  {
  }

  lemma {:induction false} NoBlanks()
    ensures Blanks(0) == [] && Blanks(1) == [""]
  {
  }

  lemma {:induction false} HeadingIsNoRule(l: Line)
    ensures IsHeading(l) ==> !IsRule(l)
    ensures !IsRule("") && !IsHeading("")
  {
    HeadingSign(l);
    RuleSign(l);
    HeadingSign("");
    RuleSign("");
    hide IsHeading, IsRule;
  }

  lemma {:induction false} HeadingSign(l: Line)
    ensures IsHeading(l) ==> l != "" && l[0] == '#'
  {
    assert IsHeading(l) ==> l[0] == l[..5][0];
  }

  lemma {:induction false} RuleSign(l: Line)
    ensures IsRule(l) ==> l != "" && l[0] == '-'
  {
    assert IsRule(l) ==> l[0] == l[..3][0];
  }

  lemma {:induction false} LinesOf(texts: seq<Text>, blanks: seq<nat>)
    requires |texts| == |blanks|
    ensures forall l :: l in Assemble(texts, blanks) ==> l == "" || exists t :: t in texts && l in t
  {
    if texts != [] {
      LinesOf(texts[1..], blanks[1..]);
      forall l | l in Assemble(texts, blanks) ensures l == "" || exists t :: t in texts && l in t {
        if l in texts[0] {
          assert texts[0] in texts;
        } else if l in Assemble(texts[1..], blanks[1..]) && l != "" {
          var t :| t in texts[1..] && l in t;
          assert t in texts;
        }
      }
    }
  }

  lemma {:induction false} HeadsApart(texts: seq<Text>, i: nat, j: nat)
    requires UniqueHeads(texts) && i < j < |texts|
    ensures HeadOf(texts[i]) != HeadOf(texts[j])
  {
    assert Map(texts, HeadOf)[i] != Map(texts, HeadOf)[j];
  }

  /** No line of other sections shows the heading. */
  lemma {:induction false} NoneElsewhere(part: seq<Text>, slots: seq<nat>, texts: seq<Text>, heads: seq<Text>, h: Text)
    requires |part| == |slots| && AreTexts(texts) && Plain(texts, heads) && h in heads && IsText(h)
    requires forall x :: x in part ==> x in texts && HeadOf(x) != HeadOf(h)
    ensures forall l :: l in Assemble(part, slots) ==> !Contains(l, HeadOf(h))
  {
    LinesOf(part, slots);
    NotInEmpty(HeadOf(h));
    hide Contains, IsHeading;
    forall l | l in Assemble(part, slots) ensures !Contains(l, HeadOf(h)) {
      if t: Text :| t in part && l in t {
        assert t in texts && IsText(t);
      }
    }
  }

  /** The other sections have other headings. */
  lemma {:induction false} OtherHeads(texts: seq<Text>, j: nat)
    requires UniqueHeads(texts) && j < |texts|
    ensures forall x :: x in texts[..j] || x in texts[j + 1..] ==> x in texts && HeadOf(x) != HeadOf(texts[j])
  {
    hide HeadOf;
    forall x | x in texts[..j] || x in texts[j + 1..] ensures x in texts && HeadOf(x) != HeadOf(texts[j]) {
      var i :| 0 <= i < |texts| && i != j && texts[i] == x;
      OtherHead(texts, i, j);
    }
  }

  lemma {:induction false} NotInEmpty(g: Line)
    requires IsHeading(g)
    ensures !Contains("", g)
  {
  }

  lemma {:induction false} SpliceWhole(pre: seq<Line>, t: Text, post: seq<Line>, b: Text)
    requires t != [] && b != []
    ensures var lines, p := pre + t + post, Place(|pre|, 0);
            TextAt(lines, t, p) && Splice(lines, t, p, b) == pre + b + post
  {
    var lines, n := pre + t + post, |t| - 1;
    var at := |pre|;
    hide Glue;
    GlueWhole(b);
    assert lines[at] == t[0] && lines[at + n] == t[n];
    assert t[0][0..] == t[0] && t[0][..0] == "" && t[n][|t[n]|..] == "";
    assert lines[..at] == pre && lines[at + n + 1..] == post;
    if n > 0 {
      assert lines[at + 1..at + n] == t[1..n];
    }
  }

  lemma {:induction false} GlueWhole(b: Text)
    requires b != []
    ensures Glue("", b, "") == b
  {
    assert forall l: Line :: "" + l + "" == l && "" + l == l && l + "" == l;
  }

  /** A section is cut out with the empty line after it. */
  lemma {:induction false} SpliceDrop(pre: seq<Line>, t: Text, post: seq<Line>)
    requires t != [] && |post| >= 2 && post[0] == ""
    ensures var lines, p, needle := pre + t + post, Place(|pre|, 0), t + ["", ""];
            TextAt(lines, needle, p) && Splice(lines, needle, p, [""]) == pre + post[1..]
  {
    var lines, needle := pre + t + post, t + ["", ""];
    var n := |needle| - 1;
    assert lines[|pre|] == t[0] && needle[0] == t[0] && t[0][0..] == t[0];
    assert lines[|pre| + n] == post[1] && post[1][..0] == "" && post[1][0..] == post[1];
    assert lines[|pre| + 1..|pre| + n] == t[1..] + [""] == needle[1..n];
    assert lines[..|pre|] == pre && lines[|pre| + n + 1..] == post[2..];
    assert "" + "" + post[1] == post[1];
    assert post[1..] == [post[1]] + post[2..];
  }

  /** The file before section `j`. */
  function Before(front: seq<Line>, lead: nat, texts: seq<Text>, blanks: seq<nat>, j: nat): seq<Line>
    requires |texts| == |blanks| && j < |texts|
  {
    front + Blanks(lead) + Assemble(texts[..j], blanks[..j])
  }

  /** The file after section `j`. */
  function After(texts: seq<Text>, blanks: seq<nat>, back: seq<Line>, j: nat): seq<Line>
    requires |texts| == |blanks| && j < |texts|
  {
    Blanks(blanks[j]) + Assemble(texts[j + 1..], blanks[j + 1..]) + back
  }

  lemma {:induction false} LaidAt(front: seq<Line>, lead: nat, texts: seq<Text>, blanks: seq<nat>, back: seq<Line>, j: nat)
    requires |texts| == |blanks| && j < |texts|
    ensures Laid(front, lead, texts, blanks, back)
         == Before(front, lead, texts, blanks, j) + texts[j] + After(texts, blanks, back, j)
  {
    AssembleAt(texts, blanks, j);
    hide Assemble, Blanks;
  }

  lemma {:induction false} ReplacedAt(front: seq<Line>, lead: nat, texts: seq<Text>, blanks: seq<nat>, back: seq<Line>,
                                      j: nat, b: Text)
    requires |texts| == |blanks| && j < |texts|
    ensures Before(front, lead, texts, blanks, j) + b + After(texts, blanks, back, j)
         == Laid(front, lead, texts[j := b], blanks, back)
  {
    hide Assemble, Blanks;
    var r := texts[j := b];
    assert r[..j] == texts[..j] && r[j + 1..] == texts[j + 1..];
    LaidAt(front, lead, r, blanks, back, j);
  }

  /** A text that starts with the heading of section `j`, and is there, is found there. */
  lemma {:induction false} FoundAt(front: seq<Line>, lead: nat, texts: seq<Text>, blanks: seq<nat>, back: seq<Line>, j: nat,
                                   heads: seq<Text>, needle: Text)
    requires |texts| == |blanks| && j < |texts|
    requires AreTexts(texts) && UniqueHeads(texts) && Plain(texts, heads) && texts[j] in heads
    requires var k := |Before(front, lead, texts, blanks, j)|;
             TextAt(Laid(front, lead, texts, blanks, back), needle, Place(k, 0)) && needle[0] == HeadOf(texts[j])
    ensures var k := |Before(front, lead, texts, blanks, j)|;
            IndexOf(Laid(front, lead, texts, blanks, back), needle, |front|) == Some(Place(k, 0))
  {
    var out, pre := Laid(front, lead, texts, blanks, back), Before(front, lead, texts, blanks, j);
    LaidAt(front, lead, texts, blanks, back, j);
    assert texts[j] in texts && IsText(texts[j]);
    OtherHeads(texts, j);
    NoneElsewhere(texts[..j], blanks[..j], texts, heads, texts[j]);
    NotInEmpty(needle[0]);
    var sections := Assemble(texts[..j], blanks[..j]);
    hide Contains, Assemble, IsText, TextAt, Plain, UniqueHeads, HeadOf, Laid;
    forall i | |front| <= i < |pre| ensures !Contains(out[i], needle[0]) {
      assert out[i] == pre[i];
      if i < |front| + lead {
        assert pre[i] == Blanks(lead)[i - |front|];
      } else {
        assert pre[i] == sections[i - |front| - lead];
      }
    }
    FirstPlace(out, needle, |front|, |pre|);
  }

  /** The search finds the section itself, and the edit takes its place. */
  lemma {:induction false} EditInPlace(front: seq<Line>, lead: nat, texts: seq<Text>, blanks: seq<nat>, back: seq<Line>,
                                       j: nat, heads: seq<Text>, b: Text) returns (p: Place)
    requires |texts| == |blanks| && j < |texts| && b != []
    requires AreTexts(texts) && UniqueHeads(texts) && Plain(texts, heads) && texts[j] in heads
    ensures var out := Laid(front, lead, texts, blanks, back);
            && IndexOf(out, texts[j], |front|) == Some(p) && TextAt(out, texts[j], p)
            && Splice(out, texts[j], p, b) == Laid(front, lead, texts[j := b], blanks, back)
  {
    assert texts[j] in texts && IsText(texts[j]);
    var pre, post := Before(front, lead, texts, blanks, j), After(texts, blanks, back, j);
    p := Place(|pre|, 0);
    LaidAt(front, lead, texts, blanks, back, j);
    ReplacedAt(front, lead, texts, blanks, back, j, b);
    SpliceWhole(pre, texts[j], post, b);
    assert HeadOf(texts[j]) == texts[j][0];
    hide *;
    FoundAt(front, lead, texts, blanks, back, j, heads, texts[j]);
  }

  // ---------------------------------------------------------------------------------------------
  // Edits

  function EditedBy(texts: seq<Text>, order: seq<Line>, edits: map<Line, Text>): seq<Text> {
    Map(texts, (x: Text) => if HeadOf(x) in order && HeadOf(x) in edits then edits[HeadOf(x)] else x)
  }

  function Position(texts: seq<Text>, x: Text): (j: nat)
    ensures j <= |texts| && (j < |texts| <==> x in texts) && (j < |texts| ==> texts[j] == x)
  {
    FindFrom(texts, (y: Text) => y == x, 0)
  }

  /** The edits of `order` belong to sections that are still the base's. */
  ghost predicate CanPut(order: seq<Line>, edits: map<Line, Text>, texts: seq<Text>, t: seq<Text>) {
    && Distinct(order)
    && forall g :: g in order ==>
         && g in edits && IsText(edits[g]) && HeadOf(edits[g]) == g
         && HasHead(t, g) && TextFor(t, g) in texts && edits[g] != TextFor(t, g)
  }

  /** The first place of the text of section `j` is the section itself. */
  predicate IsHome(front: seq<Line>, lead: nat, texts: seq<Text>, blanks: seq<nat>, back: seq<Line>, j: nat)
    requires |texts| == |blanks| && j < |texts|
  {
    var out := Laid(front, lead, texts, blanks, back);
    |front| <= |out| && IndexOf(out, texts[j], |front|) == Some(Place(|Before(front, lead, texts, blanks, j)|, 0))
  }

  /** So it is for every edit, in the file with the edits before it in place. */
  predicate AllHome(front: seq<Line>, lead: nat, texts: seq<Text>, blanks: seq<nat>, back: seq<Line>, order: seq<Line>,
                    edits: map<Line, Text>, t: seq<Text>)
    requires |texts| == |blanks|
    decreases |order|
  {
    order != [] ==>
      var g := order[0];
      var j := Position(texts, TextFor(t, g));
      && j < |texts| && g in edits && IsHome(front, lead, texts, blanks, back, j)
      && AllHome(front, lead, texts[j := edits[g]], blanks, back, order[1..], edits, t)
  }

  /** Section `j` gives way to its edit; nothing else of what the next edits need changes. */
  lemma {:induction false} CanPutNext(order: seq<Line>, edits: map<Line, Text>, texts: seq<Text>, t: seq<Text>, j: nat)
    requires order != [] && CanPut(order, edits, texts, t) && j < |texts| && texts[j] == TextFor(t, order[0])
    requires AreTexts(texts) && UniqueHeads(texts)
    ensures var r := texts[j := edits[order[0]]];
            && AreTexts(r) && UniqueHeads(r) && CanPut(order[1..], edits, r, t)
    ensures forall i: nat :: 1 <= i <= |order| ==>
              EditedBy(texts[j := edits[order[0]]], order[1..][..i - 1], edits) == EditedBy(texts, order[..i], edits)
  {
    var g, rest := order[0], order[1..];
    assert order == [g] + rest;
    var b := edits[g];
    var r := texts[j := b];
    assert HeadOf(texts[j]) == g == HeadOf(b);
    hide IsText, ByHead, HeadOf, HasHead;
    assert forall i :: 0 <= i < |r| ==> HeadOf(r[i]) == HeadOf(texts[i]);
    assert Map(r, HeadOf) == Map(texts, HeadOf);
    assert forall x :: x in r ==> x == b || x in texts;
    DistinctConcat([g], rest);
    forall f | f in rest ensures TextFor(t, f) in r {
      assert f in order && HeadOf(TextFor(t, f)) == f != g;
      var i :| 0 <= i < |texts| && texts[i] == TextFor(t, f);
      assert r[i] == texts[i];
    }
    hide CanPut;
    forall i: nat | 1 <= i <= |order| ensures EditedBy(r, rest[..i - 1], edits) == EditedBy(texts, order[..i], edits) {
      assert order[..i] == [g] + rest[..i - 1];
      EditedNext(texts, rest[..i - 1], edits, j, g);
    }
  }

  lemma {:induction false} EditedNext(texts: seq<Text>, rest: seq<Line>, edits: map<Line, Text>, j: nat, g: Line)
    requires j < |texts| && UniqueHeads(texts) && g in edits && HeadOf(texts[j]) == HeadOf(edits[g]) == g && g !in rest
    ensures EditedBy(texts[j := edits[g]], rest, edits) == EditedBy(texts, [g] + rest, edits)
  {
    hide HeadOf;
    forall i | 0 <= i < |texts|
      ensures EditedBy(texts[j := edits[g]], rest, edits)[i] == EditedBy(texts, [g] + rest, edits)[i]
    {
      if i != j {
        OtherHead(texts, i, j);
      }
    }
  }

  lemma {:induction false} OtherHead(texts: seq<Text>, i: nat, j: nat)
    requires UniqueHeads(texts) && i < |texts| && j < |texts| && i != j
    ensures HeadOf(texts[i]) != HeadOf(texts[j])
  {
    if i < j {
      HeadsApart(texts, i, j);
    } else {
      HeadsApart(texts, j, i);
    }
  }

  /** The search always finds something, and over the section itself the edit takes the section's place. */
  lemma {:induction false} EditFound(front: seq<Line>, lead: nat, texts: seq<Text>, blanks: seq<nat>, back: seq<Line>,
                                     j: nat, b: Text) returns (p: Place)
    requires |texts| == |blanks| && j < |texts| && b != [] && IsText(texts[j])
    ensures var out, k := Laid(front, lead, texts, blanks, back), |Before(front, lead, texts, blanks, j)|;
            && |front| <= k < |out| && IndexOf(out, texts[j], |front|) == Some(p) && TextAt(out, texts[j], p)
            && |front| <= p.line && NotAfter(p, Place(k, 0))
            && (p == Place(k, 0) ==> Splice(out, texts[j], p, b) == Laid(front, lead, texts[j := b], blanks, back))
  {
    var pre, post := Before(front, lead, texts, blanks, j), After(texts, blanks, back, j);
    LaidAt(front, lead, texts, blanks, back, j);
    ReplacedAt(front, lead, texts, blanks, back, j, b);
    SpliceWhole(pre, texts[j], post, b);
    var out := Laid(front, lead, texts, blanks, back);
    assert NotAfter(Place(|front|, 0), Place(|pre|, 0));
    hide Laid, TextAt, Splice, IsText, Assemble, After;
    p := IndexOf(out, texts[j], |front|).value;
  }

  /** Two files that end alike have their last sections at the same line. */
  lemma {:induction false} LastHeading(x: seq<Line>, was: Text, pre: seq<Line>, b: Text)
    requires x + was == pre + b && IsText(was) && IsText(b)
    ensures was == b
  {
    NotLater(x, was, pre, b);
    NotLater(pre, b, x, was);
    assert (x + was)[|x|..] == was && (pre + b)[|pre|..] == b;
  }

  lemma {:induction false} NotLater(x: seq<Line>, was: Text, pre: seq<Line>, b: Text)
    requires x + was == pre + b && IsText(was) && IsText(b)
    ensures |pre| <= |x|
  {
    assert (pre + b)[|pre|] == b[0];
    assert forall i :: |x| <= i < |x| + |was| ==> (x + was)[i] == was[i - |x|];
  }

  lemma {:induction false} SameEnd(a: seq<Line>, b: seq<Line>, c: seq<Line>)
    requires a + c == b + c
    ensures a == b
  {
    assert |a| == |b| && (a + c)[..|a|] == a && (b + c)[..|b|] == b;
  }

  /** Replacing the text of a section anywhere above it does not put the edit in its place. */
  lemma {:induction false} EditElsewhere(pre: seq<Line>, was: Text, post: seq<Line>, b: Text, p: Place)
    requires IsText(was) && IsText(b) && b[0] == was[0] && p.line < |pre|
    requires TextAt(pre + was + post, was, p) && Splice(pre + was + post, was, p, b) == pre + b + post
    ensures was == b
  {
    var n := |was| - 1;
    if p.line + n < |pre| {
      var x := AboveSection(pre, was, post, b, p);
      SameEnd(x + was, pre + b, post);
      LastHeading(x, was, pre, b);
    } else {
      OverSection(pre, was, post, b, p);
    }
  }

  lemma {:induction false} AboveSection(pre: seq<Line>, was: Text, post: seq<Line>, b: Text, p: Place) returns (x: seq<Line>)
    requires was != [] && TextAt(pre + was + post, was, p) && p.line + |was| <= |pre|
    ensures Splice(pre + was + post, was, p, b) == x + was + post
  {
    hide *;
    var glued := SpliceIs(pre + was + post, was, p, b);
    TailOf(pre, was, post, p.line + |was|);
    x := (pre + was + post)[..p.line] + glued + pre[p.line + |was|..];
    Around((pre + was + post)[..p.line] + glued, pre[p.line + |was|..], was, post);
  }

  lemma {:induction false} SpliceIs(lines: seq<Line>, was: Text, p: Place, b: Text) returns (glued: seq<Line>)
    requires TextAt(lines, was, p)
    ensures p.line + |was| <= |lines| && p.line < |lines|
    ensures Splice(lines, was, p, b) == lines[..p.line] + glued + lines[p.line + |was|..]
  {
    hide Glue;
    var n := |was| - 1;
    var last := lines[p.line + n];
    glued := Glue(lines[p.line][..p.column], b, last[(if n == 0 then p.column else 0) + |was[n]|..]);
  }

  lemma {:induction false} TailOf(pre: seq<Line>, was: Text, post: seq<Line>, k: nat)
    requires k <= |pre|
    ensures (pre + was + post)[k..] == pre[k..] + was + post
  {
  }

  lemma {:induction false} Around(a: seq<Line>, b: seq<Line>, was: Text, post: seq<Line>)
    ensures a + (b + was + post) == (a + b) + was + post
  {
  }

  /** The place runs into the section's own heading: then the edit says what the section says. */
  lemma {:induction false} OverSection(pre: seq<Line>, was: Text, post: seq<Line>, b: Text, p: Place)
    requires IsText(was) && IsText(b) && b[0] == was[0] && p.line < |pre| <= p.line + |was| - 1
    requires TextAt(pre + was + post, was, p) && Splice(pre + was + post, was, p, b) == pre + b + post
    ensures was == b
  {
    var lines, n := pre + was + post, |was| - 1;
    assert lines[|pre|] == was[0];
    OverEnd(lines, was, p, |pre|);
    var start, after := lines[p.line][..p.column], lines[|pre|][|was[n]|..];
    var glued := Glue(start, b, after);
    assert lines[|pre| + 1..] == was[1..] + post;
    assert Splice(lines, was, p, b) == lines[..p.line] + glued + (was[1..] + post);
    assert lines[..p.line] == pre[..p.line] && pre == pre[..p.line] + pre[p.line..];
    assert pre + b + post == pre[..p.line] + (pre[p.line..] + b + post);
    SameStartAndEnd(pre[..p.line], glued + was[1..], pre[p.line..] + b, post);
    forall i | 1 <= i < n ensures pre[p.line..][i] == was[i] {
      assert lines[p.line + 1..p.line + n][i - 1] == was[1..n][i - 1];
    }
    GluedIsSame(start, after, was, b, pre[p.line..]);
  }

  lemma {:induction false} SameStartAndEnd(a: seq<Line>, x: seq<Line>, y: seq<Line>, c: seq<Line>)
    requires a + x + c == a + (y + c)
    ensures x == y
  {
    assert (a + x + c)[|a|..] == x + c && (a + (y + c))[|a|..] == y + c;
    SameEnd(x, y, c);
  }

  /** Only the last line of the text can reach into a heading. */
  lemma {:induction false} OverEnd(lines: seq<Line>, was: Text, p: Place, k: nat)
    requires IsText(was) && TextAt(lines, was, p) && p.line < k <= p.line + |was| - 1 && lines[k] == was[0]
    ensures k == p.line + |was| - 1 && StartsWith(lines[k], was[|was| - 1])
  {
    if k < p.line + |was| - 1 {
      MiddleLine(lines, was, p, k);
    }
  }

  lemma {:induction false} MiddleLine(lines: seq<Line>, was: Text, p: Place, k: nat)
    requires TextAt(lines, was, p) && p.line < k < p.line + |was| - 1
    ensures lines[k] == was[k - p.line]
  {
    var n := |was| - 1;
    assert lines[p.line + 1..p.line + n][k - p.line - 1] == was[1..n][k - p.line - 1];
  }

  lemma {:induction false} GluedIsSame(start: Line, after: Line, was: Text, b: Text, own: seq<Line>)
    requires IsText(was) && IsText(b) && b[0] == was[0] && |own| == |was| - 1 >= 1
    requires StartsWith(was[0], was[|was| - 1]) && after == was[0][|was[|was| - 1]|..]
    requires forall i :: 1 <= i < |own| ==> own[i] == was[i]
    requires Glue(start, b, after) + was[1..] == own + b
    ensures was == b
  {
    var n, g := |was| - 1, Glue(start, b, after);
    assert |g| == |b|;
    assert (own + b)[n] == was[0];
    LateLine(g, was, n);
    assert g == [start + b[0]] + b[1..|b| - 1] + [b[|b| - 1] + after];
    assert n == |b| - 1 && b[n] + after == was[0];
    assert was[0] == was[n] + after;
    SamePrefix(b[n], was[n], after);
    forall i | 1 <= i < n ensures b[i] == was[i] {
      assert (g + was[1..])[i] == g[i] == b[i];
      assert (own + b)[i] == own[i];
    }
  }

  lemma {:induction false} LateLine(g: seq<Line>, was: Text, n: nat)
    requires IsText(was) && |was| == n + 1 && n >= 1 && 1 <= |g| && (g + was[1..])[n] == was[0]
    ensures n < |g|
  {
    assert forall i :: |g| <= i < |g| + n ==> (g + was[1..])[i] == was[1 + i - |g|];
  }

  lemma {:induction false} SamePrefix(a: Line, b: Line, c: Line)
    requires a + c == b + c
    ensures a == b
  {
    assert |a| == |b| && (a + c)[..|a|] == a && (b + c)[..|b|] == b;
  }

  /** One edit is written in its section's place exactly when the first place of the base's text is the section itself. */
  lemma {:induction false} EditIsHomeIff(front: seq<Line>, lead: nat, texts: seq<Text>, blanks: seq<nat>, back: seq<Line>,
                                         j: nat, b: Text) returns (p: Place)
    requires |texts| == |blanks| && j < |texts| && IsText(texts[j]) && IsText(b)
    requires HeadOf(b) == HeadOf(texts[j]) && b != texts[j]
    ensures var out := Laid(front, lead, texts, blanks, back);
            && |front| <= |out| && IndexOf(out, texts[j], |front|) == Some(p) && TextAt(out, texts[j], p)
            && (Splice(out, texts[j], p, b) == Laid(front, lead, texts[j := b], blanks, back)
                <==> IsHome(front, lead, texts, blanks, back, j))
  {
    p := EditFound(front, lead, texts, blanks, back, j, b);
    assert HeadOf(b) == b[0] && HeadOf(texts[j]) == texts[j][0];
    LaidAt(front, lead, texts, blanks, back, j);
    ReplacedAt(front, lead, texts, blanks, back, j, b);
    var pre, post := Before(front, lead, texts, blanks, j), After(texts, blanks, back, j);
    hide Laid, Before, After, Splice, TextAt, IsText, IndexOf, HeadOf;
    if p != Place(|pre|, 0) && Splice(pre + texts[j] + post, texts[j], p, b) == pre + b + post {
      EditElsewhere(pre, texts[j], post, b, p);
    }
  }

  /** The first `i` edits give the file with these sections edited. */
  ghost predicate LandsAt(front: seq<Line>, lead: nat, texts: seq<Text>, blanks: seq<nat>, back: seq<Line>, order: seq<Line>,
                          edits: map<Line, Text>, t: seq<Text>, i: nat)
    requires |texts| == |blanks|
  {
    && i <= |order| && |front| < |Laid(front, lead, texts, blanks, back)| && (forall g :: g in order[..i] ==> g in edits)
    && PutEdits(Laid(front, lead, texts, blanks, back), |front|, order[..i], edits, t)
       == Some(Laid(front, lead, EditedBy(texts, order[..i], edits), blanks, back))
  }

  /** Every edit lands on its section, one after the other, exactly when every search finds the section itself. */
  lemma {:induction false} EditsLandIff(front: seq<Line>, lead: nat, texts: seq<Text>, blanks: seq<nat>, back: seq<Line>,
                                        order: seq<Line>, edits: map<Line, Text>, t: seq<Text>)
    requires |texts| == |blanks| && AreTexts(texts) && UniqueHeads(texts) && CanPut(order, edits, texts, t)
    requires |front| < |Laid(front, lead, texts, blanks, back)|
    ensures AllLand(front, lead, texts, blanks, back, order, edits, t)
       <==> AllHome(front, lead, texts, blanks, back, order, edits, t)
    decreases |order|
  {
    NoneLand(front, lead, texts, blanks, back, order, edits, t);
    if order != [] {
      var g := order[0];
      var was, b, j := TextFor(t, g), edits[g], Position(texts, TextFor(t, g));
      assert was in texts && texts[j] in texts && IsText(b) && HeadOf(b) == HeadOf(was);
      CanPutNext(order, edits, texts, t, j);
      hide TextFor, HeadOf, HasHead, UniqueHeads, EditedBy, Laid, IsText, CanPut, Position;
      var p := EditIsHomeIff(front, lead, texts, blanks, back, j, b);
      OneLands(front, lead, texts, blanks, back, order, edits, t, j, p);
      hide IndexOf, Splice, TextAt, LandsAt, IsHome, AreTexts;
      if IsHome(front, lead, texts, blanks, back, j) {
        EditsLandIff(front, lead, texts[j := b], blanks, back, order[1..], edits, t);
        RestLands(front, lead, texts, texts[j := b], blanks, back, order, order[1..], edits, t);
      } else {
        NotAllLand(front, lead, texts, blanks, back, order, edits, t, 1);
      }
    }
  }

  /** Every edit lands: the first one, and then all others. */
  ghost predicate AllLand(front: seq<Line>, lead: nat, texts: seq<Text>, blanks: seq<nat>, back: seq<Line>, order: seq<Line>,
                          edits: map<Line, Text>, t: seq<Text>)
    requires |texts| == |blanks|
  {
    forall i: nat :: i <= |order| ==> LandsAt(front, lead, texts, blanks, back, order, edits, t, i)
  }

  lemma {:induction false} NotAllLand(front: seq<Line>, lead: nat, texts: seq<Text>, blanks: seq<nat>, back: seq<Line>,
                                      order: seq<Line>, edits: map<Line, Text>, t: seq<Text>, i: nat)
    requires |texts| == |blanks| && i <= |order| && !LandsAt(front, lead, texts, blanks, back, order, edits, t, i)
    ensures !AllLand(front, lead, texts, blanks, back, order, edits, t)
  {
    hide LandsAt;
  }

  lemma {:induction false} RestLands(front: seq<Line>, lead: nat, texts: seq<Text>, next: seq<Text>, blanks: seq<nat>,
                                     back: seq<Line>, order: seq<Line>, rest: seq<Line>, edits: map<Line, Text>, t: seq<Text>)
    requires |texts| == |next| == |blanks| && |order| == |rest| + 1
    requires LandsAt(front, lead, texts, blanks, back, order, edits, t, 0)
    requires forall i: nat :: 1 <= i <= |order| ==>
               (LandsAt(front, lead, texts, blanks, back, order, edits, t, i)
                <==> LandsAt(front, lead, next, blanks, back, rest, edits, t, i - 1))
    ensures AllLand(front, lead, texts, blanks, back, order, edits, t)
       <==> AllLand(front, lead, next, blanks, back, rest, edits, t)
  {
    hide LandsAt;
    if AllLand(front, lead, texts, blanks, back, order, edits, t) {
      forall i: nat | i <= |rest| ensures LandsAt(front, lead, next, blanks, back, rest, edits, t, i) {
        var k := i + 1;
        assert LandsAt(front, lead, texts, blanks, back, order, edits, t, k);
      }
    }
  }

  lemma {:induction false} NoneLand(front: seq<Line>, lead: nat, texts: seq<Text>, blanks: seq<nat>, back: seq<Line>,
                                    order: seq<Line>, edits: map<Line, Text>, t: seq<Text>)
    requires |texts| == |blanks| && |front| < |Laid(front, lead, texts, blanks, back)|
    ensures LandsAt(front, lead, texts, blanks, back, order, edits, t, 0)
  {
    hide Laid, HeadOf;
    assert order[..0] == [] && EditedBy(texts, [], edits) == texts;
  }

  /** The first edit lands exactly when its search finds the section, and then the rest go on from there. */
  lemma {:induction false} OneLands(front: seq<Line>, lead: nat, texts: seq<Text>, blanks: seq<nat>, back: seq<Line>,
                                    order: seq<Line>, edits: map<Line, Text>, t: seq<Text>, j: nat, p: Place)
    requires |texts| == |blanks| && j < |texts| && order != [] && order[0] in edits && texts[j] == TextFor(t, order[0])
    requires forall g :: g in order ==> g in edits
    requires |front| < |Laid(front, lead, texts, blanks, back)|
    requires forall i: nat :: 1 <= i <= |order| ==>
               EditedBy(texts[j := edits[order[0]]], order[1..][..i - 1], edits) == EditedBy(texts, order[..i], edits)
    requires var out := Laid(front, lead, texts, blanks, back);
             && IndexOf(out, texts[j], |front|) == Some(p) && TextAt(out, texts[j], p)
             && (Splice(out, texts[j], p, edits[order[0]]) == Laid(front, lead, texts[j := edits[order[0]]], blanks, back)
                 <==> IsHome(front, lead, texts, blanks, back, j))
    ensures LandsAt(front, lead, texts, blanks, back, order, edits, t, 1) <==> IsHome(front, lead, texts, blanks, back, j)
    ensures IsHome(front, lead, texts, blanks, back, j) ==>
              |front| < |Laid(front, lead, texts[j := edits[order[0]]], blanks, back)|
    ensures IsHome(front, lead, texts, blanks, back, j) ==> forall i: nat :: 1 <= i <= |order| ==>
              (LandsAt(front, lead, texts, blanks, back, order, edits, t, i)
               <==> LandsAt(front, lead, texts[j := edits[order[0]]], blanks, back, order[1..], edits, t, i - 1))
  {
    hide Laid, EditedBy, TextFor, TextAt, Splice;
    var out, b := Laid(front, lead, texts, blanks, back), edits[order[0]];
    var spliced := Splice(out, texts[j], p, b);
    assert |front| <= p.line && |spliced| > p.line by {
      SpliceLong(out, texts[j], p, b, |front|);
    }
    forall i: nat | 1 <= i <= |order|
      ensures order[..i][0] == order[0] && order[..i][1..] == order[1..][..i - 1]
      ensures PutEdits(out, |front|, order[..i], edits, t) == PutEdits(spliced, |front|, order[1..][..i - 1], edits, t)
    {
      assert order[..i][1..] == order[1..][..i - 1];
    }
    assert order[1..][..0] == [];
    assert EditedBy(texts, order[..1], edits) == texts[j := b] by {
      NoEdits(texts[j := b], edits);
    }
  }

  lemma {:induction false} NoEdits(texts: seq<Text>, edits: map<Line, Text>)
    ensures EditedBy(texts, [], edits) == texts
  {
    hide HeadOf;
  }

  lemma {:induction false} SpliceLong(out: seq<Line>, was: Text, p: Place, b: Text, from: nat)
    requires from <= |out| && IndexOf(out, was, from) == Some(p) && TextAt(out, was, p)
    ensures from <= p.line < |Splice(out, was, p, b)|
  {
  }

  /** With plain headings every search finds the section itself. */
  lemma {:induction false} PlainIsHome(front: seq<Line>, lead: nat, texts: seq<Text>, blanks: seq<nat>, back: seq<Line>,
                                       order: seq<Line>, edits: map<Line, Text>, t: seq<Text>, heads: seq<Text>)
    requires |texts| == |blanks| && AreTexts(texts) && UniqueHeads(texts) && Plain(texts, heads)
    requires CanPut(order, edits, texts, t)
    requires forall g :: g in order ==> TextFor(t, g) in heads && Plain([edits[g]], heads)
    ensures AllHome(front, lead, texts, blanks, back, order, edits, t)
    decreases |order|
  {
    if order != [] {
      var g := order[0];
      var j, b := Position(texts, TextFor(t, g)), edits[g];
      assert order == [g] + order[1..] && TextFor(t, g) in texts;
      CanPutNext(order, edits, texts, t, j);
      PlainEdited(texts, heads, j, b);
      hide TextFor, HeadOf, HasHead, UniqueHeads, Plain, AreTexts, Laid, IsText, CanPut, Position, EditedBy;
      HomeIsPlain(front, lead, texts, blanks, back, j, heads);
      hide IsHome;
      PlainIsHome(front, lead, texts[j := b], blanks, back, order[1..], edits, t, heads);
    }
  }

  lemma {:induction false} PlainEdited(texts: seq<Text>, heads: seq<Text>, j: nat, b: Text)
    requires j < |texts| && Plain(texts, heads) && Plain([b], heads)
    ensures Plain(texts[j := b], heads)
  {
    hide Contains, HeadOf;
    assert b in [b];
    assert forall x :: x in texts[j := b] ==> x == b || x in texts;
  }

  lemma {:induction false} HomeIsPlain(front: seq<Line>, lead: nat, texts: seq<Text>, blanks: seq<nat>, back: seq<Line>,
                                       j: nat, heads: seq<Text>)
    requires |texts| == |blanks| && j < |texts|
    requires AreTexts(texts) && UniqueHeads(texts) && Plain(texts, heads) && texts[j] in heads
    ensures IsHome(front, lead, texts, blanks, back, j)
  {
    assert texts[j] in texts && IsText(texts[j]);
    var pre, post := Before(front, lead, texts, blanks, j), After(texts, blanks, back, j);
    LaidAt(front, lead, texts, blanks, back, j);
    SpliceWhole(pre, texts[j], post, texts[j]);
    assert HeadOf(texts[j]) == texts[j][0] && |front| <= |Laid(front, lead, texts, blanks, back)|;
    hide *;
    FoundAt(front, lead, texts, blanks, back, j, heads, texts[j]);
    HomeIs(front, lead, texts, blanks, back, j);
  }

  lemma {:induction false} HomeIs(front: seq<Line>, lead: nat, texts: seq<Text>, blanks: seq<nat>, back: seq<Line>, j: nat)
    requires |texts| == |blanks| && j < |texts| && |front| <= |Laid(front, lead, texts, blanks, back)|
    requires IndexOf(Laid(front, lead, texts, blanks, back), texts[j], |front|)
          == Some(Place(|Before(front, lead, texts, blanks, j)|, 0))
    ensures IsHome(front, lead, texts, blanks, back, j)
  {
    hide Laid, IndexOf, Before;
  }

  lemma {:induction false} EditsLaid(front: seq<Line>, lead: nat, texts: seq<Text>, blanks: seq<nat>, back: seq<Line>,
                                     order: seq<Line>, edits: map<Line, Text>, t: seq<Text>)
    requires |texts| == |blanks| && AreTexts(texts) && UniqueHeads(texts) && CanPut(order, edits, texts, t)
    requires |front| < |Laid(front, lead, texts, blanks, back)|
    requires AllHome(front, lead, texts, blanks, back, order, edits, t)
    ensures PutEdits(Laid(front, lead, texts, blanks, back), |front|, order, edits, t)
         == Some(Laid(front, lead, EditedBy(texts, order, edits), blanks, back))
  {
    EditsLandIff(front, lead, texts, blanks, back, order, edits, t);
    assert LandsAt(front, lead, texts, blanks, back, order, edits, t, |order|);
    assert order[..|order|] == order;
    hide Laid, EditedBy, PutEdits, AllHome, IsText, HeadOf, TextFor;
  }

  // ---------------------------------------------------------------------------------------------
  // Deletions

  /** An empty line follows section `j`, and a line follows that. */
  predicate HasGap(blanks: seq<nat>, back: seq<Line>, j: nat)
    requires j < |blanks|
  {
    blanks[j] >= 1 && (blanks[j] >= 2 || j + 1 < |blanks| || back != [])
  }

  function Without(texts: seq<Text>, j: nat): (r: seq<Text>)
    requires j < |texts|
    ensures |r| == |texts| - 1
  {
    texts[..j] + texts[j + 1..]
  }

  /** The empty lines before the first section once section `j` is cut out. */
  function LeadWithout(lead: nat, blanks: seq<nat>, j: nat): nat
    requires j < |blanks| && blanks[j] >= 1
  {
    if j == 0 then lead + blanks[0] - 1 else lead
  }

  /** The section before takes what is left of the empty lines. */
  function BlanksWithout(blanks: seq<nat>, j: nat): (r: seq<nat>)
    requires j < |blanks| && blanks[j] >= 1
    ensures |r| == |blanks| - 1
  {
    if j == 0 then blanks[1..] else blanks[..j - 1] + [blanks[j - 1] + blanks[j] - 1] + blanks[j + 1..]
  }

  lemma {:induction false} BlanksJoin(m: nat, n: nat)
    ensures Blanks(m) + Blanks(n) == Blanks(m + n)
    ensures n > 0 ==> Blanks(n) == [""] + Blanks(n - 1)
  {
  }

  lemma {:induction false} CutAt(front: seq<Line>, lead: nat, texts: seq<Text>, blanks: seq<nat>, back: seq<Line>, j: nat)
    requires |texts| == |blanks| && j < |texts| && blanks[j] >= 1
    ensures var post := After(texts, blanks, back, j);
            && post != [] && post[0] == ""
            && Before(front, lead, texts, blanks, j) + post[1..]
               == Laid(front, LeadWithout(lead, blanks, j), Without(texts, j), BlanksWithout(blanks, j), back)
  {
    var n := blanks[j] - 1;
    var rest := Assemble(texts[j + 1..], blanks[j + 1..]) + back;
    BlanksJoin(0, blanks[j]);
    hide Blanks, Assemble;
    assert After(texts, blanks, back, j) == [""] + (Blanks(n) + rest);
    if j == 0 {
      BlanksJoin(lead, n);
      AssembleNone();
      assert Without(texts, 0) == texts[1..];
      assert texts[..0] == [] && blanks[..0] == [];
    } else {
      hide After, Before;
      CutInside(front, lead, texts, blanks, back, j);
    }
  }

  lemma {:induction false} CutInside(front: seq<Line>, lead: nat, texts: seq<Text>, blanks: seq<nat>, back: seq<Line>,
                                     j: nat)
    requires |texts| == |blanks| && 0 < j < |texts| && blanks[j] >= 1
    ensures Before(front, lead, texts, blanks, j)
              + (Blanks(blanks[j] - 1) + (Assemble(texts[j + 1..], blanks[j + 1..]) + back))
         == Laid(front, lead, Without(texts, j), BlanksWithout(blanks, j), back)
  {
    hide *;
    var m, n := blanks[j - 1], blanks[j] - 1;
    BeforeTwo(texts, blanks, j);
    SlotsWithout(texts, blanks, j);
    BlanksJoin(m, n);
    LaidParts(front, lead, texts, blanks, back, j);
    Regrouped(front + Blanks(lead), Assemble(texts[..j - 1], blanks[..j - 1]), texts[j - 1], Blanks(m), Blanks(n),
              Assemble(texts[j + 1..], blanks[j + 1..]), back, Before(front, lead, texts, blanks, j),
              Assemble(Without(texts, j), BlanksWithout(blanks, j)));
  }

  lemma {:induction false} BeforeTwo(texts: seq<Text>, blanks: seq<nat>, j: nat)
    requires |texts| == |blanks| && 0 < j < |texts|
    ensures Assemble(texts[..j], blanks[..j])
         == Assemble(texts[..j - 1], blanks[..j - 1]) + (texts[j - 1] + Blanks(blanks[j - 1]))
  {
    hide Blanks, Assemble;
    assert texts[..j][..j - 1] == texts[..j - 1] && blanks[..j][..j - 1] == blanks[..j - 1];
    assert texts[..j][j..] == [] && blanks[..j][j..] == [];
    AssembleAt(texts[..j], blanks[..j], j - 1);
    AssembleNone();
  }

  lemma {:induction false} SlotsWithout(texts: seq<Text>, blanks: seq<nat>, j: nat)
    requires |texts| == |blanks| && 0 < j < |texts| && blanks[j] >= 1
    ensures Assemble(Without(texts, j), BlanksWithout(blanks, j))
         == Assemble(texts[..j - 1], blanks[..j - 1])
            + (texts[j - 1] + Blanks(blanks[j - 1] + (blanks[j] - 1)) + Assemble(texts[j + 1..], blanks[j + 1..]))
  {
    var left, slots := Without(texts, j), BlanksWithout(blanks, j);
    hide Blanks, Assemble;
    assert left[..j - 1] == texts[..j - 1] && left[j - 1] == texts[j - 1] && left[j..] == texts[j + 1..];
    assert slots[..j - 1] == blanks[..j - 1] && slots[j - 1] == blanks[j - 1] + (blanks[j] - 1);
    assert slots[j..] == blanks[j + 1..];
    hide Without, BlanksWithout;
    AssembleAt(left, slots, j - 1);
  }

  lemma {:induction false} Regrouped(f: seq<Line>, a: seq<Line>, t: Text, m: seq<Line>, n: seq<Line>, rest: seq<Line>,
                                     back: seq<Line>, before: seq<Line>, joined: seq<Line>)
    requires before == f + (a + (t + m)) && joined == a + (t + (m + n) + rest)
    ensures before + (n + (rest + back)) == f + joined + back
  {
  }

  lemma {:induction false} LaidParts(front: seq<Line>, lead: nat, texts: seq<Text>, blanks: seq<nat>, back: seq<Line>, j: nat)
    requires |texts| == |blanks| && j < |texts| && blanks[j] >= 1
    ensures Before(front, lead, texts, blanks, j) == front + Blanks(lead) + Assemble(texts[..j], blanks[..j])
    ensures Laid(front, lead, Without(texts, j), BlanksWithout(blanks, j), back)
         == front + Blanks(lead) + Assemble(Without(texts, j), BlanksWithout(blanks, j)) + back
  {
    hide Assemble, Blanks, Without, BlanksWithout;
  }

  /** What follows section `j` is an empty line and a further one exactly when it has a gap. */
  lemma {:induction false} AfterIff(texts: seq<Text>, blanks: seq<nat>, back: seq<Line>, j: nat)
    requires |texts| == |blanks| && j < |texts| && AreTexts(texts) && (back != [] ==> back[0] != "")
    ensures var post := After(texts, blanks, back, j);
            HasGap(blanks, back, j) <==> |post| >= 2 && post[0] == ""
  {
    var rest := Assemble(texts[j + 1..], blanks[j + 1..]);
    if j + 1 < |texts| {
      assert texts[j + 1] in texts && IsText(texts[j + 1]);
      AssembleAt(texts[j + 1..], blanks[j + 1..], 0);
      HeadingIsNoRule("");
      hide Assemble, IsHeading;
      assert texts[j + 1..][..0] == [] && blanks[j + 1..][..0] == [];
      AssembleNone();
      assert rest[0] == texts[j + 1][0] != "";
    } else {
      assert texts[j + 1..] == [];
      AssembleNone();
    }
  }

  /** With a gap the search finds the section itself, and it is cut out with an empty line. */
  lemma {:induction false} DropInPlace(front: seq<Line>, lead: nat, texts: seq<Text>, blanks: seq<nat>, back: seq<Line>,
                                       j: nat, heads: seq<Text>) returns (p: Place)
    requires |texts| == |blanks| && j < |texts| && HasGap(blanks, back, j) && (back != [] ==> back[0] != "")
    requires AreTexts(texts) && UniqueHeads(texts) && Plain(texts, heads) && texts[j] in heads
    ensures var out, needle := Laid(front, lead, texts, blanks, back), texts[j] + ["", ""];
            && |front| <= |out| && IndexOf(out, needle, |front|) == Some(p) && TextAt(out, needle, p)
            && Splice(out, needle, p, [""])
               == Laid(front, LeadWithout(lead, blanks, j), Without(texts, j), BlanksWithout(blanks, j), back)
  {
    assert texts[j] in texts && IsText(texts[j]);
    var pre, post := Before(front, lead, texts, blanks, j), After(texts, blanks, back, j);
    p := Place(|pre|, 0);
    AfterIff(texts, blanks, back, j);
    LaidAt(front, lead, texts, blanks, back, j);
    CutAt(front, lead, texts, blanks, back, j);
    SpliceDrop(pre, texts[j], post);
    assert HeadOf(texts[j]) == (texts[j] + ["", ""])[0];
    hide *;
    FoundAt(front, lead, texts, blanks, back, j, heads, texts[j] + ["", ""]);
  }

  /** The heading stands in no line after the sections. */
  ghost predicate QuietBack(back: seq<Line>, heads: seq<Text>) {
    && (back != [] ==> back[0] != "")
    && forall l, h :: l in back && h in heads ==> !Contains(l, HeadOf(h))
  }

  /** A deleted section is found exactly when it has a gap. */
  lemma {:induction false} DropFoundIff(front: seq<Line>, lead: nat, texts: seq<Text>, blanks: seq<nat>, back: seq<Line>,
                                        j: nat, heads: seq<Text>)
    requires |texts| == |blanks| && j < |texts| && QuietBack(back, heads)
    requires AreTexts(texts) && UniqueHeads(texts) && Plain(texts, heads) && texts[j] in heads
    ensures |front| <= |Laid(front, lead, texts, blanks, back)|
    ensures IndexOf(Laid(front, lead, texts, blanks, back), texts[j] + ["", ""], |front|).Some? <==> HasGap(blanks, back, j)
  {
    if HasGap(blanks, back, j) {
      var p := DropInPlace(front, lead, texts, blanks, back, j, heads);
    } else {
      var pre, post, needle := Before(front, lead, texts, blanks, j), After(texts, blanks, back, j), texts[j] + ["", ""];
      var out := Laid(front, lead, texts, blanks, back);
      LaidAt(front, lead, texts, blanks, back, j);
      AfterIff(texts, blanks, back, j);
      assert texts[j] in texts && IsText(texts[j]) && needle[0] == HeadOf(texts[j]);
      hide Laid, HasGap, After, Before, IsText, HeadOf;
      var q := IndexOf(out, needle, |front|);
      if q.Some? {
        assert |front| <= q.value.line && TextAt(out, needle, q.value);
        NeedleShows(out, needle, q.value);
        OnlyAtSection(front, lead, texts, blanks, back, j, heads, q.value.line);
        GapBehind(pre, texts[j], post, q.value);
      }
    }
  }

  /** From the sections on, the only line that shows the heading is the heading. */
  lemma {:induction false} OnlyAtSection(front: seq<Line>, lead: nat, texts: seq<Text>, blanks: seq<nat>, back: seq<Line>,
                                         j: nat, heads: seq<Text>, k: nat)
    requires |texts| == |blanks| && j < |texts| && QuietBack(back, heads)
    requires AreTexts(texts) && UniqueHeads(texts) && Plain(texts, heads) && texts[j] in heads
    requires |front| <= k < |Laid(front, lead, texts, blanks, back)|
    requires Contains(Laid(front, lead, texts, blanks, back)[k], HeadOf(texts[j]))
    ensures k == |Before(front, lead, texts, blanks, j)|
  {
    assert texts[j] in texts && IsText(texts[j]);
    OtherHeads(texts, j);
    NoneElsewhere(texts[..j], blanks[..j], texts, heads, texts[j]);
    NoneElsewhere(texts[j + 1..], blanks[j + 1..], texts, heads, texts[j]);
    NotInEmpty(HeadOf(texts[j]));
    LaidAt(front, lead, texts, blanks, back, j);
    var sections, rest := Assemble(texts[..j], blanks[..j]), Assemble(texts[j + 1..], blanks[j + 1..]);
    OwnLines(texts, heads, j);
    hide Contains, Assemble, IsText, Plain, UniqueHeads, HeadOf, Laid, Before, After, AreTexts;
    BeforeIs(front, lead, texts, blanks, j);
    AfterIs(texts, blanks, back, j);
    OnlyThere(front, lead, sections, texts[j], blanks[j], rest, back, HeadOf(texts[j]), k);
  }

  lemma {:induction false} BeforeIs(front: seq<Line>, lead: nat, texts: seq<Text>, blanks: seq<nat>, j: nat)
    requires |texts| == |blanks| && j < |texts|
    ensures Before(front, lead, texts, blanks, j) == front + Blanks(lead) + Assemble(texts[..j], blanks[..j])
  {
    hide Blanks, Assemble;
  }

  lemma {:induction false} AfterIs(texts: seq<Text>, blanks: seq<nat>, back: seq<Line>, j: nat)
    requires |texts| == |blanks| && j < |texts|
    ensures After(texts, blanks, back, j) == Blanks(blanks[j]) + Assemble(texts[j + 1..], blanks[j + 1..]) + back
  {
    hide Blanks, Assemble;
  }

  lemma {:induction false} OwnLines(texts: seq<Text>, heads: seq<Text>, j: nat)
    requires j < |texts| && AreTexts(texts) && Plain(texts, heads) && texts[j] in heads
    ensures forall i :: 1 <= i < |texts[j]| ==> !Contains(texts[j][i], HeadOf(texts[j]))
  {
    hide Contains;
    assert texts[j] in texts && IsText(texts[j]);
    forall i | 1 <= i < |texts[j]| ensures !Contains(texts[j][i], HeadOf(texts[j])) {
      assert texts[j][i] in texts[j];
    }
  }

  lemma {:induction false} OnlyThere(front: seq<Line>, lead: nat, sections: seq<Line>, t: Text, n: nat, rest: seq<Line>,
                                     back: seq<Line>, g: Line, k: nat)
    requires (forall l :: l in sections || l in rest || l in back || l == "" ==> !Contains(l, g))
    requires forall i :: 1 <= i < |t| ==> !Contains(t[i], g)
    requires var out := front + Blanks(lead) + sections + t + (Blanks(n) + rest + back);
             |front| <= k < |out| && Contains(out[k], g)
    ensures k == |front + Blanks(lead) + sections|
  {
    hide Contains;
    var pre, post := Blanks(lead) + sections, Blanks(n) + rest + back;
    assert front + Blanks(lead) + sections + t + post == front + (pre + t + post);
    assert forall l :: l in pre || l in post ==> l == "" || l in sections || l in rest || l in back;
    var mid := pre + t + post;
    assert forall i :: 0 <= i < |pre| ==> mid[i] == pre[i] && mid[i] in pre;
    assert forall i :: |pre| + |t| <= i < |mid| ==> mid[i] == post[i - |pre| - |t|] && mid[i] in post;
    assert forall i :: |pre| <= i < |pre| + |t| ==> mid[i] == t[i - |pre|];
    assert (front + mid)[k] == mid[k - |front|];
  }

  /** Where a needle is found a line shows its first line. */
  lemma {:induction false} NeedleShows(lines: seq<Line>, needle: Text, p: Place)
    requires TextAt(lines, needle, p)
    ensures Contains(lines[p.line], needle[0])
  {
    assert StartsWith(lines[p.line][p.column..], needle[0]);
  }

  lemma {:induction false} GapBehind(pre: seq<Line>, t: Text, post: seq<Line>, p: Place)
    requires t != [] && p.line == |pre| && TextAt(pre + t + post, t + ["", ""], p)
    ensures |post| >= 2 && post[0] == ""
  {
    var lines, needle, n := pre + t + post, t + ["", ""], |t| + 1;
    assert needle[1..n][n - 2] == "";
    assert lines[p.line + 1..p.line + n][n - 2] == lines[p.line + n - 1] == post[0];
  }

  lemma {:induction false} WithoutKeeps(texts: seq<Text>, heads: seq<Text>, j: nat)
    requires j < |texts| && AreTexts(texts) && UniqueHeads(texts) && Plain(texts, heads)
    ensures var r := Without(texts, j); AreTexts(r) && UniqueHeads(r) && Plain(r, heads)
    ensures forall x :: x in Without(texts, j) <==> x in texts && x != texts[j]
  {
    hide IsText, HeadOf, Contains;
    var r := Without(texts, j);
    assert forall i :: 0 <= i < |r| ==> r[i] == texts[if i < j then i else i + 1];
    assert forall x :: x in r ==> x in texts;
    forall i, k | 0 <= i < k < |r| ensures Map(r, HeadOf)[i] != Map(r, HeadOf)[k] {
      HeadsApart(texts, if i < j then i else i + 1, if k < j then k else k + 1);
    }
    forall x | x in texts && x != texts[j] ensures x in r {
      var i :| 0 <= i < |texts| && texts[i] == x;
      assert r[if i < j then i else i - 1] == x;
    }
    forall i | 0 <= i < |r| ensures r[i] != texts[j] {
      OtherHead(texts, if i < j then i else i + 1, j);
    }
  }

  /** The deleted sections, in the order the ancestor lists them. */
  function GoneOf(list: seq<Text>, o: seq<Text>, t: seq<Text>, edits: map<Line, Text>): seq<Text> {
    Filter(list, (x: Text) => Dropped(o, t, edits, x))
  }

  function Left(texts: seq<Text>, gone: seq<Text>): seq<Text> { Filter(texts, (x: Text) => x !in gone) }

  /** Each of the sections has a gap when its turn comes: what is left of a gap goes to the section before. */
  predicate CanDrop(texts: seq<Text>, blanks: seq<nat>, back: seq<Line>, gone: seq<Text>)
    requires |texts| == |blanks|
    decreases |gone|
  {
    gone != [] ==>
      var j := Position(texts, gone[0]);
      && j < |texts| && HasGap(blanks, back, j)
      && CanDrop(Without(texts, j), BlanksWithout(blanks, j), back, gone[1..])
  }

  lemma {:induction false} FilterWithout(texts: seq<Text>, p: Text -> bool, j: nat)
    requires j < |texts| && !p(texts[j])
    ensures Filter(Without(texts, j), p) == Filter(texts, p)
  {
    hide Filter;
    FilterAppend(texts[..j], texts[j + 1..], p);
    FilterAppend([texts[j]], texts[j + 1..], p);
    FilterAppend(texts[..j], [texts[j]] + texts[j + 1..], p);
    assert texts == texts[..j] + ([texts[j]] + texts[j + 1..]);
    FilterNone([texts[j]], p);
  }

  /** What is left after cutting section `j`, the first one of the list, is what the rest of the list leaves. */
  lemma {:induction false} LeftNext(texts: seq<Text>, gone: seq<Text>, j: nat)
    requires gone != [] && Distinct(gone) && j < |texts| && texts[j] == gone[0]
    requires forall x :: x in Without(texts, j) <==> x in texts && x != texts[j]
    ensures Left(Without(texts, j), gone[1..]) == Left(texts, gone)
  {
    var rest := gone[1..];
    assert gone == [gone[0]] + rest;
    hide Without;
    FilterAgree(Without(texts, j), (x: Text) => x !in rest, (x: Text) => x !in gone);
    FilterWithout(texts, (x: Text) => x !in gone, j);
  }

  lemma {:induction false} GoneNext(list: seq<Text>, o: seq<Text>, t: seq<Text>, edits: map<Line, Text>)
    requires list != [] && Distinct(list)
    ensures var rest := GoneOf(list[1..], o, t, edits);
            && GoneOf(list, o, t, edits) == (if Dropped(o, t, edits, list[0]) then [list[0]] + rest else rest)
            && list[0] !in rest && Distinct(list[1..]) && Distinct(GoneOf(list, o, t, edits))
  {
    hide Dropped;
    FilterDistinct(list, (x: Text) => Dropped(o, t, edits, x));
    assert list == [list[0]] + list[1..];
    DistinctConcat([list[0]], list[1..]);
  }

  /** The deletions cut out the sections they name, exactly when each has a gap when its turn comes. */
  lemma {:induction false} DropsLaidIff(front: seq<Line>, lead: nat, texts: seq<Text>, blanks: seq<nat>, back: seq<Line>,
                                        list: seq<Text>, o: seq<Text>, t: seq<Text>, edits: map<Line, Text>, heads: seq<Text>)
    returns (lead': nat, blanks': seq<nat>)
    requires |texts| == |blanks| && AreTexts(texts) && UniqueHeads(texts) && Plain(texts, heads) && QuietBack(back, heads)
    requires Distinct(list) && |front| < |Laid(front, lead, texts, blanks, back)|
    requires forall b :: b in GoneOf(list, o, t, edits) ==> b in texts && b in heads
    ensures var gone := GoneOf(list, o, t, edits);
            var r := DropAll(Laid(front, lead, texts, blanks, back), |front|, list, o, t, edits);
            && (r.Some? <==> CanDrop(texts, blanks, back, gone))
            && (r.Some? ==>
                  && |Left(texts, gone)| == |blanks'|
                  && r.value == Laid(front, lead', Left(texts, gone), blanks', back))
    decreases |list|
  {
    if list == [] {
      lead', blanks' := lead, blanks;
      FilterAll(texts, (x: Text) => x !in []);
      assert GoneOf(list, o, t, edits) == [];
    } else {
      var b, rest := list[0], list[1..];
      var gone := GoneOf(list, o, t, edits);
      GoneNext(list, o, t, edits);
      if Dropped(o, t, edits, b) {
        assert b in gone && gone[0] == b && gone[1..] == GoneOf(rest, o, t, edits);
        var j := Position(texts, b);
        WithoutKeeps(texts, heads, j);
        LeftNext(texts, gone, j);
        hide Dropped, Plain, UniqueHeads, AreTexts, Left, GoneOf, Laid, Without, LeadWithout, BlanksWithout, Position, QuietBack,
             HasGap;
        if HasGap(blanks, back, j) {
          DropNext(front, lead, texts, blanks, back, list, o, t, edits, heads, j);
          hide DropAll;
          lead', blanks' := DropsLaidIff(front, LeadWithout(lead, blanks, j), Without(texts, j), BlanksWithout(blanks, j), back,
                                         rest, o, t, edits, heads);
        } else {
          DropFoundIff(front, lead, texts, blanks, back, j, heads);
          lead', blanks' := 0, [];
        }
      } else {
        hide Dropped, Plain, UniqueHeads, AreTexts, Left, GoneOf, Laid, CanDrop, QuietBack;
        lead', blanks' := DropsLaidIff(front, lead, texts, blanks, back, rest, o, t, edits, heads);
      }
    }
  }

  /** A section with a gap is cut out, and the rest of the list goes on from there. */
  lemma {:induction false} DropNext(front: seq<Line>, lead: nat, texts: seq<Text>, blanks: seq<nat>, back: seq<Line>,
                                    list: seq<Text>, o: seq<Text>, t: seq<Text>, edits: map<Line, Text>, heads: seq<Text>, j: nat)
    requires |texts| == |blanks| && AreTexts(texts) && UniqueHeads(texts) && Plain(texts, heads) && QuietBack(back, heads)
    requires |front| < |Laid(front, lead, texts, blanks, back)|
    requires list != [] && Dropped(o, t, edits, list[0]) && j < |texts| && texts[j] == list[0] && list[0] in heads
    requires HasGap(blanks, back, j)
    ensures var next := Laid(front, LeadWithout(lead, blanks, j), Without(texts, j), BlanksWithout(blanks, j), back);
            && |front| < |next|
            && DropAll(Laid(front, lead, texts, blanks, back), |front|, list, o, t, edits)
               == DropAll(next, |front|, list[1..], o, t, edits)
  {
    QuietStart(back, heads);
    hide Dropped, Plain, UniqueHeads, AreTexts, Laid, Without, LeadWithout, BlanksWithout, QuietBack, TextAt, Splice, IndexOf;
    var p := DropInPlace(front, lead, texts, blanks, back, j, heads);
    SpliceLong(Laid(front, lead, texts, blanks, back), list[0] + ["", ""], p, [""], |front|);
  }

  lemma {:induction false} QuietStart(back: seq<Line>, heads: seq<Text>)
    requires QuietBack(back, heads)
    ensures back != [] ==> back[0] != ""
  {
    hide Contains;
  }

  // ---------------------------------------------------------------------------------------------
  // When the deletions go through

  /** Every deleted section has a gap in the base's file. */
  predicate AllGaps(texts: seq<Text>, blanks: seq<nat>, back: seq<Line>, gone: seq<Text>)
    requires |texts| == |blanks|
  {
    forall j :: 0 <= j < |texts| && texts[j] in gone ==> HasGap(blanks, back, j)
  }

  /** The list names sections in the order of the file. */
  predicate InOrder(texts: seq<Text>, gone: seq<Text>) {
    forall i, k :: 0 <= i < k < |gone| ==> Position(texts, gone[i]) < Position(texts, gone[k])
  }

  lemma {:induction false} PositionIs(texts: seq<Text>, j: nat)
    requires Distinct(texts) && j < |texts|
    ensures Position(texts, texts[j]) == j
  {
    hide Position;
    var i := Position(texts, texts[j]);
    assert texts[j] in texts;
  }

  /** After a cut the sections behind it are one further up, and keep their gaps. */
  lemma {:induction false} CutKeepsGaps(texts: seq<Text>, blanks: seq<nat>, back: seq<Line>, j: nat, k: nat)
    requires |texts| == |blanks| && j < |texts| && HasGap(blanks, back, j) && k < |texts| && k != j
    ensures var slots, i := BlanksWithout(blanks, j), if k < j then k else k - 1;
            && Without(texts, j)[i] == texts[k]
            && (k > j ==> (HasGap(slots, back, i) <==> HasGap(blanks, back, k)))
            && (k < j && HasGap(blanks, back, k) ==> HasGap(slots, back, i))
  {
  }

  lemma {:induction false} DistinctWithout(texts: seq<Text>, j: nat)
    requires Distinct(texts) && j < |texts|
    ensures Distinct(Without(texts, j))
    ensures forall x :: x in Without(texts, j) <==> x in texts && x != texts[j]
    ensures forall i :: 0 <= i < |texts| - 1 ==> Without(texts, j)[i] == texts[if i < j then i else i + 1]
  {
    var r := Without(texts, j);
    assert forall i :: 0 <= i < |r| ==> r[i] == texts[if i < j then i else i + 1];
    forall x | x in texts && x != texts[j] ensures x in r {
      var i :| 0 <= i < |texts| && texts[i] == x;
      assert r[if i < j then i else i - 1] == x;
    }
  }

  /** In whatever order, the deletions go through when every deleted section has a gap. */
  lemma {:induction false} GapsSuffice(texts: seq<Text>, blanks: seq<nat>, back: seq<Line>, gone: seq<Text>)
    requires |texts| == |blanks| && Distinct(texts) && Distinct(gone) && (forall x :: x in gone ==> x in texts)
    requires AllGaps(texts, blanks, back, gone)
    ensures CanDrop(texts, blanks, back, gone)
    decreases |gone|
  {
    if gone != [] {
      var j, rest := Position(texts, gone[0]), gone[1..];
      assert gone == [gone[0]] + rest;
      DistinctConcat([gone[0]], rest);
      assert texts[j] in gone && HasGap(blanks, back, j);
      DistinctWithout(texts, j);
      hide Position, Without, BlanksWithout;
      var left, slots := Without(texts, j), BlanksWithout(blanks, j);
      forall i | 0 <= i < |left| && left[i] in rest ensures HasGap(slots, back, i) {
        var k := if i < j then i else i + 1;
        assert left[i] == texts[k] && texts[k] in gone;
        CutKeepsGaps(texts, blanks, back, j, k);
      }
      GapsSuffice(left, slots, back, rest);
    }
  }

  /** When the ancestor lists the deleted sections in the order of the file, they go through only then. */
  lemma {:induction false} GapsIff(texts: seq<Text>, blanks: seq<nat>, back: seq<Line>, gone: seq<Text>)
    requires |texts| == |blanks| && Distinct(texts) && Distinct(gone) && (forall x :: x in gone ==> x in texts)
    requires InOrder(texts, gone)
    ensures CanDrop(texts, blanks, back, gone) <==> AllGaps(texts, blanks, back, gone)
    decreases |gone|
  {
    hide *;
    if AllGaps(texts, blanks, back, gone) {
      GapsSuffice(texts, blanks, back, gone);
    } else if gone == [] {
      NoGaps(texts, blanks, back);
    } else if CanDrop(texts, blanks, back, gone) {
      var j, rest := Position(texts, gone[0]), gone[1..];
      FirstGone(texts, blanks, back, gone);
      DistinctWithout(texts, j);
      OrderKept(texts, gone, j);
      GapsIff(Without(texts, j), BlanksWithout(blanks, j), back, rest);
      GapsBefore(texts, blanks, back, gone, j);
    }
  }

  lemma {:induction false} NoGaps(texts: seq<Text>, blanks: seq<nat>, back: seq<Line>)
    requires |texts| == |blanks|
    ensures AllGaps(texts, blanks, back, [])
  {
    hide HasGap;
  }

  lemma {:induction false} FirstGone(texts: seq<Text>, blanks: seq<nat>, back: seq<Line>, gone: seq<Text>)
    requires |texts| == |blanks| && gone != [] && Distinct(gone) && CanDrop(texts, blanks, back, gone)
    ensures var j := Position(texts, gone[0]);
            && j < |texts| && texts[j] == gone[0] && HasGap(blanks, back, j) && blanks[j] >= 1
            && CanDrop(Without(texts, j), BlanksWithout(blanks, j), back, gone[1..])
    ensures Distinct(gone[1..]) && gone[0] !in gone[1..] && forall x :: x in gone <==> x == gone[0] || x in gone[1..]
  {
    hide Position, Without, BlanksWithout;
    assert gone == [gone[0]] + gone[1..];
    DistinctConcat([gone[0]], gone[1..]);
  }

  /** Gaps that the others have after the cut they had before. */
  lemma {:induction false} GapsBefore(texts: seq<Text>, blanks: seq<nat>, back: seq<Line>, gone: seq<Text>, j: nat)
    requires |texts| == |blanks| && Distinct(texts) && gone != [] && InOrder(texts, gone)
    requires j == Position(texts, gone[0]) && j < |texts| && HasGap(blanks, back, j)
    requires AllGaps(Without(texts, j), BlanksWithout(blanks, j), back, gone[1..])
    ensures AllGaps(texts, blanks, back, gone)
  {
    assert blanks[j] >= 1;
    hide HasGap, Position, Without, BlanksWithout, InOrder;
    forall k | 0 <= k < |texts| && texts[k] in gone ensures HasGap(blanks, back, k) {
      if k != j {
        LaterInOrder(texts, gone, j, k);
        CutKeepsGaps(texts, blanks, back, j, k);
      }
    }
  }

  lemma {:induction false} LaterInOrder(texts: seq<Text>, gone: seq<Text>, j: nat, k: nat)
    requires Distinct(texts) && gone != [] && InOrder(texts, gone) && j == Position(texts, gone[0])
    requires k < |texts| && k != j && texts[k] in gone
    ensures j < k && texts[k] in gone[1..]
  {
    hide Position;
    var i :| 0 <= i < |gone| && gone[i] == texts[k];
    PositionIs(texts, k);
    assert i != 0;
    assert gone[1..][i - 1] == texts[k];
  }

  lemma {:induction false} OrderKept(texts: seq<Text>, gone: seq<Text>, j: nat)
    requires Distinct(texts) && gone != [] && (forall x :: x in gone ==> x in texts) && InOrder(texts, gone)
    requires j == Position(texts, gone[0]) && j < |texts|
    ensures InOrder(Without(texts, j), gone[1..])
  {
    var left, rest := Without(texts, j), gone[1..];
    DistinctWithout(texts, j);
    hide Position, Without;
    forall i | 0 <= i < |rest| ensures Position(left, rest[i]) == Position(texts, rest[i]) - 1 {
      var k := Position(texts, gone[i + 1]);
      assert gone[i + 1] in texts && j < k;
      assert left[k - 1] == texts[k];
      PositionIs(left, k - 1);
    }
  }
}
