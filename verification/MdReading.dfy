/** The version sections of CHANGELOG.md read back as they were written, and uniting the Unreleased lines leaves them alone. */
module MdReading {
  import opened ChangelogMd
  import opened MdLayout
  import opened MdMerge
  import opened Seqs
  import opened Texts
  import opened Unreleased

  // ---------------------------------------------------------------------------------------------
  // New sections, and reading the merged file

  /** The empty lines after `n` new sections, the last one over `lead` more. */
  function Ones(n: nat, lead: nat): (r: seq<nat>)
    ensures |r| == n
  {
    if n == 0 then [] else if n == 1 then [1 + lead] else [1] + Ones(n - 1, lead)
  }

  lemma {:induction false} SpreadIs(ts: seq<Text>, lead: nat)
    requires ts != []
    ensures Spread(ts) + Blanks(lead) == Assemble(ts, Ones(|ts|, lead))
  {
    var t, rest := ts[0], ts[1..];
    assert ts == [t] + rest && Spread(ts) == t + [""] + Spread(rest);
    hide Assemble;
    if rest == [] {
      assert Spread(rest) == [] && Ones(1, lead) == [1 + lead] + [];
      hide Spread, Ones, Blanks;
      AssembleFirst(t, [], 1 + lead, []);
      AssembleNone();
      BlanksJoin(0, 1 + lead);
    } else {
      SpreadIs(rest, lead);
      assert Ones(|ts|, lead) == [1] + Ones(|rest|, lead);
      hide Spread, Ones, Blanks;
      BlanksJoin(0, 1);
      NoBlanks();
      AssembleFirst(t, rest, 1, Ones(|rest|, lead));
      assert t + [""] + Spread(rest) + Blanks(lead) == t + [""] + (Spread(rest) + Blanks(lead));
    }
  }

  /** Sections put in front of the others. */
  lemma {:induction false} ExtraLaid(front: seq<Line>, lead: nat, texts: seq<Text>, blanks: seq<nat>, back: seq<Line>,
                                     extra: seq<Text>) returns (m: nat, ns: seq<nat>)
    requires |texts| == |blanks|
    ensures |ns| == |extra + texts|
    ensures var left := Laid(front, lead, texts, blanks, back);
            |front| <= |left|
            && left[..|front|] + Spread(extra) + left[|front|..] == Laid(front, m, extra + texts, ns, back)
  {
    var left := Laid(front, lead, texts, blanks, back);
    var rest := Assemble(texts, blanks) + back;
    assert left == front + (Blanks(lead) + rest);
    if extra == [] {
      m, ns := lead, blanks;
      assert extra + texts == texts;
    } else {
      m, ns := 0, Ones(|extra|, lead) + blanks;
      SpreadIs(extra, lead);
      AssembleConcat(extra, Ones(|extra|, lead), texts, blanks);
      hide Assemble, Spread, Ones;
      assert front + Spread(extra) + (Blanks(lead) + rest) == front + (Spread(extra) + Blanks(lead)) + rest;
    }
  }

  ghost predicate NoRules(ts: seq<Text>) { forall t, l :: t in ts && l in t ==> !IsRule(l) }

  lemma {:induction false} TextLines(lines: seq<Line>)
    ensures forall t, l :: t in TextsOf(lines) && l in t ==> l in lines
    decreases |lines|
  {
    if lines != [] {
      var n := BlockLength(lines);
      TextLines(lines[n..]);
      var t := Strip(lines[..n]);
      assert forall l :: l in t ==> l in lines[..n];
      assert forall l :: l in lines[..n] || l in lines[n..] ==> l in lines;
      hide Strip, BlockLength;
    }
  }

  /** What is read is sections: each starts with its only heading, and none holds a rule. */
  lemma {:induction false} SectionTexts(lines: seq<Line>, series: nat)
    requires ActiveSections(lines, series).Some?
    ensures var ts := ActiveSections(lines, series).value.texts; AreTexts(ts) && NoRules(ts)
  {
    var s := ActiveSections(lines, series).value;
    if s.texts != [] {
      var body := lines[s.at..s.end];
      TextsAreTexts(body);
      TextLines(body);
      hide IsHeading, IsText;
      HeadingIsNoRule(body[0]);
      forall l | l in body ensures !IsRule(l) {
        var i :| 0 <= i < |body| && body[i] == l;
        assert body[i] == lines[s.at + i];
      }
    }
  }

  /** The file as its sections over their empty lines. */
  lemma {:induction false} FileIsLaid(lines: seq<Line>, series: nat)
    requires ActiveSections(lines, series).Some? && ActiveSections(lines, series).value.texts != []
    ensures var s := ActiveSections(lines, series).value;
            var blanks := BlanksOf(lines[s.at..s.end]);
            |blanks| == |s.texts| && lines == Laid(lines[..s.at], 0, s.texts, blanks, lines[s.end..])
  {
    hide *;
    var s := ActiveSections(lines, series).value;
    SectionSlice(lines, series);
    AssembleRead(lines[s.at..s.end]);
    LaidAsOne(lines[..s.at], s.texts, BlanksOf(lines[s.at..s.end]), lines[s.end..]);
    CutTwice(lines, s.at, s.end);
  }

  lemma {:induction false} CutTwice(lines: seq<Line>, i: nat, j: nat)
    requires i <= j <= |lines|
    ensures lines == lines[..i] + lines[i..j] + lines[j..]
  {
  }

  lemma {:induction false} SectionSlice(lines: seq<Line>, series: nat)
    requires ActiveSections(lines, series).Some? && ActiveSections(lines, series).value.texts != []
    ensures var s := ActiveSections(lines, series).value;
            s.texts == TextsOf(lines[s.at..s.end]) && |BlanksOf(lines[s.at..s.end])| == |s.texts|
  {
    hide TextsOf, BlanksOf, HeaderLine, IsHeading, IsRule;
  }

  lemma {:induction false} LaidAsOne(front: seq<Line>, texts: seq<Text>, blanks: seq<nat>, back: seq<Line>)
    requires |texts| == |blanks|
    ensures Laid(front, 0, texts, blanks, back) == front + Assemble(texts, blanks) + back
  {
    NoBlanks();
    hide Assemble, Blanks;
  }

  /** Where the sections of a file are, when the header is not its last line. */
  ghost predicate StartsAt(lines: seq<Line>, series: nat, s: Sections) {
    var h := HeaderLine(lines, series);
    && h + 1 <= s.at < s.end <= |lines|
    && (forall i :: h + 1 <= i < s.at ==> !IsHeading(lines[i]))
    && (forall i :: h + 1 < i < s.at ==> !IsRule(lines[i]))
    && (s.end < |lines| ==> IsRule(lines[s.end]))
    && HoldsHeader(series, lines[h]) && (forall i :: 0 <= i < h ==> !HoldsHeader(series, lines[i]))
  }

  lemma {:induction false} FileStarts(lines: seq<Line>, series: nat)
    requires ActiveSections(lines, series).Some?
    requires ActiveSections(lines, series).value.texts != []
    requires HeaderLine(lines, series) + 1 < |lines|
    ensures StartsAt(lines, series, ActiveSections(lines, series).value)
  {
    hide HoldsHeader, IsHeading, IsRule;
  }

  /** The rule is where the sections end, and the first heading where they start. */
  ghost predicate EndsAt(out: seq<Line>, series: nat, h: nat, first: nat, end: nat) {
    && h + 1 <= first <= end <= |out| && h + 2 <= end
    && HoldsHeader(series, out[h]) && (forall i :: 0 <= i < h ==> !HoldsHeader(series, out[i]))
    && (forall i :: h + 1 <= i < first ==> !IsHeading(out[i]))
    && (forall i :: h + 2 <= i < end ==> !IsRule(out[i]))
    && (end < |out| ==> IsRule(out[end]))
    && (first < end ==> IsHeading(out[first]))
  }

  lemma {:induction false} LaidEnds(lines: seq<Line>, series: nat, s: Sections, lead: nat, body: seq<Line>)
    requires StartsAt(lines, series, s) && HeaderLine(lines, series) + 2 <= s.at + lead + |body|
    requires (forall l :: l in body ==> !IsRule(l)) && (body != [] ==> IsHeading(body[0]))
    ensures var out := lines[..s.at] + Blanks(lead) + body + lines[s.end..];
            EndsAt(out, series, HeaderLine(lines, series), s.at + lead, s.at + lead + |body|)
  {
    var h := HeaderLine(lines, series);
    HeadingIsNoRule("");
    hide HoldsHeader, IsHeading, IsRule, HeaderLine;
    var front := lines[..s.at] + Blanks(lead);
    var out := front + body + lines[s.end..];
    var first := s.at + lead;
    assert forall i :: 0 <= i < s.at ==> out[i] == lines[i];
    assert forall i :: s.at <= i < first ==> out[i] == "";
    forall i | first <= i < first + |body| ensures !IsRule(out[i]) {
      assert out[i] == body[i - first] && body[i - first] in body;
    }
    assert first + |body| < |out| ==> out[first + |body|] == lines[s.end];
  }

  lemma {:induction false} EndsRead(out: seq<Line>, series: nat, h: nat, first: nat, end: nat)
    requires EndsAt(out, series, h, first, end)
    ensures HeaderLine(out, series) == h && ActiveSections(out, series).Some?
    ensures var s := ActiveSections(out, series).value;
            if first == end then s.texts == [] else s.at == first && s.texts == TextsOf(out[first..end])
  {
    hide HoldsHeader, IsHeading, IsRule, TextsOf;
    FindFromIs(out, (l: Line) => HoldsHeader(series, l), 0, h);
    FindFromIs(out, IsRule, h + 2, end);
    if first < end {
      FindFromIs(out, IsHeading, h + 1, first);
    }
  }

  /** Sections laid out between the two ends of a file are read back. */
  lemma {:induction false} LaidIsRead(lines: seq<Line>, series: nat, s: Sections, lead: nat, texts: seq<Text>,
                                      blanks: seq<nat>)
    requires StartsAt(lines, series, s) && |texts| == |blanks| && AreTexts(texts) && NoRules(texts)
    requires HeaderLine(lines, series) + 2 <= s.at + lead + |texts|
    ensures var out := Laid(lines[..s.at], lead, texts, blanks, lines[s.end..]);
            && ActiveSections(out, series).Some? && ActiveSections(out, series).value.texts == texts
            && (texts != [] ==> ActiveSections(out, series).value.at == s.at + lead)
            && HeaderLine(out, series) == HeaderLine(lines, series)
  {
    hide *;
    SectionsInside(lines, series, s);
    var body := Assemble(texts, blanks);
    var out := Laid(lines[..s.at], lead, texts, blanks, lines[s.end..]);
    BodyReads(texts, blanks);
    BodyIsLong(texts, blanks);
    LaidEnds(lines, series, s, lead, body);
    LaidBody(lines[..s.at], lead, texts, blanks, lines[s.end..]);
    EndsRead(out, series, HeaderLine(lines, series), s.at + lead, s.at + lead + |body|);
  }

  lemma {:induction false} LaidBody(front: seq<Line>, lead: nat, texts: seq<Text>, blanks: seq<nat>, back: seq<Line>)
    requires |texts| == |blanks|
    ensures var out, body := Laid(front, lead, texts, blanks, back), Assemble(texts, blanks);
            && out == front + Blanks(lead) + body + back && |front| + lead + |body| <= |out|
            && out[|front| + lead..|front| + lead + |body|] == body
  {
    hide Assemble;
  }

  lemma {:induction false} BodyReads(texts: seq<Text>, blanks: seq<nat>)
    requires |texts| == |blanks| && AreTexts(texts) && NoRules(texts)
    ensures var body := Assemble(texts, blanks);
            && (forall l :: l in body ==> !IsRule(l)) && (body != [] ==> IsHeading(body[0])) && TextsOf(body) == texts
            && (texts == [] ==> body == [])
  {
    LinesOf(texts, blanks);
    HeadingIsNoRule("");
    AllAreTexts(texts);
    ReadAssembled(texts, blanks);
    hide IsRule, IsHeading, TextsOf;
  }

  lemma {:induction false} AllAreTexts(ts: seq<Text>)
    requires AreTexts(ts)
    ensures forall t :: t in ts ==> IsText(t)
  {
    hide IsText;
  }

  lemma {:induction false} BodyIsLong(texts: seq<Text>, blanks: seq<nat>)
    requires |texts| == |blanks| && AreTexts(texts)
    ensures |Assemble(texts, blanks)| >= |texts|
  {
    if texts != [] {
      assert texts[0] in texts && IsText(texts[0]);
      assert forall t :: t in texts[1..] ==> t in texts;
      hide IsText;
      BodyIsLong(texts[1..], blanks[1..]);
    }
  }

  lemma {:induction false} SectionsInside(lines: seq<Line>, series: nat, s: Sections)
    requires StartsAt(lines, series, s)
    ensures s.at < s.end <= |lines|
  {
  }

  // ---------------------------------------------------------------------------------------------
  // Sections written where the file has none

  /** The sections are read back, the last one with the lines that follow it. */
  lemma {:induction false} SpreadReads(ts: seq<Text>, stray: seq<Line>)
    requires ts != [] && AreTexts(ts) && forall l :: l in stray ==> !IsHeading(l)
    ensures var all := Spread(ts) + stray;
            && all != [] && IsHeading(all[0])
            && TextsOf(all) == ts[..|ts| - 1] + [Strip(ts[|ts| - 1] + [""] + stray)]
  {
    hide *;
    var t, rest := ts[0], ts[1..];
    RestTexts(ts);
    SpreadParts(ts, stray);
    HeadingIsNoRule("");
    if |ts| == 1 {
      LastBlock(t, stray, Spread(ts) + stray);
    } else {
      SpreadReads(rest, stray);
      ReadFirst(t, 1, Spread(rest) + stray);
    }
  }

  lemma {:induction false} SpreadParts(ts: seq<Text>, stray: seq<Line>)
    requires ts != []
    ensures var t, rest := ts[0], ts[1..];
            && Spread(ts) + stray == (if |ts| == 1 then t + [""] + stray else t + Blanks(1) + (Spread(rest) + stray))
            && Spread(ts) + stray != []
            && (|ts| == 1 ==> ts[..|ts| - 1] == [])
            && (|ts| > 1 ==> ts[..|ts| - 1] == [t] + rest[..|rest| - 1] && rest[|rest| - 1] == ts[|ts| - 1])
    ensures forall x: seq<Text> :: [] + x == x
    ensures forall x: Text, y: seq<Text>, z: seq<Text> :: [x] + (y + z) == ([x] + y) + z
  {
    SpreadFirst(ts);
    NoBlanks();
    hide Spread, Blanks;
  }

  lemma {:induction false} SpreadFirst(ts: seq<Text>)
    requires ts != []
    ensures Spread(ts) == ts[0] + [""] + Spread(ts[1..])
    ensures |ts| == 1 ==> Spread(ts) == ts[0] + [""]
  {
  }

  lemma {:induction false} RestTexts(ts: seq<Text>)
    requires ts != [] && AreTexts(ts)
    ensures IsText(ts[0]) && AreTexts(ts[1..])
  {
    hide IsText;
    assert ts[0] in ts && forall x :: x in ts[1..] ==> x in ts;
  }

  lemma {:induction false} LastBlock(t: Text, stray: seq<Line>, all: seq<Line>)
    requires IsText(t) && all == t + [""] + stray && forall l :: l in stray || l == "" ==> !IsHeading(l)
    ensures TextsOf(all) == [Strip(all)] && IsHeading(all[0])
  {
    assert TextsOf([]) == [];
    hide Strip, TextsOf, IsHeading;
    forall i | 1 <= i < |all| ensures !IsHeading(all[i]) {
      assert all[i] == if i < |t| then t[i] else if i == |t| then "" else stray[i - |t| - 1];
    }
    assert all == all + [];
    FirstBlock(all, all, []);
  }

  /** Lines that follow become part of the section, unless they are all empty. */
  lemma {:induction false} StripIff(t: Text, stray: seq<Line>)
    requires IsText(t)
    ensures var r := Strip(t + [""] + stray);
            && |t| <= |r| && r[..|t|] == t && (r == t <==> forall l :: l in stray ==> l == "")
  {
    hide *;
    StripAtLeast(t, stray);
    if forall l :: l in stray ==> l == "" {
      AllBlank(stray);
      StripBlank(t, stray);
    }
  }

  lemma {:induction false} StripAtLeast(t: Text, stray: seq<Line>)
    requires IsText(t)
    ensures var r := Strip(t + [""] + stray);
            |t| <= |r| && r[..|t|] == t && (r == t ==> forall l :: l in stray ==> l == "")
  {
    var all := t + [""] + stray;
    assert all[|t| - 1] == t[|t| - 1] && all[..|t|] == t;
    hide Strip, IsHeading;
    var r := Strip(all);
    assert r[..|t|] == all[..|t|];
    assert forall i :: 0 <= i < |stray| ==> all[|t| + 1 + i] == stray[i];
  }

  lemma {:induction false} AllBlank(stray: seq<Line>)
    requires forall l :: l in stray ==> l == ""
    ensures [""] + stray == Blanks(1 + |stray|)
  {
    assert forall i :: 0 <= i < |stray| ==> stray[i] in stray;
  }

  lemma {:induction false} StripBlank(t: Text, stray: seq<Line>)
    requires IsText(t) && [""] + stray == Blanks(1 + |stray|)
    ensures Strip(t + [""] + stray) == t
  {
    StripText(t, 1 + |stray|);
    hide Strip, Blanks, IsHeading;
    assert t + [""] + stray == t + ([""] + stray);
  }

  /** No line between this one and the next rule has any text. */
  predicate OnlyEmpty(lines: seq<Line>, at: nat)
    requires at <= |lines|
  {
    forall i :: at <= i < FindFrom(lines, IsRule, at) ==> lines[i] == ""
  }

  /** The lines from here to the next rule. */
  function UpToRule(lines: seq<Line>, at: nat): seq<Line>
    requires at <= |lines|
  {
    lines[at..FindFrom(lines, IsRule, at)]
  }

  lemma {:induction false} OnlyEmptyIff(lines: seq<Line>, at: nat)
    requires at <= |lines|
    ensures OnlyEmpty(lines, at) <==> forall l :: l in UpToRule(lines, at) ==> l == ""
  {
    hide IsRule;
    var part := UpToRule(lines, at);
    assert forall i :: 0 <= i < |part| ==> part[i] == lines[at + i];
    if forall l :: l in part ==> l == "" {
      forall i | at <= i < FindFrom(lines, IsRule, at) ensures lines[i] == "" {
        assert part[i - at] in part;
      }
    }
  }

  /** A file without sections, with some written where the first one belongs. */
  function WithFirst(lines: seq<Line>, at: nat, ts: seq<Text>): seq<Line>
    requires at <= |lines|
  {
    lines[..at] + Spread(ts) + lines[at..]
  }

  lemma {:induction false} NoSections(lines: seq<Line>, series: nat)
    requires ActiveSections(lines, series).Some? && ActiveSections(lines, series).value.texts == []
    requires HeaderLine(lines, series) + 1 < |lines|
    ensures var s, h := ActiveSections(lines, series).value, HeaderLine(lines, series);
            var end := FindFrom(lines, IsRule, h + 1);
            && s.at == h + 1 && h + 1 <= end <= |lines|
            && (forall i :: h + 1 <= i < end ==> !IsHeading(lines[i]) && !IsRule(lines[i]))
            && (end < |lines| ==> IsRule(lines[end]))
            && HoldsHeader(series, lines[h]) && (forall i :: 0 <= i < h ==> !HoldsHeader(series, lines[i]))
  {
    hide HoldsHeader, IsHeading, IsRule, TextsOf;
    var s, h := ActiveSections(lines, series).value, HeaderLine(lines, series);
    var first, late := FindFrom(lines, IsHeading, h + 1), FindFrom(lines, IsRule, h + 2);
    if first < late {
      NotNone(lines[first..late]);
      assert false;
    }
  }

  lemma {:induction false} NotNone(lines: seq<Line>)
    requires lines != []
    ensures TextsOf(lines) != []
  {
    hide Strip, BlockLength;
  }

  lemma {:induction false} FirstEnds(lines: seq<Line>, series: nat, ts: seq<Text>)
    requires ActiveSections(lines, series).Some? && ActiveSections(lines, series).value.texts == []
    requires HeaderLine(lines, series) + 1 < |lines| && ts != [] && AreTexts(ts) && NoRules(ts)
    ensures var h := HeaderLine(lines, series);
            var out, body := WithFirst(lines, h + 1, ts), Spread(ts) + UpToRule(lines, h + 1);
            && body != [] && h + 1 + |body| <= |out| && out[h + 1..h + 1 + |body|] == body
            && EndsAt(out, series, h, h + 1, h + 1 + |body|)
  {
    hide *;
    NoSections(lines, series);
    var h := HeaderLine(lines, series);
    var end := FindFrom(lines, IsRule, h + 1);
    var stray := UpToRule(lines, h + 1);
    SpreadHasNoRule(ts);
    RestTexts(ts);
    SpreadStarts(ts);
    UpToRuleIs(lines, h + 1);
    EndsBehind(lines, series, h, end, Spread(ts), stray);
    WithFirstIs(lines, h + 1, ts);
  }

  lemma {:induction false} UpToRuleIs(lines: seq<Line>, at: nat)
    requires at <= |lines|
    ensures UpToRule(lines, at) == lines[at..FindFrom(lines, IsRule, at)]
  {
  }

  lemma {:induction false} WithFirstIs(lines: seq<Line>, at: nat, ts: seq<Text>)
    requires at <= |lines|
    ensures var end := FindFrom(lines, IsRule, at);
            WithFirst(lines, at, ts) == lines[..at] + (Spread(ts) + UpToRule(lines, at)) + lines[end..]
  {
    hide Spread, IsRule;
    var end := FindFrom(lines, IsRule, at);
    assert lines[at..] == lines[at..end] + lines[end..];
  }

  lemma {:induction false} SpreadStarts(ts: seq<Text>)
    requires ts != [] && IsText(ts[0])
    ensures Spread(ts) != [] && IsHeading(Spread(ts)[0])
  {
    SpreadFirst(ts);
    HeadFirst(ts[0]);
    hide Spread, IsHeading;
  }

  lemma {:induction false} HeadFirst(t: Text)
    requires IsText(t)
    ensures IsHeading(t[0])
  {
  }

  lemma {:induction false} SpreadHasNoRule(ts: seq<Text>)
    requires NoRules(ts)
    ensures forall l :: l in Spread(ts) ==> !IsRule(l)
  {
    SpreadLines(ts);
    HeadingIsNoRule("");
    hide IsRule, Spread;
  }

  lemma {:induction false} EndsBehind(lines: seq<Line>, series: nat, h: nat, end: nat, sections: seq<Line>, stray: seq<Line>)
    requires h + 1 <= end <= |lines| && stray == lines[h + 1..end] && sections != [] && IsHeading(sections[0])
    requires (forall l :: l in sections ==> !IsRule(l)) && (forall i :: h + 1 <= i < end ==> !IsRule(lines[i]))
    requires end < |lines| ==> IsRule(lines[end])
    requires HoldsHeader(series, lines[h]) && forall i :: 0 <= i < h ==> !HoldsHeader(series, lines[i])
    ensures var body := sections + stray;
            var out := lines[..h + 1] + body + lines[end..];
            && h + 1 + |body| <= |out| && out[h + 1..h + 1 + |body|] == body
            && EndsAt(out, series, h, h + 1, h + 1 + |body|)
  {
    hide HoldsHeader, IsHeading, IsRule;
    var body := sections + stray;
    var out := lines[..h + 1] + body + lines[end..];
    assert forall i :: 0 <= i <= h ==> out[i] == lines[i];
    assert forall i :: h + 1 <= i < h + 1 + |body| ==> out[i] == body[i - h - 1];
    forall i | 0 <= i < |body| ensures !IsRule(body[i]) {
      assert body[i] == if i < |sections| then sections[i] else lines[h + 1 + i - |sections|];
      assert i < |sections| ==> sections[i] in sections;
    }
    assert h + 1 + |body| < |out| ==> out[h + 1 + |body|] == lines[end];
    assert out[h + 1] == sections[0];
  }

  lemma {:induction false} SpreadLines(ts: seq<Text>)
    ensures forall l :: l in Spread(ts) ==> l == "" || exists t :: t in ts && l in t
  {
    if ts != [] {
      SpreadLines(ts[1..]);
      assert ts[0] in ts && forall t :: t in ts[1..] ==> t in ts;
    }
  }

  lemma {:induction false} StrayHasNoHeading(lines: seq<Line>, at: nat)
    requires at <= |lines| && forall i :: at <= i < FindFrom(lines, IsRule, at) ==> !IsHeading(lines[i])
    ensures forall l :: l in UpToRule(lines, at) ==> !IsHeading(l)
  {
    hide IsHeading, IsRule;
    var stray := UpToRule(lines, at);
    forall l | l in stray ensures !IsHeading(l) {
      var i :| 0 <= i < |stray| && stray[i] == l;
      assert l == lines[at + i];
    }
  }

  /** The new sections are read back, with the lines the file has there under the last one. */
  lemma {:induction false} FirstIsRead(lines: seq<Line>, series: nat, ts: seq<Text>)
    requires ActiveSections(lines, series).Some? && ActiveSections(lines, series).value.texts == []
    requires HeaderLine(lines, series) + 1 < |lines| && ts != [] && AreTexts(ts) && NoRules(ts)
    ensures var h := HeaderLine(lines, series);
            var out := WithFirst(lines, h + 1, ts);
            && ActiveSections(out, series).Some? && ActiveSections(out, series).value.at == h + 1
            && HeaderLine(out, series) == h
            && TextsIn(out, series)
               == ts[..|ts| - 1] + [Strip(ts[|ts| - 1] + [""] + UpToRule(lines, h + 1))]
  {
    hide *;
    NoSections(lines, series);
    var h := HeaderLine(lines, series);
    var stray := UpToRule(lines, h + 1);
    StrayHasNoHeading(lines, h + 1);
    FirstEnds(lines, series, ts);
    SpreadReads(ts, stray);
    var out, body := WithFirst(lines, h + 1, ts), Spread(ts) + stray;
    EndsRead(out, series, h, h + 1, h + 1 + |body|);
    TextsAre(out, series);
  }

  // ---------------------------------------------------------------------------------------------
  // The Unreleased lines are written above the sections

  /** The file with other lines between its header and its first section. */
  lemma {:induction false} FrontChanges(out: seq<Line>, series: nat, s: Sections, front: seq<Line>)
    requires ActiveSections(out, series) == Some(s) && s.texts != [] && StartsAt(out, series, s)
    requires var h := HeaderLine(out, series);
             && h + 2 <= |front| && front[..h + 1] == out[..h + 1]
             && (forall i :: h + 1 <= i < |front| ==> !IsHeading(front[i]) && !IsRule(front[i]))
    ensures TextsIn(front + out[s.at..], series) == s.texts
    ensures ActiveSections(front + out[s.at..], series).Some?
  {
    hide *;
    SectionLines(out, series, s);
    FrontEnds(out, series, s, front);
    SameSlice(front, out, s.at, s.end);
    SliceIsRead(front + out[s.at..], series, HeaderLine(out, series), |front|, out[s.at..s.end]);
  }

  lemma {:induction false} SliceIsRead(r: seq<Line>, series: nat, h: nat, first: nat, body: seq<Line>)
    requires body != [] && EndsAt(r, series, h, first, first + |body|) && first + |body| <= |r|
    requires r[first..first + |body|] == body
    ensures TextsIn(r, series) == TextsOf(body) && ActiveSections(r, series).Some?
  {
    hide *;
    EndsRead(r, series, h, first, first + |body|);
    TextsAre(r, series);
  }

  lemma {:induction false} SameSlice(front: seq<Line>, out: seq<Line>, i: nat, j: nat)
    requires i <= j <= |out|
    ensures |front| + |out[i..j]| <= |front + out[i..]|
    ensures (front + out[i..])[|front|..|front| + |out[i..j]|] == out[i..j]
  {
  }

  lemma {:induction false} TextsAre(lines: seq<Line>, series: nat)
    requires ActiveSections(lines, series).Some?
    ensures TextsIn(lines, series) == ActiveSections(lines, series).value.texts
  {
  }

  lemma {:induction false} FrontEnds(out: seq<Line>, series: nat, s: Sections, front: seq<Line>)
    requires ActiveSections(out, series) == Some(s) && s.texts != [] && StartsAt(out, series, s)
    requires var h := HeaderLine(out, series);
             && h + 2 <= |front| && front[..h + 1] == out[..h + 1]
             && (forall i :: h + 1 <= i < |front| ==> !IsHeading(front[i]) && !IsRule(front[i]))
    ensures s.at < s.end <= |out|
    ensures EndsAt(front + out[s.at..], series, HeaderLine(out, series), |front|, |front| + |out[s.at..s.end]|)
  {
    hide HeaderLine, HoldsHeader, IsHeading, IsRule, ActiveSections, TextsOf;
    SectionLines(out, series, s);
    var h, r := HeaderLine(out, series), front + out[s.at..];
    var first, end := |front|, |front| + (s.end - s.at);
    assert forall i :: 0 <= i <= h ==> r[i] == front[..h + 1][i] == out[i];
    assert forall i :: h < i < first ==> r[i] == front[i];
    assert forall i :: first <= i < end ==> r[i] == out[i - first + s.at];
    assert end < |r| ==> r[end] == out[s.end];
  }

  /** The sections start with a heading and hold no rule. */
  lemma {:induction false} SectionLines(out: seq<Line>, series: nat, s: Sections)
    requires ActiveSections(out, series) == Some(s) && s.texts != [] && StartsAt(out, series, s)
    ensures s.at < s.end <= |out| && s.texts == TextsOf(out[s.at..s.end])
    ensures IsHeading(out[s.at]) && forall i :: s.at <= i < s.end ==> !IsRule(out[i])
  {
    HeadingIsNoRule(out[s.at]);
    hide IsHeading, IsRule, HoldsHeader, TextsOf;
  }

  lemma {:induction false} EntryIsNoHeading(l: Line)
    requires IsEntry(l)
    ensures !IsHeading(l)
  {
    if IsHeading(l) {
      HeadingEnds(l);
    }
  }

  lemma {:induction false} HeadingEnds(l: Line)
    requires IsHeading(l)
    ensures EndsRegion(l)
  {
    assert l[..4] == l[..5][..4] == "### ";
  }

  /** Where the Unreleased lines of the file end, before the first section. */
  lemma {:induction false} RegionBefore(out: seq<Line>, series: nat, s: Sections)
    requires ActiveSections(out, series) == Some(s) && s.texts != [] && StartsAt(out, series, s)
    requires RegionOf(out, series).Some?
    ensures var r := RegionOf(out, series).value;
            HeaderLine(out, series) < r.start <= r.end <= s.at
  {
    var h := HeaderLine(out, series);
    var r := RegionOf(out, series).value;
    SectionLines(out, series, s);
    HeadingEnds(out[s.at]);
    hide NamesUnreleased, EndsRegion, IsHeading, IsRule, HoldsHeader;
    FindFromIs(out, IsHeading, h + 1, s.at);
  }

  ghost predicate NoneRules(ls: seq<Line>) { forall l :: l in ls ==> !IsRule(l) }

  /** No Unreleased line of the file is a rule, since none lies before its first section. */
  lemma {:induction false} RegionHasNoRule(out: seq<Line>, series: nat, s: Sections)
    requires ActiveSections(out, series) == Some(s) && s.texts != [] && StartsAt(out, series, s)
    requires RegionOf(out, series).Some? && out[HeaderLine(out, series) + 1] == ""
    ensures NoneRules(UnreleasedLines(out, series))
  {
    hide RegionOf, HeaderLine, IsRule, HoldsHeader, IsHeading, ActiveSections, UnreleasedLines;
    var h, reg := HeaderLine(out, series), RegionOf(out, series).value;
    RegionBefore(out, series, s);
    HeadingIsNoRule("");
    forall l | l in UnreleasedLines(out, series) ensures !IsRule(l) {
      var i := RegionLine(out, series, l);
    }
  }

  lemma {:induction false} RegionLine(out: seq<Line>, series: nat, l: Line) returns (i: nat)
    requires RegionOf(out, series).Some? && l in UnreleasedLines(out, series)
    ensures RegionOf(out, series).value.start <= i < RegionOf(out, series).value.end && out[i] == l
  {
    var reg := RegionOf(out, series).value;
    assert UnreleasedLines(out, series) == LinesIn(out, reg);
    hide RegionOf, UnreleasedLines;
    i := LineIn(out, reg, l);
  }

  lemma {:induction false} LineIn(out: seq<Line>, r: Region, l: Line) returns (i: nat)
    requires r.start <= r.end <= |out| && l in LinesIn(out, r)
    ensures r.start <= i < r.end && out[i] == l
  {
    hide Filled;
    var part := out[r.start..r.end];
    assert l in part;
    var k :| 0 <= k < |part| && part[k] == l;
    i := r.start + k;
  }

  ghost predicate AreEntries(ls: seq<Line>) { forall l :: l in ls ==> IsEntry(l) && !IsRule(l) }

  lemma {:induction false} QuietReplace(out: seq<Line>, series: nat, s: Sections, r: Region, ls: seq<Line>)
    requires ActiveSections(out, series) == Some(s) && s.texts != [] && StartsAt(out, series, s)
    requires HeaderLine(out, series) < r.start <= r.end <= s.at && out[HeaderLine(out, series) + 1] == ""
    requires AreEntries(ls)
    ensures ActiveSections(ReplaceRegion(out, r, ls), series).Some?
    ensures TextsIn(ReplaceRegion(out, r, ls), series) == s.texts
  {
    var h := HeaderLine(out, series);
    var front := out[..r.start] + ls + [""] + out[r.end..s.at];
    HeadingIsNoRule("");
    EntriesAreQuiet(ls);
    SectionsInside(out, series, s);
    ReplaceParts(out, r, ls, s.at);
    hide *;
    QuietFront(out, series, s, r, ls, front);
    FrontChanges(out, series, s, front);
  }

  lemma {:induction false} ReplaceParts(out: seq<Line>, r: Region, ls: seq<Line>, at: nat)
    requires r.start <= r.end <= at < |out|
    ensures ReplaceRegion(out, r, ls) == out[..r.start] + ls + [""] + out[r.end..at] + out[at..]
  {
  }

  lemma {:induction false} EntriesAreQuiet(ls: seq<Line>)
    requires AreEntries(ls)
    ensures forall l :: l in ls ==> !IsHeading(l) && !IsRule(l)
  {
    hide IsEntry, IsHeading, IsRule;
    forall l | l in ls ensures !IsHeading(l) {
      EntryIsNoHeading(l);
    }
  }

  lemma {:induction false} QuietFront(out: seq<Line>, series: nat, s: Sections, r: Region, ls: seq<Line>,
                                      front: seq<Line>)
    requires StartsAt(out, series, s) && out[HeaderLine(out, series) + 1] == ""
    requires HeaderLine(out, series) < r.start <= r.end <= s.at
    requires forall l :: l in ls || l == "" ==> !IsHeading(l) && !IsRule(l)
    requires front == out[..r.start] + ls + [""] + out[r.end..s.at]
    ensures var h := HeaderLine(out, series);
            && h + 2 <= |front| && front[..h + 1] == out[..h + 1]
            && (forall i :: h + 1 <= i < |front| ==> !IsHeading(front[i]) && !IsRule(front[i]))
  {
    var h, n := HeaderLine(out, series), r.start + |ls|;
    hide HeaderLine, HoldsHeader, IsHeading, IsRule;
    forall i | h + 1 <= i < |front| ensures !IsHeading(front[i]) && !IsRule(front[i]) {
      if i < r.start {
        assert front[i] == out[i];
      } else if i < n {
        assert front[i] == ls[i - r.start];
      } else if i > n {
        assert front[i] == out[i - n - 1 + r.end];
      }
    }
  }

  lemma {:induction false} QuietCreate(out: seq<Line>, series: nat, s: Sections, own: seq<Line>)
    requires ActiveSections(out, series) == Some(s) && s.texts != [] && StartsAt(out, series, s)
    requires out[HeaderLine(out, series) + 1] == "" && AreEntries(own)
    ensures ActiveSections(CreateRegion(out, series, own), series).Some?
    ensures TextsIn(CreateRegion(out, series, own), series) == s.texts
  {
    var h := HeaderLine(out, series);
    var ls := [UNRELEASED] + own;
    HeadingIsNoRule("");
    UnreleasedIsNoHeading();
    RuleSign(UNRELEASED);
    EntriesAreQuiet(own);
    SectionsInside(out, series, s);
    BlankUnderHeader(out, series, s);
    var r := Region(h + 2, h + 2);
    assert h + 2 <= s.at;
    CreateParts(out, series, own, s.at);
    hide *;
    QuietFront(out, series, s, r, ls, out[..r.start] + ls + [""] + out[r.end..s.at]);
    FrontChanges(out, series, s, out[..r.start] + ls + [""] + out[r.end..s.at]);
  }

  lemma {:induction false} CreateParts(out: seq<Line>, series: nat, own: seq<Line>, at: nat)
    requires BlankLine(out, series) < at < |out|
    ensures var p := BlankLine(out, series) + 1;
            CreateRegion(out, series, own) == out[..p] + ([UNRELEASED] + own) + [""] + out[p..at] + out[at..]
  {
    hide BlankLine;
  }

  lemma {:induction false} BlankUnderHeader(out: seq<Line>, series: nat, s: Sections)
    requires StartsAt(out, series, s) && out[HeaderLine(out, series) + 1] == ""
    ensures BlankLine(out, series) == HeaderLine(out, series) + 1
  {
    hide HoldsHeader, IsHeading, IsRule;
    var h := HeaderLine(out, series);
    FindFromIs(out, (l: Line) => l == "", h + 1, h + 1);
  }

  /** Uniting the Unreleased lines leaves every section as it is. */
  lemma {:induction false} UnreleasedKeepsSections(out: seq<Line>, ours: seq<Line>, base: seq<Line>, series: nat)
    requires ActiveSections(out, series).Some? && TextsIn(out, series) != []
    requires var h := HeaderLine(out, series); h + 1 < ActiveSections(out, series).value.at && out[h + 1] == ""
    requires forall l :: l in UnreleasedLines(ours, series) ==> !IsRule(l)
    ensures ActiveSections(UnionUnreleased(out, ours, base, series), series).Some?
    ensures TextsIn(UnionUnreleased(out, ours, base, series), series) == TextsIn(out, series)
  {
    var s := ActiveSections(out, series).value;
    FileStarts(out, series);
    var o, t, a := UnreleasedLines(ours, series), UnreleasedLines(out, series), UnreleasedLines(base, series);
    var own, kept := Own(o, t, a), Kept(o, t, a);
    EntriesOf(ours, series);
    EntriesOf(out, series);
    hide HeaderLine, IsRule, IsEntry, StartsAt, UnreleasedLines, ActiveSections, ReplaceRegion, CreateRegion;
    if RegionOf(out, series).Some? {
      var reg := RegionOf(out, series).value;
      RegionBefore(out, series, s);
      RegionHasNoRule(out, series, s);
      assert AreEntries(own + kept);
      hide RegionOf, Own, Kept;
      QuietReplace(out, series, s, reg, own + kept);
    } else {
      assert AreEntries(own);
      hide RegionOf, Own, Kept;
      QuietCreate(out, series, s, own);
    }
  }
}
