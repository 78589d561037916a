/**
 * The version sections of CHANGELOG.md in a merge: `activeMdBlocks` and `unionChangelogMd`
 * (scripts/renumber/conflicts.ts), on the lines of the file.
 */
module MdMerge {
  import opened ChangelogMd
  import opened Seqs
  import opened Texts
  import opened Unreleased

  // ---------------------------------------------------------------------------------------------
  // Text search: `indexOf` and `slice`, for texts of several lines

  datatype Place = Place(line: nat, column: nat)

  predicate NotAfter(p: Place, q: Place) { p.line < q.line || (p.line == q.line && p.column <= q.column) }

  /** The text of `needle` is in the file at `p`; its first line may start and its last line may end inside a line. */
  predicate TextAt(lines: seq<Line>, needle: Text, p: Place) {
    && needle != [] && p.line + |needle| <= |lines| && p.column <= |lines[p.line]|
    && var n := |needle| - 1;
       if n == 0 then StartsWith(lines[p.line][p.column..], needle[0])
       else
         && lines[p.line][p.column..] == needle[0]
         && lines[p.line + 1..p.line + n] == needle[1..n]
         && StartsWith(lines[p.line + n], needle[n])
  }

  /** The first place of the text at or after `p`. */
  function PlaceFrom(lines: seq<Line>, needle: Text, p: Place): (q: Option<Place>)
    requires p.line < |lines| ==> p.column <= |lines[p.line]|
    requires p.line <= |lines|
    ensures q.Some? ==> NotAfter(p, q.value) && TextAt(lines, needle, q.value)
    ensures forall x: Place :: NotAfter(p, x) && TextAt(lines, needle, x) ==> q.Some? && NotAfter(q.value, x)
    decreases |lines| - p.line, if p.line < |lines| then |lines[p.line]| - p.column else 0
  {
    if p.line == |lines| then None
    else if TextAt(lines, needle, p) then Some(p)
    else if p.column < |lines[p.line]| then PlaceFrom(lines, needle, Place(p.line, p.column + 1))
    else PlaceFrom(lines, needle, Place(p.line + 1, 0))
  }

  /** `text.indexOf(needle, …)` from the start of line `from`. */
  function IndexOf(lines: seq<Line>, needle: Text, from: nat): Option<Place>
    requires from <= |lines|
  {
    PlaceFrom(lines, needle, Place(from, 0))
  }

  /** A text between the rest of a line before it and the rest of a line after it. */
  function Glue(before: Line, text: Text, after: Line): (r: seq<Line>)
    ensures r != []
  {
    if text == [] then [before + after]
    else if |text| == 1 then [before + text[0] + after]
    else [before + text[0]] + text[1..|text| - 1] + [text[|text| - 1] + after]
  }

  /** `slice(0, p) + text + slice(p + needle.length)`. */
  function Splice(lines: seq<Line>, needle: Text, p: Place, text: Text): (r: seq<Line>)
    requires TextAt(lines, needle, p)
    ensures |r| > p.line
  {
    var n := |needle| - 1;
    var last := lines[p.line + n];
    var after := last[(if n == 0 then p.column else 0) + |needle[n]|..];
    lines[..p.line] + Glue(lines[p.line][..p.column], text, after) + lines[p.line + n + 1..]
  }

  // ---------------------------------------------------------------------------------------------
  // The version sections of a file

  /** `at`: the line the sections start on, or would; `end`: the rule under them, or the end of the file. */
  datatype Sections = Sections(at: nat, end: nat, texts: seq<Text>)

  function SectionsFrom(lines: seq<Line>, b: nat): (s: Sections)
    requires b < |lines|
    ensures b <= s.at < s.end <= |lines|
  {
    var end := FindFrom(lines, IsRule, b + 1);
    var first := FindFrom(lines, IsHeading, b);
    if first >= end then Sections(b, end, []) else Sections(first, end, TextsOf(lines[first..end]))
  }

  /** `None`: no header of the series. */
  function ActiveSections(lines: seq<Line>, series: nat): (s: Option<Sections>)
    ensures s.Some? ==> s.value.at < s.value.end <= |lines|
  {
    var h := HeaderLine(lines, series);
    if h == |lines| then None else Some(SectionsFrom(lines, BodyStart(lines, h)))
  }

  /** The sections of a file, such as the ancestor; none when it has no header, or git has no such file. */
  function TextsIn(base: seq<Line>, series: nat): seq<Text> {
    match ActiveSections(base, series) case None => [] case Some(s) => s.texts
  }

  /** The first line of a section. */
  function HeadOf(t: Text): Line { if t == [] then "" else t[0] }

  predicate HasHead(ts: seq<Text>, g: Line) { exists t :: t in ts && HeadOf(t) == g }

  /** `Map` of the sections by heading: the last one of a heading wins. */
  function ByHead(ts: seq<Text>, g: Line): (t: Option<Text>)
    ensures t.Some? <==> HasHead(ts, g)
    ensures t.Some? ==> t.value in ts && HeadOf(t.value) == g
  {
    if ts == [] then None
    else if HeadOf(ts[|ts| - 1]) == g then Some(ts[|ts| - 1])
    else
      assert forall x :: x in ts && HeadOf(x) == g ==> x in ts[..|ts| - 1];
      ByHead(ts[..|ts| - 1], g)
  }

  // ---------------------------------------------------------------------------------------------
  // `unionChangelogMd`

  /** The branch's sections that neither the base nor the ancestor holds. */
  function ChangedOf(ours: seq<Text>, theirs: seq<Text>, ancestor: seq<Text>): seq<Text> {
    Filter(ours, (b: Text) => b !in theirs && b !in ancestor)
  }

  /** The base edited this section of the branch too. */
  predicate EditedTwice(theirs: seq<Text>, ancestor: seq<Text>, b: Text) {
    ByHead(theirs, HeadOf(b)).Some? && ByHead(ancestor, HeadOf(b)) != ByHead(theirs, HeadOf(b))
  }

  /** The branch's edits by heading, and the headings in the order they were set. */
  datatype Edits = Edits(order: seq<Line>, texts: map<Line, Text>)

  ghost predicate IsListed(e: Edits) { forall g :: g in e.order <==> g in e.texts }

  function SetEdit(e: Edits, theirs: seq<Text>, b: Text): (r: Edits)
    ensures IsListed(e) ==> IsListed(r)
  {
    var g := HeadOf(b);
    if ByHead(theirs, g).None? then e
    else Edits(if g in e.texts then e.order else e.order + [g], e.texts[g := b])
  }

  /** `None`: both sides edited a section. */
  function EditsOf(changed: seq<Text>, theirs: seq<Text>, ancestor: seq<Text>): (e: Option<Edits>)
    ensures e.Some? ==> IsListed(e.value)
  {
    if changed == [] then Some(Edits([], map[]))
    else
      var b := changed[|changed| - 1];
      match EditsOf(changed[..|changed| - 1], theirs, ancestor)
      case None => None
      case Some(e) => if EditedTwice(theirs, ancestor, b) then None else Some(SetEdit(e, theirs, b))
  }

  function TextFor(theirs: seq<Text>, g: Line): Text {
    match ByHead(theirs, g) case None => [] case Some(t) => t
  }

  /** Each edited section replaces the base's text of it where that text is found. */
  function PutEdits(out: seq<Line>, at: nat, order: seq<Line>, texts: map<Line, Text>, theirs: seq<Text>)
    : (r: Option<seq<Line>>)
    requires at < |out| && forall g :: g in order ==> g in texts
    ensures r.Some? ==> at < |r.value|
    decreases |order|
  {
    if order == [] then Some(out)
    else
      var g := order[0];
      var was := TextFor(theirs, g);
      match IndexOf(out, was, at)
      case None => None
      case Some(p) => PutEdits(Splice(out, was, p, texts[g]), at, order[1..], texts, theirs)
  }

  /** The branch deleted this section of the ancestor, and the base left it as it was. */
  predicate Dropped(ours: seq<Text>, theirs: seq<Text>, texts: map<Line, Text>, b: Text) {
    b !in ours && b in theirs && HeadOf(b) !in texts
  }

  /** A dropped section goes with the empty line after it. */
  function DropAll(out: seq<Line>, at: nat, ancestor: seq<Text>, ours: seq<Text>, theirs: seq<Text>,
                   texts: map<Line, Text>): (r: Option<seq<Line>>)
    requires at < |out|
    ensures r.Some? ==> at < |r.value|
    decreases |ancestor|
  {
    if ancestor == [] then Some(out)
    else
      var b := ancestor[0];
      if !Dropped(ours, theirs, texts, b) then DropAll(out, at, ancestor[1..], ours, theirs, texts)
      else
        match IndexOf(out, b + ["", ""], at)
        case None => None
        case Some(p) => DropAll(Splice(out, b + ["", ""], p, [""]), at, ancestor[1..], ours, theirs, texts)
  }

  /** The branch's new sections. */
  function Extra(changed: seq<Text>, texts: map<Line, Text>): seq<Text> {
    Filter(changed, (b: Text) => HeadOf(b) !in texts)
  }

  /** Each with an empty line after it. */
  function Spread(ts: seq<Text>): seq<Line> {
    if ts == [] then [] else ts[0] + [""] + Spread(ts[1..])
  }

  /** The merged file before its Unreleased lines are united. */
  function UnionSections(ours: seq<Line>, theirs: seq<Line>, base: seq<Line>, series: nat): Option<seq<Line>> {
    var o, t, a := ActiveSections(ours, series), ActiveSections(theirs, series), TextsIn(base, series);
    if o.None? || t.None? then None else WriteSections(theirs, t.value, o.value.texts, a)
  }

  function WriteSections(theirs: seq<Line>, t: Sections, ours: seq<Text>, ancestor: seq<Text>): Option<seq<Line>>
    requires t.at < |theirs|
  {
    var changed := ChangedOf(ours, t.texts, ancestor);
    match EditsOf(changed, t.texts, ancestor)
    case None => None
    case Some(e) =>
      match PutEdits(theirs, t.at, e.order, e.texts, t.texts)
      case None => None
      case Some(edited) =>
        match DropAll(edited, t.at, ancestor, ours, t.texts, e.texts)
        case None => None
        case Some(left) => Some(left[..t.at] + Spread(Extra(changed, e.texts)) + left[t.at..])
  }

  function UnionMd(ours: seq<Line>, theirs: seq<Line>, base: seq<Line>, series: nat): Option<seq<Line>> {
    match UnionSections(ours, theirs, base, series)
    case None => None
    case Some(out) => Some(UnionUnreleased(out, ours, base, series))
  }

  // ---------------------------------------------------------------------------------------------
  // The source's loops

  method CollectEdits(changed: seq<Text>, theirs: seq<Text>, ancestor: seq<Text>) returns (e: Option<Edits>)
    ensures e == EditsOf(changed, theirs, ancestor)
  {
    hide ByHead, EditedTwice, SetEdit, IsListed;
    var edits := Edits([], map[]);
    for i := 0 to |changed|
      invariant EditsOf(changed[..i], theirs, ancestor) == Some(edits)
    {
      assert changed[..i + 1][..i] == changed[..i] && changed[..i + 1][i] == changed[i];
      if EditedTwice(theirs, ancestor, changed[i]) {
        EditsStop(changed, theirs, ancestor, i + 1);
        return None;
      }
      edits := SetEdit(edits, theirs, changed[i]);
    }
    assert changed[..|changed|] == changed;
    e := Some(edits);
  }

  lemma {:induction false} EditsStop(changed: seq<Text>, theirs: seq<Text>, ancestor: seq<Text>, i: nat)
    requires i <= |changed| && EditsOf(changed[..i], theirs, ancestor).None?
    ensures EditsOf(changed, theirs, ancestor).None?
    decreases |changed| - i
  {
    hide ByHead, EditedTwice, SetEdit, IsListed;
    if i == |changed| {
      assert changed[..i] == changed;
    } else {
      assert changed[..i + 1][..i] == changed[..i];
      EditsStop(changed, theirs, ancestor, i + 1);
    }
  }

  method ReplaceEdited(theirs: seq<Line>, t: Sections, e: Edits) returns (r: Option<seq<Line>>)
    requires t.at < |theirs| && IsListed(e)
    ensures r == PutEdits(theirs, t.at, e.order, e.texts, t.texts)
  {
    hide PlaceFrom, TextFor, Glue;
    var out := theirs;
    assert e.order[0..] == e.order;
    for i := 0 to |e.order|
      invariant t.at < |out|
      invariant PutEdits(theirs, t.at, e.order, e.texts, t.texts) == PutEdits(out, t.at, e.order[i..], e.texts, t.texts)
    {
      var g := e.order[i];
      assert e.order[i..][0] == g && e.order[i..][1..] == e.order[i + 1..];
      var was := TextFor(t.texts, g);
      var p := IndexOf(out, was, t.at);
      if p.None? {
        return None;
      }
      out := Splice(out, was, p.value, e.texts[g]);
    }
    r := Some(out);
  }

  method DropDeleted(edited: seq<Line>, at: nat, ancestor: seq<Text>, ours: seq<Text>, theirs: seq<Text>,
                     texts: map<Line, Text>) returns (r: Option<seq<Line>>)
    requires at < |edited|
    ensures r == DropAll(edited, at, ancestor, ours, theirs, texts)
  {
    hide PlaceFrom, Dropped, Glue;
    var out := edited;
    assert ancestor[0..] == ancestor;
    for i := 0 to |ancestor|
      invariant at < |out|
      invariant DropAll(edited, at, ancestor, ours, theirs, texts) == DropAll(out, at, ancestor[i..], ours, theirs, texts)
    {
      var b := ancestor[i];
      assert ancestor[i..][0] == b && ancestor[i..][1..] == ancestor[i + 1..];
      if Dropped(ours, theirs, texts, b) {
        var p := IndexOf(out, b + ["", ""], at);
        if p.None? {
          return None;
        }
        out := Splice(out, b + ["", ""], p.value, [""]);
      }
    }
    r := Some(out);
  }

  method UnionChangelogMd(ours: seq<Line>, theirs: seq<Line>, base: seq<Line>, series: nat)
    returns (r: Option<seq<Line>>)
    ensures r == UnionMd(ours, theirs, base, series)
  {
    var o, t, ancestor := ActiveSections(ours, series), ActiveSections(theirs, series), TextsIn(base, series);
    if o.None? || t.None? {
      return None;
    }
    var changed := ChangedOf(o.value.texts, t.value.texts, ancestor);
    var e := CollectEdits(changed, t.value.texts, ancestor);
    if e.None? {
      return None;
    }
    var edited := ReplaceEdited(theirs, t.value, e.value);
    if edited.None? {
      return None;
    }
    var left := DropDeleted(edited.value, t.value.at, ancestor, o.value.texts, t.value.texts, e.value.texts);
    if left.None? {
      return None;
    }
    var extra := Extra(changed, e.value.texts);
    var at := t.value.at;
    r := Some(UnionUnreleased(left.value[..at] + Spread(extra) + left.value[at..], ours, base, series));
  }
}
