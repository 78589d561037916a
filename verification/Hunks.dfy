/** Conflict hunks of a merged file (`resolveHunks`, scripts/renumber/conflicts.ts), on the lines of the file. */
module Hunks {
  import opened Seqs
  import opened Texts

  datatype Hunk = Hunk(ours: seq<Line>, theirs: seq<Line>)

  datatype Side = Ours | Base | Theirs

  type Pick = Hunk -> Option<seq<Line>>

  predicate OpensHunk(l: Line) { StartsWith(l, "<<<<<<< ") }

  predicate OpensBase(l: Line) { StartsWith(l, "||||||| ") }

  predicate OpensTheirs(l: Line) { l == "=======" }

  predicate ClosesHunk(l: Line) { StartsWith(l, ">>>>>>> ") }

  // ---------------------------------------------------------------------------------------------
  // What a merged file means

  datatype Segment = Clean(line: Line) | Conflict(hunk: Hunk)

  /** `open`: the file ends inside a hunk. */
  datatype Parsed = Parsed(segments: seq<Segment>, open: bool)

  /** The two kept sides of the lines inside a hunk, entered on `side`. */
  function Sides(body: seq<Line>, side: Side): Hunk {
    if body == [] then Hunk([], [])
    else if OpensBase(body[0]) then Sides(body[1..], Base)
    else if OpensTheirs(body[0]) then Sides(body[1..], Theirs)
    else
      var rest := Sides(body[1..], side);
      match side
      case Ours => rest.(ours := [body[0]] + rest.ours)
      case Base => rest
      case Theirs => rest.(theirs := [body[0]] + rest.theirs)
  }

  function HunkEnd(lines: seq<Line>): (k: nat)
    ensures k <= |lines|
    ensures forall i :: 0 <= i < k ==> !ClosesHunk(lines[i])
    ensures k < |lines| ==> ClosesHunk(lines[k])
  {
    FindFrom(lines, ClosesHunk, 0)
  }

  function Parse(lines: seq<Line>): Parsed
    decreases |lines|
  {
    if lines == [] then Parsed([], false)
    else if OpensHunk(lines[0]) then
      var body := lines[1..];
      var end := HunkEnd(body);
      if end == |body| then Parsed([], true)
      else
        var rest := Parse(body[end + 1..]);
        rest.(segments := [Conflict(Sides(body[..end], Ours))] + rest.segments)
    else
      var rest := Parse(lines[1..]);
      rest.(segments := [Clean(lines[0])] + rest.segments)
  }

  predicate Refuses(s: Segment, pick: Pick) { s.Conflict? && pick(s.hunk).None? }

  /** Clean lines in place, each hunk replaced by its pick. */
  function Replace(segments: seq<Segment>, pick: Pick): seq<Line>
    requires forall s :: s in segments ==> !Refuses(s, pick)
  {
    if segments == [] then []
    else
      assert !Refuses(segments[0], pick);
      (match segments[0] case Clean(l) => [l] case Conflict(h) => pick(h).value) + Replace(segments[1..], pick)
  }

  /** The outcome the tool promises: refused exactly when the last hunk is open or a pick refuses. */
  ghost predicate IsOutcome(merged: seq<Line>, pick: Pick, r: Option<seq<Line>>) {
    var p := Parse(merged);
    && (r.None? <==> p.open || exists s :: s in p.segments && Refuses(s, pick))
    && (r.Some? ==> (forall s :: s in p.segments ==> !Refuses(s, pick)) && r.value == Replace(p.segments, pick))
  }

  // ---------------------------------------------------------------------------------------------
  // The loop

  function Before(out: seq<Line>, r: Option<seq<Line>>): Option<seq<Line>> {
    match r case None => None case Some(ls) => Some(out + ls)
  }

  function Resolve(lines: seq<Line>, pick: Pick): (r: Option<seq<Line>>)
    decreases |lines|, 0
  {
    if lines == [] then Some([])
    else if OpensHunk(lines[0]) then ResolveInside(Hunk([], []), Ours, lines[1..], pick)
    else Before([lines[0]], Resolve(lines[1..], pick))
  }

  /** Inside a hunk of which `sofar` was read. */
  function ResolveInside(sofar: Hunk, side: Side, lines: seq<Line>, pick: Pick): (r: Option<seq<Line>>)
    decreases |lines|, 1
  {
    var end := HunkEnd(lines);
    if end == |lines| then None
    else
      var h := Sides(lines[..end], side);
      match pick(Hunk(sofar.ours + h.ours, sofar.theirs + h.theirs))
      case None => None
      case Some(picked) => Before(picked, Resolve(lines[end + 1..], pick))
  }

  lemma {:induction false} ResolveIsOutcome(lines: seq<Line>, pick: Pick)
    ensures IsOutcome(lines, pick, Resolve(lines, pick))
    decreases |lines|
  {
    if lines != [] {
      if OpensHunk(lines[0]) {
        var body := lines[1..];
        var end := HunkEnd(body);
        if end < |body| {
          ResolveIsOutcome(body[end + 1..], pick);
          var h := Sides(body[..end], Ours);
          assert [] + h.ours == h.ours && [] + h.theirs == h.theirs;
          OutcomeCons(Conflict(h), body[end + 1..], lines, pick);
        }
      } else {
        ResolveIsOutcome(lines[1..], pick);
        OutcomeCons(Clean(lines[0]), lines[1..], lines, pick);
      }
    }
  }

  lemma {:induction false} OutcomeCons(s: Segment, rest: seq<Line>, lines: seq<Line>, pick: Pick)
    requires IsOutcome(rest, pick, Resolve(rest, pick))
    requires Parse(lines) == Parse(rest).(segments := [s] + Parse(rest).segments)
    requires Resolve(lines, pick) == match s
             case Clean(l) => Before([l], Resolve(rest, pick))
             case Conflict(h) => if pick(h).None? then None else Before(pick(h).value, Resolve(rest, pick))
    ensures IsOutcome(lines, pick, Resolve(lines, pick))
  {
    hide Parse, Resolve;
    var p, q := Parse(lines), Parse(rest);
    assert p.segments[1..] == q.segments;
    assert s in p.segments;
    assert forall x :: x in p.segments <==> x == s || x in q.segments;
  }

  lemma {:induction false} SidesStep(sofar: Hunk, side: Side, lines: seq<Line>, pick: Pick)
    requires lines != [] && !ClosesHunk(lines[0])
    ensures ResolveInside(sofar, side, lines, pick) ==
      if OpensBase(lines[0]) then ResolveInside(sofar, Base, lines[1..], pick)
      else if OpensTheirs(lines[0]) then ResolveInside(sofar, Theirs, lines[1..], pick)
      else match side
        case Ours => ResolveInside(sofar.(ours := sofar.ours + [lines[0]]), side, lines[1..], pick)
        case Base => ResolveInside(sofar, side, lines[1..], pick)
        case Theirs => ResolveInside(sofar.(theirs := sofar.theirs + [lines[0]]), side, lines[1..], pick)
  {
    var end := HunkEnd(lines);
    FindFromIs(lines[1..], ClosesHunk, 0, end - 1);
    if end < |lines| {
      assert lines[..end][1..] == lines[1..][..end - 1];
      assert lines[1..][end..] == lines[end + 1..];
      var rest := Sides(lines[1..][..end - 1], side);
      assert sofar.ours + ([lines[0]] + rest.ours) == (sofar.ours + [lines[0]]) + rest.ours;
      assert sofar.theirs + ([lines[0]] + rest.theirs) == (sofar.theirs + [lines[0]]) + rest.theirs;
    }
  }

  method ResolveHunks(merged: seq<Line>, pick: Pick) returns (r: Option<seq<Line>>)
    ensures IsOutcome(merged, pick, r)
  {
    ghost var outcome := Resolve(merged, pick);
    ResolveIsOutcome(merged, pick);
    hide IsOutcome, Sides, HunkEnd, Before, ResolveInside;
    BeforeNothing(outcome);
    var out: seq<Line> := [];
    var hunk: Option<Hunk> := None;
    var side := Ours;
    assert merged[0..] == merged;
    for k := 0 to |merged|
      invariant hunk.None? ==> outcome == Before(out, Resolve(merged[k..], pick))
      invariant hunk.Some? ==> outcome == Before(out, ResolveInside(hunk.value, side, merged[k..], pick))
    {
      var line := merged[k];
      assert merged[k..][1..] == merged[k + 1..];
      if hunk.None? {
        if OpensHunk(line) {
          hunk, side := Some(Hunk([], [])), Ours;
        } else {
          BeforeTwice(out, [line], Resolve(merged[k + 1..], pick));
          out := out + [line];
        }
      } else if OpensBase(line) {
        MarkersDiffer(line);
        SidesStep(hunk.value, side, merged[k..], pick);
        side := Base;
      } else if OpensTheirs(line) {
        SidesStep(hunk.value, side, merged[k..], pick);
        side := Theirs;
      } else if ClosesHunk(line) {
        CloseStep(hunk.value, side, merged[k..], pick);
        var picked := pick(hunk.value);
        if picked.None? {
          BeforeRefusal(out);
          return None;
        }
        BeforeTwice(out, picked.value, Resolve(merged[k + 1..], pick));
        out := out + picked.value;
        hunk := None;
      } else {
        SidesStep(hunk.value, side, merged[k..], pick);
        if side == Ours {
          hunk := Some(hunk.value.(ours := hunk.value.ours + [line]));
        } else if side == Theirs {
          hunk := Some(hunk.value.(theirs := hunk.value.theirs + [line]));
        }
      }
    }
    if hunk.None? {
      BeforeEnd(out);
      r := Some(out);
    } else {
      OpenEnd(hunk.value, side, pick);
      BeforeRefusal(out);
      r := None;
    }
  }

  lemma {:induction false} BeforeNothing(r: Option<seq<Line>>)
    ensures Before([], r) == r
  {
    assert r.Some? ==> [] + r.value == r.value;
  }

  lemma {:induction false} BeforeEnd(out: seq<Line>)
    ensures Before(out, Some([])) == Some(out)
  {
    assert out + [] == out;
  }

  lemma {:induction false} BeforeRefusal(out: seq<Line>)
    ensures Before(out, None) == None
  {
  }

  lemma {:induction false} BeforeTwice(a: seq<Line>, b: seq<Line>, r: Option<seq<Line>>)
    ensures Before(a, Before(b, r)) == Before(a + b, r)
  {
    assert r.Some? ==> a + (b + r.value) == (a + b) + r.value;
  }

  lemma {:induction false} OpenEnd(hunk: Hunk, side: Side, pick: Pick)
    ensures ResolveInside(hunk, side, [], pick) == None
  {
  }

  lemma {:induction false} MarkersDiffer(l: Line)
    ensures OpensBase(l) || OpensTheirs(l) ==> !ClosesHunk(l)
    ensures OpensBase(l) ==> !OpensTheirs(l)
  {
    assert OpensBase(l) ==> l[0] == "||||||| "[0] == '|';
    assert OpensTheirs(l) ==> l[0] == '=';
    assert ClosesHunk(l) ==> l[0] == ">>>>>>> "[0] == '>';
  }

  lemma {:induction false} CloseStep(hunk: Hunk, side: Side, lines: seq<Line>, pick: Pick)
    requires lines != [] && ClosesHunk(lines[0])
    ensures ResolveInside(hunk, side, lines, pick) ==
            if pick(hunk).None? then None else Before(pick(hunk).value, Resolve(lines[1..], pick))
  {
    FindFromIs(lines, ClosesHunk, 0, 0);
    assert lines[..0] == [];
    assert Hunk(hunk.ours + [], hunk.theirs + []) == hunk;
  }

  // ---------------------------------------------------------------------------------------------
  // The printer: what `git merge` writes, in merge style (`base.None?`) or diff3 style

  datatype Piece =
    | Text(line: Line)
    | Block(opening: Line, ours: seq<Line>, base: Option<(Line, seq<Line>)>, theirs: seq<Line>, closing: Line)

  predicate NoSeparator(l: Line) { !StartsWith(l, "||||||| ") && l != "=======" && !StartsWith(l, ">>>>>>> ") }

  /** Markers are markers and no content line looks like one. */
  predicate WellFormed(p: Piece) {
    match p
    case Text(l) => !StartsWith(l, "<<<<<<< ")
    case Block(opening, ours, base, theirs, closing) =>
      && StartsWith(opening, "<<<<<<< ") && StartsWith(closing, ">>>>>>> ")
      && (forall l :: l in ours ==> NoSeparator(l))
      && (forall l :: l in theirs ==> NoSeparator(l))
      && (base.Some? ==> StartsWith(base.value.0, "||||||| ") && forall l :: l in base.value.1 ==> NoSeparator(l))
  }

  function PrintBody(p: Piece): seq<Line>
    requires p.Block?
  {
    p.ours + (if p.base.Some? then [p.base.value.0] + p.base.value.1 else []) + ["======="] + p.theirs
  }

  function PrintPiece(p: Piece): seq<Line> {
    match p
    case Text(l) => [l]
    case Block(opening, _, _, _, closing) => [opening] + PrintBody(p) + [closing]
  }

  function Print(doc: seq<Piece>): seq<Line> {
    if doc == [] then [] else PrintPiece(doc[0]) + Print(doc[1..])
  }

  function MeaningOf(p: Piece): Segment {
    match p
    case Text(l) => Clean(l)
    case Block(_, ours, _, theirs, _) => Conflict(Hunk(ours, theirs))
  }

  function Meaning(doc: seq<Piece>): seq<Segment> { Map(doc, MeaningOf) }

  lemma {:induction false} SidesOfContent(body: seq<Line>, side: Side, rest: seq<Line>)
    requires forall l :: l in body ==> NoSeparator(l)
    ensures var h := Sides(rest, side);
            Sides(body + rest, side) == match side
              case Ours => h.(ours := body + h.ours)
              case Base => h
              case Theirs => h.(theirs := body + h.theirs)
  {
    if body == [] {
      assert body + rest == rest;
    } else {
      hide OpensBase, OpensTheirs, ClosesHunk;
      assert (body + rest)[1..] == body[1..] + rest && (body + rest)[0] == body[0];
      assert NoSeparator(body[0]);
      SidesOfContent(body[1..], side, rest);
      var h := Sides(rest, side);
      assert [body[0]] + (body[1..] + h.ours) == body + h.ours;
      assert [body[0]] + (body[1..] + h.theirs) == body + h.theirs;
    }
  }

  lemma {:induction false} SidesOfBody(p: Piece)
    requires p.Block? && WellFormed(p)
    ensures Sides(PrintBody(p), Ours) == Hunk(p.ours, p.theirs)
    ensures forall l :: l in PrintBody(p) ==> !ClosesHunk(l)
  {
    hide *;
    var tail := ["======="] + p.theirs;
    WellFormedParts(p);
    SidesOfTail(p.theirs);
    if p.base.Some? {
      var (marker, lines) := p.base.value;
      var mid := [marker] + (lines + tail);
      SidesOfBase(marker, lines, tail);
      SidesOfContent(p.ours, Ours, mid);
    } else {
      SidesOfContent(p.ours, Ours, tail);
    }
    assert p.ours + [] == p.ours;
  }

  /** The body of a printed block: our lines, then the base's with their marker, then theirs. */
  lemma {:induction false} WellFormedParts(p: Piece)
    requires p.Block? && WellFormed(p)
    ensures PrintBody(p) == p.ours + (if p.base.Some? then [p.base.value.0] + (p.base.value.1 + (["======="] + p.theirs)) else ["======="] + p.theirs)
    ensures (forall l :: l in p.ours ==> NoSeparator(l)) && forall l :: l in p.theirs ==> NoSeparator(l)
    ensures p.base.Some? ==> OpensBase(p.base.value.0) && forall l :: l in p.base.value.1 ==> NoSeparator(l)
    ensures forall l :: l in PrintBody(p) ==> !ClosesHunk(l)
  {
    MarkersDiffer("=======");
    if p.base.Some? {
      MarkersDiffer(p.base.value.0);
    }
    hide StartsWith, OpensBase, ClosesHunk;
  }

  lemma {:induction false} SidesOfTail(theirs: seq<Line>)
    requires forall l :: l in theirs ==> NoSeparator(l)
    ensures Sides(["======="] + theirs, Ours) == Hunk([], theirs) && Sides(["======="] + theirs, Base) == Hunk([], theirs)
  {
    MarkersDiffer("=======");
    SidesOfContent(theirs, Theirs, []);
    assert theirs + [] == theirs;
    assert (["======="] + theirs)[1..] == theirs;
    hide StartsWith, NoSeparator;
  }

  lemma {:induction false} SidesOfBase(marker: Line, lines: seq<Line>, tail: seq<Line>)
    requires OpensBase(marker) && forall l :: l in lines ==> NoSeparator(l)
    ensures Sides([marker] + (lines + tail), Ours) == Sides(tail, Base)
  {
    hide StartsWith, NoSeparator, OpensBase;
    assert ([marker] + (lines + tail))[1..] == lines + tail;
    SidesOfContent(lines, Base, tail);
  }

  /** Parsing undoes printing: the clean lines in place, each block with its two sides. */
  lemma {:induction false} ParsePrinted(doc: seq<Piece>, rest: seq<Line>)
    requires forall p :: p in doc ==> WellFormed(p)
    ensures Parse(Print(doc) + rest) == Parsed(Meaning(doc) + Parse(rest).segments, Parse(rest).open)
    decreases |doc|
  {
    hide Sides, PrintPiece, WellFormed, Parse, MeaningOf;
    if doc == [] {
      assert Print(doc) + rest == rest;
    } else {
      ParsePrinted(doc[1..], rest);
      ParseFirst(doc, Print(doc[1..]) + rest);
      assert Print(doc) + rest == PrintPiece(doc[0]) + (Print(doc[1..]) + rest);
      assert Meaning(doc) == [MeaningOf(doc[0])] + Meaning(doc[1..]);
      assert Meaning(doc) + Parse(rest).segments == [MeaningOf(doc[0])] + (Meaning(doc[1..]) + Parse(rest).segments);
    }
  }

  lemma {:induction false} ParseFirst(doc: seq<Piece>, more: seq<Line>)
    requires doc != [] && WellFormed(doc[0])
    ensures Parse(PrintPiece(doc[0]) + more)
         == Parse(more).(segments := [MeaningOf(doc[0])] + Parse(more).segments)
  {
    hide Sides, PrintBody, WellFormed, Parse;
    var p := doc[0];
    if p.Text? {
      ParseText(p, more);
    } else {
      assert PrintPiece(p) + more == [p.opening] + (PrintBody(p) + ([p.closing] + more));
      ParseBlock(p, more);
    }
  }

  lemma {:induction false} ParseText(p: Piece, more: seq<Line>)
    requires p.Text? && WellFormed(p)
    ensures Parse([p.line] + more) == Parse(more).(segments := [Clean(p.line)] + Parse(more).segments)
  {
    assert ([p.line] + more)[1..] == more;
  }

  lemma {:induction false} ParseBlock(p: Piece, more: seq<Line>)
    requires p.Block? && WellFormed(p)
    ensures Parse([p.opening] + (PrintBody(p) + ([p.closing] + more)))
         == Parse(more).(segments := [Conflict(Hunk(p.ours, p.theirs))] + Parse(more).segments)
  {
    SidesOfBody(p);
    assert OpensHunk(p.opening) && ClosesHunk(p.closing);
    hide *;
    ParseConflict(p.opening, PrintBody(p), p.closing, more);
  }

  lemma {:induction false} ParseConflict(opening: Line, body: seq<Line>, closing: Line, more: seq<Line>)
    requires OpensHunk(opening) && ClosesHunk(closing) && forall l :: l in body ==> !ClosesHunk(l)
    ensures Parse([opening] + (body + ([closing] + more)))
         == Parse(more).(segments := [Conflict(Sides(body, Ours))] + Parse(more).segments)
  {
    hide Sides, OpensHunk, ClosesHunk;
    var inside := body + ([closing] + more);
    var all := [opening] + inside;
    assert all[1..] == inside;
    FindFromIs(inside, ClosesHunk, 0, |body|);
    assert inside[..|body|] == body && inside[|body| + 1..] == more;
  }

  /** A printed file resolves to its clean lines with each block replaced by the pick, and a cut-off one is refused. */
  lemma {:induction false} ResolvePrinted(doc: seq<Piece>, pick: Pick, r: Option<seq<Line>>)
    requires forall p :: p in doc ==> WellFormed(p)
    requires IsOutcome(Print(doc), pick, r)
    ensures r.None? <==> exists s :: s in Meaning(doc) && Refuses(s, pick)
    ensures r.Some? ==> (forall s :: s in Meaning(doc) ==> !Refuses(s, pick)) && r.value == Replace(Meaning(doc), pick)
  {
    ParsePrinted(doc, []);
    assert Print(doc) + [] == Print(doc);
    assert Meaning(doc) + [] == Meaning(doc);
  }

  lemma {:induction false} CutOffIsRefused(doc: seq<Piece>, opening: Line, body: seq<Line>, pick: Pick,
                                           r: Option<seq<Line>>)
    requires (forall p :: p in doc ==> WellFormed(p)) && StartsWith(opening, "<<<<<<< ")
    requires forall l :: l in body ==> !StartsWith(l, ">>>>>>> ")
    requires IsOutcome(Print(doc) + ([opening] + body), pick, r)
    ensures r == None
  {
    ParsePrinted(doc, [opening] + body);
    assert ([opening] + body)[1..] == body;
    FindFromIs(body, ClosesHunk, 0, |body|);
  }
}
