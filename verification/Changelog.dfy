/**
 * The active changelog file, a TypeScript array of entry blocks: `splitChangelog` and `joinChangelog`
 * (scripts/renumber/plan.ts), on the lines of the file.
 */
module Changelog {
  import opened Decimals
  import opened Seqs
  import opened Texts

  type Entry = seq<Line>

  datatype ChangelogFile = ChangelogFile(head: seq<Line>, entries: seq<Entry>, tail: seq<Line>)

  datatype SplitError = ArrayNotFound | OutsideEntry(line: Line) | UnresolvedConflict | NotClosed

  const ARRAY_OPEN := "Updates: AIUpdateLog[] = ["
  const ARRAY_NAME := "export const v"

  /** Length of the run of digits `s` ends with. */
  function DigitsAtEnd(s: string): (n: nat)
    ensures n <= |s|
  {
    if s != [] && IsDigit(s[|s| - 1]) then 1 + DigitsAtEnd(s[..|s| - 1]) else 0
  }

  /** The line ends with `export const v<digits>Updates: AIUpdateLog[] = [`. */
  predicate OpensArray(l: Line) {
    && EndsWith(l, ARRAY_OPEN)
    && var front := l[..|l| - |ARRAY_OPEN|];
       var n := DigitsAtEnd(front);
       n > 0 && EndsWith(front[..|front| - n], ARRAY_NAME)
  }

  predicate ClosesArray(l: Line) { StartsWith(l, "];") }

  /** `/^ {2}\},?$/`. */
  predicate ClosesEntry(l: Line) { l == "  }" || l == "  }," }

  predicate HasMarker(l: Line) { Contains(l, "<<<<<<<") || Contains(l, ">>>>>>>") }

  /** A line that ends the reading of an entry: its closer, or a conflict marker. */
  predicate StopsEntry(l: Line) { ClosesEntry(l) || HasMarker(l) }

  /** Index of the last line, after the first one, that satisfies `ClosesArray`; 0 when there is none. */
  function LastClose(lines: seq<Line>): (k: nat)
    ensures k == 0 || (k < |lines| && ClosesArray(lines[k]))
    ensures forall i :: 1 <= i < |lines| && k < i ==> !ClosesArray(lines[i])
  {
    if |lines| <= 1 then 0
    else if ClosesArray(lines[|lines| - 1]) then |lines| - 1
    else LastClose(lines[..|lines| - 1])
  }

  /** The entry blocks of the lines between the brackets. */
  function SplitBody(body: seq<Line>): Result<seq<Entry>, SplitError>
    decreases |body|
  {
    if body == [] then Ok([])
    else if body[0] != "  {" then Err(OutsideEntry(body[0]))
    else
      var k := FindFrom(body, StopsEntry, 1);
      if k == |body| then Err(NotClosed)
      else if !ClosesEntry(body[k]) then Err(UnresolvedConflict)
      else
        match SplitBody(body[k + 1..])
        case Err(e) => Err(e)
        case Ok(rest) => Ok([body[..k] + ["  }"]] + rest)
  }

  function Split(lines: seq<Line>): Result<ChangelogFile, SplitError> {
    var open := FindFrom(lines, OpensArray, 0);
    var close := LastClose(lines);
    if open + 1 >= |lines| || close == 0 then Err(ArrayNotFound)
    else
      match SplitBody(if close > open then lines[open + 1..close] else [])
      case Err(e) => Err(e)
      case Ok(entries) => Ok(ChangelogFile(lines[..open + 1], entries, lines[close..]))
  }

  /** The loop of the source, with the block being read. */
  method SplitEntries(body: seq<Line>) returns (r: Result<seq<Entry>, SplitError>)
    ensures r == SplitBody(body)
  {
    hide HasMarker, SplitBody, After;
    var entries: seq<Entry> := [];
    var block: Option<Entry> := None;
    ghost var start := 0;
    assert body[0..] == body;
    AfterNone(SplitBody(body));
    for k := 0 to |body|
      invariant block.None? ==> start == k
      invariant block.Some? ==> start < k && body[start] == "  {" && block.value == body[start..k]
      invariant block.Some? ==> forall i :: start < i < k ==> !StopsEntry(body[i])
      invariant start <= |body| && SplitBody(body) == After(entries, SplitBody(body[start..]))
    {
      var line := body[k];
      if block.None? {
        if line != "  {" {
          OutsideAt(body, k);
          AfterErr(entries, OutsideEntry(line));
          return Err(OutsideEntry(line));
        }
        block := Some([line]);
      } else if ClosesEntry(line) {
        StopAt(body, start, k);
        var entry := block.value + ["  }"];
        AfterOne(entries, entry, SplitBody(body[k + 1..]));
        entries := entries + [entry];
        block := None;
        start := k + 1;
      } else {
        if HasMarker(line) {
          StopAt(body, start, k);
          AfterErr(entries, UnresolvedConflict);
          return Err(UnresolvedConflict);
        }
        block := Some(block.value + [line]);
      }
    }
    if block.Some? {
      StopAt(body, start, |body|);
      AfterErr(entries, NotClosed);
      return Err(NotClosed);
    }
    EndAt(body);
    AfterAll(entries);
    r := Ok(entries);
  }

  lemma {:induction false} OutsideAt(body: seq<Line>, k: nat)
    requires k < |body| && body[k] != "  {"
    ensures SplitBody(body[k..]) == Err(OutsideEntry(body[k]))
  {
  }

  lemma {:induction false} EndAt(body: seq<Line>)
    ensures SplitBody(body[|body|..]) == Ok([])
  {
  }

  function After(entries: seq<Entry>, r: Result<seq<Entry>, SplitError>): Result<seq<Entry>, SplitError> {
    match r case Err(e) => Err(e) case Ok(rest) => Ok(entries + rest)
  }

  lemma {:induction false} AfterErr(entries: seq<Entry>, e: SplitError)
    ensures After(entries, Err(e)) == Err(e)
  {
  }

  lemma {:induction false} AfterAll(entries: seq<Entry>)
    ensures After(entries, Ok([])) == Ok(entries)
  {
    assert entries + [] == entries;
  }

  lemma {:induction false} AfterOne(entries: seq<Entry>, e: Entry, r: Result<seq<Entry>, SplitError>)
    ensures After(entries, After([e], r)) == After(entries + [e], r)
  {
    assert r.Ok? ==> entries + ([e] + r.value) == (entries + [e]) + r.value;
  }

  lemma {:induction false} AfterNone(r: Result<seq<Entry>, SplitError>)
    ensures After([], r) == r
  {
    assert r.Ok? ==> [] + r.value == r.value;
  }

  lemma {:induction false} StopAt(body: seq<Line>, start: nat, k: nat)
    requires start < k <= |body| && body[start] == "  {"
    requires forall i :: start < i < k ==> !StopsEntry(body[i])
    requires k < |body| ==> StopsEntry(body[k])
    ensures SplitBody(body[start..]) ==
              if k == |body| then Err(NotClosed)
              else if !ClosesEntry(body[k]) then Err(UnresolvedConflict)
              else After([body[start..k] + ["  }"]], SplitBody(body[k + 1..]))
  {
    hide StopsEntry;
    var rest := body[start..];
    FindFromIs(rest, StopsEntry, 1, k - start);
    assert rest[..k - start] == body[start..k];
    if k < |body| {
      assert rest[k - start + 1..] == body[k + 1..];
    }
  }

  method SplitChangelog(lines: seq<Line>) returns (r: Result<ChangelogFile, SplitError>)
    ensures r == Split(lines)
  {
    var open := FindFrom(lines, OpensArray, 0);
    var close := LastClose(lines);
    if open + 1 >= |lines| || close == 0 {
      return Err(ArrayNotFound);
    }
    var entries := SplitEntries(if close > open then lines[open + 1..close] else []);
    match entries
    case Err(e) => r := Err(e);
    case Ok(es) => r := Ok(ChangelogFile(lines[..open + 1], es, lines[close..]));
  }

  // ---------------------------------------------------------------------------------------------
  // Joining

  /** The entries with a comma after the last line of each but the last. */
  function JoinEntries(entries: seq<Entry>): seq<Line> {
    if entries == [] then []
    else if |entries| == 1 then entries[0]
    else WithComma(entries[0]) + JoinEntries(entries[1..])
  }

  function WithComma(e: Entry): seq<Line> { if e == [] then [","] else e[..|e| - 1] + [e[|e| - 1] + ","] }

  /** Without entries the source still writes the line break between them and the bracket. */
  function Join(f: ChangelogFile): seq<Line> {
    f.head + (if f.entries == [] then [""] else JoinEntries(f.entries)) + f.tail
  }

  /** Opened and closed at two spaces, no closer and no conflict marker in between. */
  predicate WellFormedEntry(e: Entry) {
    && |e| >= 2 && e[0] == "  {" && e[|e| - 1] == "  }"
    && forall i :: 1 <= i < |e| - 1 ==> !StopsEntry(e[i])
  }

  predicate WellFormedFile(f: ChangelogFile) {
    && f.head != [] && OpensArray(f.head[|f.head| - 1])
    && (forall i :: 0 <= i < |f.head| - 1 ==> !OpensArray(f.head[i]))
    && (forall e :: e in f.entries ==> WellFormedEntry(e))
    && f.tail != [] && ClosesArray(f.tail[0])
    && (forall i :: 1 <= i < |f.tail| ==> !ClosesArray(f.tail[i]))
  }

  lemma {:induction false} SplitJoinedEntries(entries: seq<Entry>)
    requires forall e :: e in entries ==> WellFormedEntry(e)
    ensures SplitBody(JoinEntries(entries)) == Ok(entries)
  {
    if entries != [] {
      SplitJoinedEntries(entries[1..]);
      hide *;
      var e := entries[0];
      var last, rest := JoinFirst(entries);
      FirstEntry(e, last, rest);
      AfterFirst(entries);
    }
  }

  lemma {:induction false} JoinFirst(entries: seq<Entry>) returns (last: Line, rest: seq<Line>)
    requires entries != [] && WellFormedEntry(entries[0])
    ensures ClosesEntry(last) && rest == JoinEntries(entries[1..])
    ensures JoinEntries(entries) == entries[0][..|entries[0]| - 1] + ([last] + rest)
  {
    var e := entries[0];
    assert |e| >= 2 && e[|e| - 1] == "  }";
    hide WellFormedEntry;
    last, rest := if |entries| == 1 then "  }" else "  },", JoinEntries(entries[1..]);
    if |entries| == 1 {
      assert e == e[..|e| - 1] + ([last] + []);
    } else {
      assert "  }" + "," == "  },";
    }
  }

  lemma {:induction false} AfterFirst(entries: seq<Entry>)
    requires entries != []
    ensures After([entries[0]], Ok(entries[1..])) == Ok(entries)
  {
    assert entries == [entries[0]] + entries[1..];
  }

  lemma {:induction false} FirstEntry(e: Entry, last: Line, rest: seq<Line>)
    requires WellFormedEntry(e) && ClosesEntry(last)
    ensures SplitBody(e[..|e| - 1] + ([last] + rest)) == After([e], SplitBody(rest))
  {
    var body := e[..|e| - 1] + ([last] + rest);
    var k := |e| - 1;
    assert StopsEntry(last);
    hide StopsEntry;
    forall i | 0 < i < k ensures !StopsEntry(body[i]) {
      assert body[i] == e[i];
    }
    assert body[0..] == body && body[0] == e[0];
    StopAt(body, 0, k);
    assert body[0..k] + ["  }"] == e;
    assert body[k + 1..] == rest;
  }

  lemma {:induction false} LastCloseIs(lines: seq<Line>, k: nat)
    requires 1 <= k < |lines| && ClosesArray(lines[k]) && forall i :: k < i < |lines| ==> !ClosesArray(lines[i])
    ensures LastClose(lines) == k
  {
  }

  /** Splitting undoes joining for every well-formed file, except that a file without entries cannot be read back. */
  lemma {:induction false} SplitUndoesJoinIff(f: ChangelogFile)
    requires WellFormedFile(f)
    ensures Split(Join(f)) == Ok(f) <==> f.entries != []
  {
    var body := if f.entries == [] then [""] else JoinEntries(f.entries);
    SplitParts(f, body);
    if f.entries == [] {
      assert body[0] != "  {";
    } else {
      SplitJoinedEntries(f.entries);
    }
  }

  lemma {:induction false} SplitParts(f: ChangelogFile, body: seq<Line>)
    requires WellFormedFile(f)
    ensures Split(f.head + body + f.tail) == match SplitBody(body)
              case Err(e) => Err(e)
              case Ok(entries) => Ok(f.(entries := entries))
  {
    hide OpensArray, ClosesArray, WellFormedEntry, SplitBody;
    var lines := f.head + body + f.tail;
    var open, close := |f.head| - 1, |f.head| + |body|;
    forall i | 0 <= i < open ensures !OpensArray(lines[i]) {
      assert lines[i] == f.head[i];
    }
    assert lines[open] == f.head[open];
    FindFromIs(lines, OpensArray, 0, open);
    assert lines[close] == f.tail[0];
    forall i | close < i < |lines| ensures !ClosesArray(lines[i]) {
      assert lines[i] == f.tail[i - close];
    }
    LastCloseIs(lines, close);
    hide LastClose;
    assert lines[open + 1..close] == body && lines[..open + 1] == f.head && lines[close..] == f.tail;
  }

  lemma {:induction false} SplitBodyWellFormed(body: seq<Line>)
    requires SplitBody(body).Ok?
    ensures forall e :: e in SplitBody(body).value ==> WellFormedEntry(e)
    decreases |body|
  {
    hide StopsEntry;
    if body != [] {
      var k := FindFrom(body, StopsEntry, 1);
      SplitBodyWellFormed(body[k + 1..]);
      var e := body[..k] + ["  }"];
      assert WellFormedEntry(e) by {
        assert forall i :: 1 <= i < |e| - 1 ==> e[i] == body[i];
      }
    }
  }

  /** Whatever file was read, joining what was read and reading it again gives the same parts. */
  lemma {:induction false} SplitIsStable(lines: seq<Line>)
    requires Split(lines).Ok? && Split(lines).value.entries != []
    ensures WellFormedFile(Split(lines).value)
    ensures Split(Join(Split(lines).value)) == Split(lines)
  {
    hide OpensArray, ClosesArray, StopsEntry, WellFormedEntry;
    var open := FindFrom(lines, OpensArray, 0);
    var close := LastClose(lines);
    var f := Split(lines).value;
    assert SplitBody([]) == Ok([]);
    assert close > open;
    SplitBodyWellFormed(lines[open + 1..close]);
    forall i | 0 <= i < |f.head| - 1 ensures !OpensArray(f.head[i]) {
      assert f.head[i] == lines[i];
    }
    forall i | 1 <= i < |f.tail| ensures !ClosesArray(f.tail[i]) {
      assert f.tail[i] == lines[close + i];
    }
    SplitUndoesJoinIff(f);
  }
}
