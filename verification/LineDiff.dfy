/**
 * `addedLineIndexes` (scripts/renumber/plan.ts): which lines of `cur` the branch added, by a longest common
 * subsequence with `base`.
 */
module LineDiff {
  import opened Texts

  /** The table of the source is a `Uint32Array`. */
  newtype uint32 = x: int | 0 <= x < 0x1_0000_0000

  const LIMIT: nat := 30_000_000

  // ---------------------------------------------------------------------------------------------
  // Common subsequences

  /** `t` is what is left of `s` after leaving out some elements. */
  predicate Subsequence<T(==)>(t: seq<T>, s: seq<T>) {
    t == [] || (s != [] && ((t[0] == s[0] && Subsequence(t[1..], s[1..])) || Subsequence(t, s[1..])))
  }

  /** The length of a longest common subsequence, by its recurrence on suffixes. */
  function Lcs(a: seq<Line>, b: seq<Line>): (n: nat)
    ensures n <= |a| && n <= |b|
    decreases |a| + |b|
  {
    if a == [] || b == [] then 0
    else if a[0] == b[0] then 1 + Lcs(a[1..], b[1..])
    else
      var x, y := Lcs(a[1..], b), Lcs(a, b[1..]);
      if x >= y then x else y
  }

  lemma {:induction false} SubsequenceTail<T>(t: seq<T>, s: seq<T>)
    requires t != [] && Subsequence(t, s)
    ensures s != [] && Subsequence(t[1..], s) && Subsequence(t[1..], s[1..])
  {
    if Subsequence(t, s[1..]) {
      SubsequenceTail(t, s[1..]);
    }
    if t[1..] != [] && Subsequence(t[1..], s[1..]) {
      assert Subsequence(t[1..], s);
    }
  }

  /** No common subsequence is longer than `Lcs`. */
  lemma {:induction false} LcsIsUpperBound(t: seq<Line>, a: seq<Line>, b: seq<Line>)
    requires Subsequence(t, a) && Subsequence(t, b)
    ensures |t| <= Lcs(a, b)
    decreases |a| + |b|
  {
    if t != [] {
      if a[0] == b[0] {
        SubsequenceTail(t, a);
        SubsequenceTail(t, b);
        LcsIsUpperBound(t[1..], a[1..], b[1..]);
      } else if t[0] != a[0] {
        LcsIsUpperBound(t, a[1..], b);
      } else {
        LcsIsUpperBound(t, a, b[1..]);
      }
    }
  }

  /** One more equal line at the end of both adds at most one. */
  lemma {:induction false} LcsLastLine(a: seq<Line>, b: seq<Line>, x: Line)
    ensures Lcs(a + [x], b + [x]) <= 1 + Lcs(a, b)
    decreases |a| + |b|
  {
    if a == [] || b == [] {
      assert |a + [x]| == 1 || |b + [x]| == 1;
    } else {
      assert (a + [x])[1..] == a[1..] + [x] && (b + [x])[1..] == b[1..] + [x];
      if a[0] == b[0] {
        LcsLastLine(a[1..], b[1..], x);
      } else {
        LcsLastLine(a[1..], b, x);
        LcsLastLine(a, b[1..], x);
      }
    }
  }

  lemma {:induction false} LcsCommonEnds(p: seq<Line>, a: seq<Line>, b: seq<Line>, s: seq<Line>)
    ensures Lcs(p + a + s, p + b + s) <= |p| + Lcs(a, b) + |s|
    decreases |p| + |s|
  {
    if p != [] {
      assert (p + a + s)[1..] == p[1..] + a + s && (p + b + s)[1..] == p[1..] + b + s;
      LcsCommonEnds(p[1..], a, b, s);
    } else if s != [] {
      var x := s[|s| - 1];
      var front := s[..|s| - 1];
      assert p + a + s == (p + a + front) + [x] && p + b + s == (p + b + front) + [x];
      LcsCommonEnds(p, a, b, front);
      LcsLastLine(p + a + front, p + b + front, x);
    } else {
      assert p + a + s == a && p + b + s == b;
    }
  }

  lemma {:induction false} SubsequenceSelf<T>(s: seq<T>)
    ensures Subsequence(s, s)
  {
    if s != [] {
      SubsequenceSelf(s[1..]);
    }
  }

  lemma {:induction false} SubsequenceConcat<T>(t: seq<T>, s: seq<T>, u: seq<T>, v: seq<T>)
    requires Subsequence(t, s) && Subsequence(u, v)
    ensures Subsequence(t + u, s + v)
    decreases |s| + |v|
  {
    if s == [] {
      assert t + u == u && s + v == v;
    } else {
      assert (s + v)[1..] == s[1..] + v;
      if t == [] {
        SubsequenceConcat([], s[1..], u, v);
        assert t + u == u && [] + u == u;
        if u != [] {
          assert Subsequence(u, (s + v)[1..]);
        }
      } else if t[0] == s[0] && Subsequence(t[1..], s[1..]) {
        SubsequenceConcat(t[1..], s[1..], u, v);
        assert (t + u)[1..] == t[1..] + u;
      } else {
        SubsequenceConcat(t, s[1..], u, v);
      }
    }
  }

  // ---------------------------------------------------------------------------------------------
  // Marked lines

  /** The lines of `cur` that are not marked; `offset` is the index of its first line. */
  function Kept(cur: seq<Line>, marked: set<nat>, offset: nat): seq<Line> {
    if cur == [] then []
    else (if offset in marked then [] else [cur[0]]) + Kept(cur[1..], marked, offset + 1)
  }

  lemma {:induction false} KeptConcat(a: seq<Line>, b: seq<Line>, marked: set<nat>, offset: nat)
    ensures Kept(a + b, marked, offset) == Kept(a, marked, offset) + Kept(b, marked, offset + |a|)
  {
    if a == [] {
      assert a + b == b;
    } else {
      assert (a + b)[1..] == a[1..] + b;
      KeptConcat(a[1..], b, marked, offset + 1);
    }
  }

  lemma {:induction false} KeptUnmarked(cur: seq<Line>, marked: set<nat>, offset: nat)
    requires forall k :: offset <= k < offset + |cur| ==> k !in marked
    ensures Kept(cur, marked, offset) == cur
  {
    if cur != [] {
      KeptUnmarked(cur[1..], marked, offset + 1);
    }
  }

  lemma {:induction false} KeptAgree(cur: seq<Line>, m: set<nat>, m': set<nat>, offset: nat)
    requires forall k :: offset <= k < offset + |cur| ==> (k in m <==> k in m')
    ensures Kept(cur, m, offset) == Kept(cur, m', offset)
  {
    if cur != [] {
      KeptAgree(cur[1..], m, m', offset + 1);
    }
  }

  // ---------------------------------------------------------------------------------------------
  // The two ways of marking the middle part

  /** What the walk over the table marks, from `base` line 0 and `cur` line `offset` on. */
  function Walk(base: seq<Line>, cur: seq<Line>, offset: nat): (marked: set<nat>)
    ensures forall k :: k in marked ==> offset <= k < offset + |cur|
    decreases |base| + |cur|
  {
    if cur == [] then {}
    else if base == [] then {offset} + Walk(base, cur[1..], offset + 1)
    else if base[0] == cur[0] then Walk(base[1..], cur[1..], offset + 1)
    else if Lcs(base[1..], cur) >= Lcs(base, cur[1..]) then Walk(base[1..], cur, offset)
    else {offset} + Walk(base, cur[1..], offset + 1)
  }

  /** What the counting of equal lines marks when the table would be too large. */
  function Pooled(pool: multiset<Line>, cur: seq<Line>, offset: nat): (marked: set<nat>)
    ensures forall k :: k in marked ==> offset <= k < offset + |cur|
  {
    if cur == [] then {}
    else if cur[0] in pool then Pooled(pool - multiset{cur[0]}, cur[1..], offset + 1)
    else {offset} + Pooled(pool, cur[1..], offset + 1)
  }

  predicate UsesPool(n: nat, m: nat) { n == 0 || m == 0 || n * m > LIMIT }

  function Middle(base: seq<Line>, cur: seq<Line>, offset: nat): (marked: set<nat>)
    ensures forall k :: k in marked ==> offset <= k < offset + |cur|
  {
    if UsesPool(|base|, |cur|) then Pooled(multiset(base), cur, offset) else Walk(base, cur, offset)
  }

  function CommonPrefix(a: seq<Line>, b: seq<Line>): (n: nat)
    ensures n <= |a| && n <= |b|
    ensures forall k :: 0 <= k < n ==> a[k] == b[k]
    ensures n < |a| && n < |b| ==> a[n] != b[n]
  {
    if a != [] && b != [] && a[0] == b[0] then 1 + CommonPrefix(a[1..], b[1..]) else 0
  }

  function CommonSuffix(a: seq<Line>, b: seq<Line>): (n: nat)
    ensures n <= |a| && n <= |b|
    ensures forall i :: |a| - n <= i < |a| ==> a[i] == b[i + |b| - |a|]
    ensures n < |a| && n < |b| ==> a[|a| - n - 1] != b[|b| - n - 1]
  {
    if a != [] && b != [] && a[|a| - 1] == b[|b| - 1] then 1 + CommonSuffix(a[..|a| - 1], b[..|b| - 1]) else 0
  }

  /** The common first lines, the differing middles and the common last lines. */
  datatype Split = Split(head: seq<Line>, base: seq<Line>, cur: seq<Line>, last: seq<Line>)

  function SplitEnds(base: seq<Line>, cur: seq<Line>): (s: Split)
    ensures |s.head| + |s.cur| + |s.last| == |cur|
  {
    var start := CommonPrefix(base, cur);
    var tail := CommonSuffix(base[start..], cur[start..]);
    Split(cur[..start], base[start..|base| - tail], cur[start..|cur| - tail], cur[|cur| - tail..])
  }

  /** The parts make up both files. */
  lemma {:induction false} EndsJoin(base: seq<Line>, cur: seq<Line>)
    ensures var s := SplitEnds(base, cur);
            base == s.head + s.base + s.last && cur == s.head + s.cur + s.last
  {
    hide CommonPrefix, CommonSuffix;
    var start := CommonPrefix(base, cur);
    var bs, cs := base[start..], cur[start..];
    var tail := CommonSuffix(bs, cs);
    forall i | |base| - tail <= i < |base| ensures base[i] == cur[i + |cur| - |base|] {
      assert bs[i - start] == cs[i - start + |cs| - |bs|];
    }
    var s := SplitEnds(base, cur);
    hide *;
    Joined(base, cur, start, tail, s.head, s.last);
    Cut(base, start, |base| - tail);
    Cut(cur, start, |cur| - tail);
  }

  lemma {:induction false} Joined(base: seq<Line>, cur: seq<Line>, start: nat, tail: nat, head: seq<Line>,
                                  last: seq<Line>)
    requires start + tail <= |base| && start + tail <= |cur| && head == cur[..start] && last == cur[|cur| - tail..]
    requires forall k :: 0 <= k < start ==> base[k] == cur[k]
    requires forall i :: |base| - tail <= i < |base| ==> base[i] == cur[i + |cur| - |base|]
    ensures base[..start] == head && base[|base| - tail..] == last
  {
    var x := base[|base| - tail..];
    forall k | 0 <= k < tail ensures x[k] == last[k] {
      assert x[k] == base[|base| - tail + k];
    }
  }

  lemma {:induction false} Cut(x: seq<Line>, i: nat, j: nat)
    requires i <= j <= |x|
    ensures x == x[..i] + x[i..j] + x[j..]
  {
  }

  /** The marked lines of `cur`: the part between the common first and last lines, marked by `Middle`. */
  function AddedLines(base: seq<Line>, cur: seq<Line>): (marked: set<nat>)
    ensures forall k :: k in marked ==> k < |cur|
  {
    var s := SplitEnds(base, cur);
    Middle(s.base, s.cur, |s.head|)
  }

  /** The middle parts are small enough for the table, or one of them is empty. */
  predicate IsExact(base: seq<Line>, cur: seq<Line>) {
    var s := SplitEnds(base, cur);
    |s.base| * |s.cur| <= LIMIT
  }

  // ---------------------------------------------------------------------------------------------
  // Optimality

  lemma {:induction false} WalkIsOptimal(base: seq<Line>, cur: seq<Line>, offset: nat)
    ensures var kept := Kept(cur, Walk(base, cur, offset), offset);
            Subsequence(kept, base) && |kept| == Lcs(base, cur)
    decreases |base| + |cur|
  {
    if cur != [] {
      var marked := Walk(base, cur, offset);
      if base == [] || (base[0] != cur[0] && Lcs(base[1..], cur) < Lcs(base, cur[1..])) {
        WalkIsOptimal(base, cur[1..], offset + 1);
        KeptAgree(cur[1..], marked, Walk(base, cur[1..], offset + 1), offset + 1);
        assert Kept(cur, marked, offset) == Kept(cur[1..], marked, offset + 1);
      } else if base[0] == cur[0] {
        WalkIsOptimal(base[1..], cur[1..], offset + 1);
        var rest := Kept(cur[1..], marked, offset + 1);
        assert Kept(cur, marked, offset) == [cur[0]] + rest;
        assert ([cur[0]] + rest)[1..] == rest;
      } else {
        WalkIsOptimal(base[1..], cur, offset);
        var kept := Kept(cur, marked, offset);
        assert kept == [] || Subsequence(kept, base);
      }
    }
  }

  /** The counting keeps as many lines as both sides have in common, whatever their order. */
  lemma {:induction false} PooledKeepsCommon(pool: multiset<Line>, cur: seq<Line>, offset: nat)
    ensures multiset(Kept(cur, Pooled(pool, cur, offset), offset)) == pool * multiset(cur)
  {
    if cur != [] {
      var marked := Pooled(pool, cur, offset);
      assert cur == [cur[0]] + cur[1..];
      PoolStep(pool, cur[0], multiset(cur[1..]));
      var rest := if cur[0] in pool then pool - multiset{cur[0]} else pool;
      PooledKeepsCommon(rest, cur[1..], offset + 1);
      KeptAgree(cur[1..], marked, Pooled(rest, cur[1..], offset + 1), offset + 1);
    }
  }

  lemma {:induction false} PoolStep(pool: multiset<Line>, x: Line, rest: multiset<Line>)
    ensures x in pool ==> pool * (multiset{x} + rest) == multiset{x} + (pool - multiset{x}) * rest
    ensures x !in pool ==> pool * (multiset{x} + rest) == pool * rest
  {
  }

  lemma {:induction false} SubsequenceMultiset(t: seq<Line>, s: seq<Line>)
    requires Subsequence(t, s)
    ensures multiset(t) <= multiset(s)
    decreases |s|
  {
    if t != [] {
      assert s == [s[0]] + s[1..] && t == [t[0]] + t[1..];
      if t[0] == s[0] && Subsequence(t[1..], s[1..]) {
        SubsequenceMultiset(t[1..], s[1..]);
      } else {
        SubsequenceMultiset(t, s[1..]);
      }
    }
  }

  lemma {:induction false} KeptAndMarked(cur: seq<Line>, marked: set<nat>, offset: nat)
    requires forall k :: k in marked ==> offset <= k < offset + |cur|
    ensures |Kept(cur, marked, offset)| + |marked| == |cur|
  {
    if cur == [] {
      assert marked == {};
    } else {
      var rest := marked - {offset};
      KeptAndMarked(cur[1..], rest, offset + 1);
      KeptAgree(cur[1..], marked, rest, offset + 1);
      assert offset in marked ==> marked == rest + {offset};
      assert offset !in marked ==> marked == rest;
    }
  }

  /** The counting never marks more lines than the walk over the table would. */
  lemma {:induction false} PoolMarksNoMore(base: seq<Line>, cur: seq<Line>, offset: nat)
    ensures |Pooled(multiset(base), cur, offset)| <= |Walk(base, cur, offset)|
  {
    var walked := Kept(cur, Walk(base, cur, offset), offset);
    WalkIsOptimal(base, cur, offset);
    KeptSubsequence(cur, Walk(base, cur, offset), offset);
    SubsequenceMultiset(walked, base);
    SubsequenceMultiset(walked, cur);
    PooledKeepsCommon(multiset(base), cur, offset);
    var pooled := Kept(cur, Pooled(multiset(base), cur, offset), offset);
    assert multiset(walked) <= multiset(pooled);
    SmallerMultiset(multiset(walked), multiset(pooled));
    KeptAndMarked(cur, Walk(base, cur, offset), offset);
    KeptAndMarked(cur, Pooled(multiset(base), cur, offset), offset);
  }

  lemma {:induction false} SmallerMultiset(a: multiset<Line>, b: multiset<Line>)
    requires a <= b
    ensures |a| <= |b|
  {
    assert b == a + (b - a);
  }

  lemma {:induction false} KeptSubsequence(cur: seq<Line>, marked: set<nat>, offset: nat)
    ensures Subsequence(Kept(cur, marked, offset), cur)
  {
    if cur != [] {
      KeptSubsequence(cur[1..], marked, offset + 1);
      var rest := Kept(cur[1..], marked, offset + 1);
      if offset in marked {
        assert Kept(cur, marked, offset) == rest;
      } else {
        assert Kept(cur, marked, offset) == [cur[0]] + rest;
        assert ([cur[0]] + rest)[1..] == rest;
      }
    }
  }

  lemma {:induction false} KeptParts(base: seq<Line>, cur: seq<Line>)
    ensures var s := SplitEnds(base, cur);
            Kept(cur, AddedLines(base, cur), 0) == s.head + Kept(s.cur, Middle(s.base, s.cur, |s.head|), |s.head|) + s.last
  {
    hide SplitEnds, Middle;
    EndsJoin(base, cur);
    var s := SplitEnds(base, cur);
    var marked := AddedLines(base, cur);
    KeptConcat(s.head + s.cur, s.last, marked, 0);
    KeptConcat(s.head, s.cur, marked, 0);
    KeptUnmarked(s.head, marked, 0);
    KeptUnmarked(s.last, marked, |s.head + s.cur|);
  }

  /**
   * The unmarked lines of `cur` are a longest common subsequence of `base` and `cur`, as long as the parts between
   * their common ends fit the table.
   */
  lemma {:induction false} AddedLinesAreExact(base: seq<Line>, cur: seq<Line>)
    requires IsExact(base, cur)
    ensures var kept := Kept(cur, AddedLines(base, cur), 0);
            && Subsequence(kept, base) && Subsequence(kept, cur)
            && forall t :: Subsequence(t, base) && Subsequence(t, cur) ==> |t| <= |kept|
  {
    hide SplitEnds, Middle, AddedLines, Lcs, Subsequence, Kept;
    EndsJoin(base, cur);
    var s := SplitEnds(base, cur);
    KeptParts(base, cur);
    MiddleIsOptimal(s.base, s.cur, |s.head|);
    KeptSubsequence(cur, AddedLines(base, cur), 0);
    var middle := Kept(s.cur, Middle(s.base, s.cur, |s.head|), |s.head|);
    BetweenEnds(s.head, middle, s.base, s.last);
    LongestOf(s.head, s.base, s.cur, s.last, |middle|);
  }

  lemma {:induction false} LongestOf(p: seq<Line>, b: seq<Line>, c: seq<Line>, s: seq<Line>, n: nat)
    requires n == Lcs(b, c)
    ensures forall t :: Subsequence(t, p + b + s) && Subsequence(t, p + c + s) ==> |t| <= |p| + n + |s|
  {
    hide Subsequence, Lcs;
    forall t | Subsequence(t, p + b + s) && Subsequence(t, p + c + s) ensures |t| <= |p| + n + |s| {
      LcsIsUpperBound(t, p + b + s, p + c + s);
      LcsCommonEnds(p, b, c, s);
    }
  }

  lemma {:induction false} BetweenEnds(p: seq<Line>, t: seq<Line>, b: seq<Line>, s: seq<Line>)
    requires Subsequence(t, b)
    ensures Subsequence(p + t + s, p + b + s)
  {
    hide Subsequence;
    SubsequenceSelf(p);
    SubsequenceSelf(s);
    SubsequenceConcat(p, p, t, b);
    SubsequenceConcat(p + t, p + b, s, s);
  }

  lemma {:induction false} MiddleIsOptimal(b: seq<Line>, c: seq<Line>, offset: nat)
    requires |b| * |c| <= LIMIT
    ensures var kept := Kept(c, Middle(b, c, offset), offset); Subsequence(kept, b) && |kept| == Lcs(b, c)
  {
    if UsesPool(|b|, |c|) {
      var marked := Pooled(multiset(b), c, offset);
      PooledKeepsCommon(multiset(b), c, offset);
      assert b == [] || c == [];
      assert multiset(Kept(c, marked, offset)) == multiset{};
    } else {
      WalkIsOptimal(b, c, offset);
    }
  }

  /** In every case at most as many lines are marked as a longest common subsequence leaves out. */
  lemma {:induction false} AddedLinesAreFew(base: seq<Line>, cur: seq<Line>, t: seq<Line>)
    requires Subsequence(t, base) && Subsequence(t, cur)
    ensures |AddedLines(base, cur)| + |t| <= |cur|
  {
    hide SplitEnds;
    EndsJoin(base, cur);
    var s := SplitEnds(base, cur);
    LcsIsUpperBound(t, base, cur);
    LcsCommonEnds(s.head, s.base, s.cur, s.last);
    WalkIsOptimal(s.base, s.cur, |s.head|);
    KeptAndMarked(s.cur, Walk(s.base, s.cur, |s.head|), |s.head|);
    PoolMarksNoMore(s.base, s.cur, |s.head|);
  }

  ghost predicate LongestCommon(kept: seq<Line>, base: seq<Line>, cur: seq<Line>) {
    && Subsequence(kept, base) && Subsequence(kept, cur)
    && forall t :: Subsequence(t, base) && Subsequence(t, cur) ==> |t| <= |kept|
  }

  /**
   * For files of any size, the unmarked lines are a longest common subsequence exactly when the base has them in their
   * order: the counting beyond the limit can only fail by their order, never by leaving too few.
   */
  lemma {:induction false} AddedLinesAreLongestIff(base: seq<Line>, cur: seq<Line>)
    ensures var kept := Kept(cur, AddedLines(base, cur), 0);
            && (LongestCommon(kept, base, cur) <==> Subsequence(kept, base))
            && (IsExact(base, cur) ==> LongestCommon(kept, base, cur))
  {
    hide *;
    var marked := AddedLines(base, cur);
    var kept := Kept(cur, marked, 0);
    KeptSubsequence(cur, marked, 0);
    MarkedAreIn(base, cur);
    KeptAndMarked(cur, marked, 0);
    forall t | Subsequence(t, base) && Subsequence(t, cur) ensures |t| <= |kept| {
      AddedLinesAreFew(base, cur, t);
    }
    LongestIs(kept, base, cur);
    if IsExact(base, cur) {
      AddedLinesAreExact(base, cur);
    }
  }

  /** Trimming cuts at least the ends that both files have in common. */
  lemma {:induction false} SplitIsSmall(head: seq<Line>, b: seq<Line>, c: seq<Line>, last: seq<Line>)
    ensures var s := SplitEnds(head + b + last, head + c + last); |s.base| <= |b| && |s.cur| <= |c|
  {
    hide CommonPrefix, CommonSuffix;
    var base, cur := head + b + last, head + c + last;
    var start := CommonPrefix(base, cur);
    var tail := CommonSuffix(base[start..], cur[start..]);
    FirstAlike(head, b + last, c + last);
    assert base == head + (b + last) && cur == head + (c + last);
    if tail < |last| {
      LastAlike(head + b, head + c, last, tail);
    }
    assert start + tail >= |head| + |last|;
  }

  lemma {:induction false} FirstAlike(head: seq<Line>, a: seq<Line>, b: seq<Line>)
    ensures forall k :: 0 <= k < |head| ==> (head + a)[k] == (head + b)[k]
  {
  }

  lemma {:induction false} LastAlike(a: seq<Line>, b: seq<Line>, last: seq<Line>, k: nat)
    requires k < |last|
    ensures (a + last)[|a + last| - k - 1] == (b + last)[|b + last| - k - 1]
  {
  }

  /**
   * When the files differ only between common ends, and the parts between them have at most 30,000,000 pairs of lines,
   * the unmarked lines are a longest common subsequence.
   */
  lemma {:induction false} AddedLinesUpToTheLimit(head: seq<Line>, b: seq<Line>, c: seq<Line>, last: seq<Line>)
    requires |b| * |c| <= 30_000_000
    ensures var base, cur := head + b + last, head + c + last;
            LongestCommon(Kept(cur, AddedLines(base, cur), 0), base, cur)
  {
    var base, cur := head + b + last, head + c + last;
    SplitIsSmall(head, b, c, last);
    AddedLinesAreLongestIff(base, cur);
    hide SplitEnds, AddedLines, Kept, LongestCommon;
    var s := SplitEnds(base, cur);
    SmallerProduct(|s.base|, |s.cur|, |b|, |c|);
  }

  lemma {:induction false} SmallerProduct(a: nat, b: nat, x: nat, y: nat)
    requires a <= x && b <= y
    ensures a * b <= x * y
  {
    assert a * b <= x * b <= x * y;
  }

  lemma {:induction false} LongestIs(kept: seq<Line>, base: seq<Line>, cur: seq<Line>)
    ensures LongestCommon(kept, base, cur)
       <==> && Subsequence(kept, base) && Subsequence(kept, cur)
            && forall t :: Subsequence(t, base) && Subsequence(t, cur) ==> |t| <= |kept|
  {
    hide Subsequence;
  }

  lemma {:induction false} MarkedAreIn(base: seq<Line>, cur: seq<Line>)
    ensures forall k :: k in AddedLines(base, cur) ==> 0 <= k < |cur|
  {
    hide SplitEnds, Walk, Pooled;
    EndsJoin(base, cur);
  }

  function Repeat(l: Line, n: nat): (r: seq<Line>)
    ensures |r| == n && forall i :: 0 <= i < n ==> r[i] == l
  {
    seq(n, _ => l)
  }

  lemma {:induction false} PooledAll(pool: multiset<Line>, cur: seq<Line>, offset: nat)
    requires multiset(cur) <= pool
    ensures Pooled(pool, cur, offset) == {}
  {
    if cur != [] {
      assert cur == [cur[0]] + cur[1..];
      assert cur[0] in multiset(cur);
      PooledAll(pool - multiset{cur[0]}, cur[1..], offset + 1);
    }
  }

  lemma {:induction false} FullSubsequence(t: seq<Line>, s: seq<Line>)
    requires Subsequence(t, s) && |t| >= |s|
    ensures t == s
    decreases s
  {
    SubsequenceMultiset(t, s);
    if s != [] && t != [] {
      if t[0] == s[0] && Subsequence(t[1..], s[1..]) {
        FullSubsequence(t[1..], s[1..]);
        assert t == [t[0]] + t[1..] && s == [s[0]] + s[1..];
      } else {
        FullSubsequence(t, s[1..]);
      }
    }
  }

  lemma {:induction false} NoCommonEnds(base: seq<Line>, cur: seq<Line>)
    requires base != [] && cur != [] && base[0] != cur[0] && base[|base| - 1] != cur[|cur| - 1]
    ensures SplitEnds(base, cur) == Split([], base, cur, [])
  {
    assert base[0..] == base && cur[0..] == cur && base[0..|base|] == base && cur[0..|cur|] == cur;
    assert CommonPrefix(base, cur) == 0 && CommonSuffix(base, cur) == 0;
    assert cur[..0] == [] && cur[|cur|..] == [];
  }

  /**
   * Beyond the limit the counting forgets the order: for two blocks that changed places it marks no line, although the
   * file is no part of the base in order.
   */
  lemma {:induction false} PoolForgetsOrder(x: Line, y: Line, n: nat)
    requires x != y && n >= 2739
    ensures var base, cur := Repeat(x, n) + Repeat(y, n), Repeat(y, n) + Repeat(x, n);
            && !IsExact(base, cur) && AddedLines(base, cur) == {}
            && Kept(cur, {}, 0) == cur && !Subsequence(cur, base)
  {
    hide *;
    var base, cur := Repeat(x, n) + Repeat(y, n), Repeat(y, n) + Repeat(x, n);
    Swapped(Repeat(x, n), Repeat(y, n));
    ForgetsSwap(base, cur, n);
  }

  lemma {:induction false} Swapped(a: seq<Line>, b: seq<Line>)
    requires a != [] && b != []
    ensures multiset(b + a) == multiset(a + b) && |a + b| == |b + a| == |a| + |b|
    ensures (a + b)[0] == a[0] && (b + a)[0] == b[0]
    ensures (a + b)[|a + b| - 1] == b[|b| - 1] && (b + a)[|b + a| - 1] == a[|a| - 1]
  {
  }

  lemma {:induction false} ForgetsSwap(base: seq<Line>, cur: seq<Line>, n: nat)
    requires n >= 2739 && |base| == |cur| == 2 * n && multiset(cur) == multiset(base)
    requires base[0] != cur[0] && base[|base| - 1] != cur[|cur| - 1]
    ensures !IsExact(base, cur) && AddedLines(base, cur) == {}
    ensures Kept(cur, {}, 0) == cur && !Subsequence(cur, base)
  {
    hide *;
    NoCommonEnds(base, cur);
    OverLimit(n);
    PooledAll(multiset(base), cur, 0);
    NothingMarked(base, cur);
    if Subsequence(cur, base) {
      FullSubsequence(cur, base);
    }
  }

  lemma {:induction false} NothingMarked(base: seq<Line>, cur: seq<Line>)
    requires SplitEnds(base, cur) == Split([], base, cur, []) && |base| * |cur| > LIMIT
    requires Pooled(multiset(base), cur, 0) == {}
    ensures !IsExact(base, cur) && AddedLines(base, cur) == {} && Kept(cur, {}, 0) == cur
  {
    hide SplitEnds, Pooled, Walk;
    KeptUnmarked(cur, {}, 0);
  }

  lemma {:induction false} OverLimit(n: nat)
    requires n >= 2739
    ensures (2 * n) * (2 * n) > LIMIT
  {
    assert n * n >= 2739 * n;
  }

  // ---------------------------------------------------------------------------------------------
  // The method

  /** First cell of row `i` in a table of rows of `w` cells. */
  function RowStart(i: nat, w: nat): nat { i * w }

  lemma {:induction false} NextRow(i: nat, w: nat)
    ensures RowStart(i + 1, w) == RowStart(i, w) + w && RowStart(0, w) == 0
  {
  }

  lemma {:induction false} RowsApart(i: nat, k: nat, w: nat)
    requires i < k
    ensures RowStart(i, w) + w <= RowStart(k, w)
    decreases k
  {
    hide RowStart;
    NextRow(k - 1, w);
    if i < k - 1 {
      RowsApart(i, k - 1, w);
    }
  }

  /** The row that starts at cell `row` holds the lengths for `a` and every suffix of `b`. */
  ghost predicate RowDone(cells: seq<uint32>, row: nat, a: seq<Line>, b: seq<Line>) {
    row + |b| < |cells| && forall j :: 0 <= j <= |b| ==> cells[row + j] as int == Lcs(a, b[j..])
  }

  lemma {:induction false} LcsStep(a: seq<Line>, b: seq<Line>, i: nat, j: nat)
    requires i < |a| && j < |b|
    ensures Lcs(a[i..], b[j..]) ==
              if a[i] == b[j] then 1 + Lcs(a[i + 1..], b[j + 1..])
              else if Lcs(a[i + 1..], b[j..]) >= Lcs(a[i..], b[j + 1..]) then Lcs(a[i + 1..], b[j..])
              else Lcs(a[i..], b[j + 1..])
  {
    assert a[i..][1..] == a[i + 1..] && b[j..][1..] == b[j + 1..];
  }

  /** The inner loop: row `i` of the table, from the row below it. */
  method FillRow(dp: array<uint32>, row: nat, i: nat, a: seq<Line>, b: seq<Line>)
    requires i < |a| && |a| < 0x1_0000_0000
    requires RowDone(dp[..], row + |b| + 1, a[i + 1..], b)
    requires row + |b| < dp.Length && dp[row + |b|] == 0
    modifies dp
    ensures RowDone(dp[..], row, a[i..], b)
    ensures forall c :: 0 <= c < dp.Length && !(row <= c <= row + |b|) ==> dp[c] == old(dp[c])
  {
    hide Lcs;
    var m := |b|;
    var below := row + m + 1;
    assert Lcs(a[i..], b[m..]) == 0;
    for j := m downto 0
      invariant forall k :: j <= k <= m ==> dp[row + k] as int == Lcs(a[i..], b[k..])
      invariant forall k :: 0 <= k <= m ==> dp[below + k] as int == Lcs(a[i + 1..], b[k..])
      invariant forall c :: 0 <= c < dp.Length && !(row <= c <= row + m) ==> dp[c] == old(dp[c])
    {
      LcsStep(a, b, i, j);
      if a[i] == b[j] {
        dp[row + j] := dp[below + (j + 1)] + 1;
      } else {
        dp[row + j] := if dp[below + j] >= dp[row + (j + 1)] then dp[below + j] else dp[row + (j + 1)];
      }
    }
  }

  /** The rows from `from` on are done. */
  ghost predicate RowsDone(cells: seq<uint32>, from: nat, a: seq<Line>, b: seq<Line>) {
    forall k {:trigger a[k..]} :: from <= k <= |a| ==> RowDone(cells, RowStart(k, |b| + 1), a[k..], b)
  }

  lemma {:induction false} OneMoreRow(before: seq<uint32>, after: seq<uint32>, i: nat, a: seq<Line>, b: seq<Line>)
    requires i < |a| && |before| == |after| == RowStart(|a| + 1, |b| + 1)
    requires RowsDone(before, i + 1, a, b) && RowDone(after, RowStart(i, |b| + 1), a[i..], b)
    requires forall c :: 0 <= c < |after| && !(RowStart(i, |b| + 1) <= c <= RowStart(i, |b| + 1) + |b|)
                     ==> after[c] == before[c]
    ensures RowsDone(after, i, a, b)
  {
    hide RowStart, Lcs;
    var w := |b| + 1;
    forall k {:trigger a[k..]} | i < k <= |a| ensures RowDone(after, RowStart(k, w), a[k..], b) {
      RowsApart(i, k, w);
      RowsApart(k, |a| + 1, w);
      RowUntouched(before, after, RowStart(k, w), a[k..], b);
    }
  }

  lemma {:induction false} RowUntouched(before: seq<uint32>, after: seq<uint32>, row: nat, a: seq<Line>, b: seq<Line>)
    requires RowDone(before, row, a, b) && |before| == |after|
    requires forall c :: row <= c <= row + |b| ==> after[c] == before[c]
    ensures RowDone(after, row, a, b)
  {
  }

  lemma {:induction false} FirstRow(cells: seq<uint32>, a: seq<Line>, b: seq<Line>)
    requires |cells| == RowStart(|a| + 1, |b| + 1) && forall c :: 0 <= c < |cells| ==> cells[c] == 0
    ensures RowsDone(cells, |a|, a, b)
  {
    RowsApart(|a|, |a| + 1, |b| + 1);
  }

  /** The table of the source: cell `i * (|b| + 1) + j` holds the length for `a[i..]` and `b[j..]`. */
  method FillTable(a: seq<Line>, b: seq<Line>) returns (dp: array<uint32>)
    requires |a| < 0x1_0000_0000
    ensures fresh(dp) && RowsDone(dp[..], 0, a, b)
  {
    hide RowStart, Lcs, RowDone;
    var n, m := |a|, |b|;
    var w := m + 1;
    dp := new uint32[RowStart(n + 1, w)](_ => 0);
    FirstRow(dp[..], a, b);
    for i := n downto 0
      invariant RowsDone(dp[..], i, a, b)
      invariant forall c :: 0 <= c < dp.Length && c < RowStart(i, w) ==> dp[c] == 0
    {
      var row := RowStart(i, w);
      NextRow(i, w);
      RowsApart(i, n + 1, w);
      assert RowDone(dp[..], row + m + 1, a[i + 1..], b);
      ghost var before := dp[..];
      FillRow(dp, row, i, a, b);
      OneMoreRow(before, dp[..], i, a, b);
    }
  }

  lemma {:induction false} CommonPrefixIs(a: seq<Line>, b: seq<Line>, n: nat)
    requires n <= |a| && n <= |b| && forall k :: 0 <= k < n ==> a[k] == b[k]
    requires n < |a| && n < |b| ==> a[n] != b[n]
    ensures CommonPrefix(a, b) == n
  {
    if n > 0 {
      CommonPrefixIs(a[1..], b[1..], n - 1);
    }
  }

  lemma {:induction false} CommonSuffixIs(a: seq<Line>, b: seq<Line>, n: nat)
    requires n <= |a| && n <= |b| && forall i :: |a| - n <= i < |a| ==> a[i] == b[i + |b| - |a|]
    requires n < |a| && n < |b| ==> a[|a| - n - 1] != b[|b| - n - 1]
    ensures CommonSuffix(a, b) == n
  {
    if n > 0 {
      CommonSuffixIs(a[..|a| - 1], b[..|b| - 1], n - 1);
    }
  }

  /** The walk over the table from the top left corner, and the lines of `b` that are left when `a` has run out. */
  method WalkTable(dp: array<uint32>, a: seq<Line>, b: seq<Line>, start: nat) returns (added: set<nat>)
    requires RowsDone(dp[..], 0, a, b)
    ensures added == Walk(a, b, start)
  {
    hide Lcs, RowDone, RowsDone, RowStart, Walk;
    var n, m := |a|, |b|;
    var w := m + 1;
    added := {};
    var i, j := 0, 0;
    assert a[0..] == a && b[0..] == b;
    while i < n && j < m
      invariant i <= n && j <= m
      invariant Walk(a, b, start) == added + Walk(a[i..], b[j..], start + j)
    {
      WalkStep(a, b, i, j, start);
      var row, below := RowStart(i, w), RowStart(i + 1, w);
      ReadRow(dp[..], row, below, i, j, a, b);
      if a[i] == b[j] {
        i, j := i + 1, j + 1;
      } else if dp[below + j] >= dp[row + (j + 1)] {
        i := i + 1;
      } else {
        added := added + {start + j};
        j := j + 1;
      }
    }
    while j < m
      invariant j <= m && (j < m ==> i == n)
      invariant Walk(a, b, start) == added + Walk(a[i..], b[j..], start + j)
    {
      WalkLeft(b, j, start);
      added := added + {start + j};
      j := j + 1;
    }
    WalkEnd(a, b, i, start);
  }

  lemma {:induction false} WalkLeft(b: seq<Line>, j: nat, start: nat)
    requires j < |b|
    ensures Walk([], b[j..], start + j) == {start + j} + Walk([], b[j + 1..], start + j + 1)
  {
    assert b[j..][1..] == b[j + 1..];
  }

  lemma {:induction false} WalkEnd(a: seq<Line>, b: seq<Line>, i: nat, start: nat)
    requires i <= |a|
    ensures Walk(a[i..], b[|b|..], start + |b|) == {}
  {
  }

  lemma {:induction false} WalkStep(a: seq<Line>, b: seq<Line>, i: nat, j: nat, start: nat)
    requires i < |a| && j < |b|
    ensures Walk(a[i..], b[j..], start + j) ==
              if a[i] == b[j] then Walk(a[i + 1..], b[j + 1..], start + j + 1)
              else if Lcs(a[i + 1..], b[j..]) >= Lcs(a[i..], b[j + 1..]) then Walk(a[i + 1..], b[j..], start + j)
              else {start + j} + Walk(a[i..], b[j + 1..], start + j + 1)
  {
    assert a[i..][1..] == a[i + 1..] && b[j..][1..] == b[j + 1..];
  }

  lemma {:induction false} ReadRow(cells: seq<uint32>, row: nat, below: nat, i: nat, j: nat, a: seq<Line>, b: seq<Line>)
    requires i < |a| && j < |b| && RowsDone(cells, 0, a, b)
    requires row == RowStart(i, |b| + 1) && below == RowStart(i + 1, |b| + 1)
    ensures below + j < |cells| && row + (j + 1) < |cells|
    ensures cells[below + j] as int == Lcs(a[i + 1..], b[j..])
    ensures cells[row + (j + 1)] as int == Lcs(a[i..], b[j + 1..])
  {
    hide Lcs, RowStart;
    assert RowDone(cells, below, a[i + 1..], b);
    assert RowDone(cells, row, a[i..], b);
  }

  /** The counting of the source, for middle parts that do not fit the table. */
  method CountLines(a: seq<Line>, b: seq<Line>, start: nat) returns (added: set<nat>)
    ensures added == Pooled(multiset(a), b, start)
  {
    hide Pooled;
    var pool: map<Line, nat> := map[];
    for i := 0 to |a|
      invariant forall l :: multiset(a[..i])[l] == if l in pool then pool[l] else 0
    {
      assert a[..i + 1] == a[..i] + [a[i]];
      pool := pool[a[i] := (if a[i] in pool then pool[a[i]] else 0) + 1];
    }
    assert a[..|a|] == a;
    ghost var left := multiset(a);
    added := {};
    assert b[0..] == b;
    for j := 0 to |b|
      invariant forall l :: left[l] == if l in pool then pool[l] else 0
      invariant Pooled(multiset(a), b, start) == added + Pooled(left, b[j..], start + j)
    {
      PooledNext(left, b, j, start);
      var n := if b[j] in pool then pool[b[j]] else 0;
      if n > 0 {
        pool := pool[b[j] := n - 1];
        left := left - multiset{b[j]};
      } else {
        added := added + {start + j};
      }
    }
    PooledEnd(left, b, start);
  }

  lemma {:induction false} PooledNext(pool: multiset<Line>, b: seq<Line>, j: nat, start: nat)
    requires j < |b|
    ensures Pooled(pool, b[j..], start + j)
         == if b[j] in pool then Pooled(pool - multiset{b[j]}, b[j + 1..], start + j + 1)
            else {start + j} + Pooled(pool, b[j + 1..], start + j + 1)
  {
    assert b[j..][1..] == b[j + 1..];
  }

  lemma {:induction false} PooledEnd(pool: multiset<Line>, b: seq<Line>, start: nat)
    ensures Pooled(pool, b[|b|..], start + |b|) == {}
  {
  }

  /** The two trimming loops of the source. */
  method TrimEnds(base: seq<Line>, cur: seq<Line>) returns (start: nat, endB: nat, endC: nat)
    ensures start <= endB <= |base| && start <= endC <= |cur|
    ensures var s := SplitEnds(base, cur);
            start == |s.head| && base[start..endB] == s.base && cur[start..endC] == s.cur
  {
    hide SplitEnds, CommonPrefix, CommonSuffix;
    start := 0;
    while start < |base| && start < |cur| && base[start] == cur[start]
      invariant start <= |base| && start <= |cur|
      invariant forall k :: 0 <= k < start ==> base[k] == cur[k]
    {
      start := start + 1;
    }
    CommonPrefixIs(base, cur, start);
    endB, endC := |base|, |cur|;
    while endB > start && endC > start && base[endB - 1] == cur[endC - 1]
      invariant start <= endB <= |base| && start <= endC <= |cur| && |base| - endB == |cur| - endC
      invariant forall i :: endB <= i < |base| ==> base[i] == cur[i + endC - endB]
    {
      endB, endC := endB - 1, endC - 1;
    }
    SuffixIs(base, cur, start, endB, endC);
    SplitIs(base, cur, start, |base| - endB);
  }

  lemma {:induction false} SuffixIs(base: seq<Line>, cur: seq<Line>, start: nat, endB: nat, endC: nat)
    requires start <= endB <= |base| && start <= endC <= |cur| && |base| - endB == |cur| - endC
    requires forall i :: endB <= i < |base| ==> base[i] == cur[i + endC - endB]
    requires endB > start && endC > start ==> base[endB - 1] != cur[endC - 1]
    ensures CommonSuffix(base[start..], cur[start..]) == |base| - endB
  {
    hide CommonSuffix;
    var bs, cs := base[start..], cur[start..];
    forall i | endB - start <= i < |bs| ensures bs[i] == cs[i + |cs| - |bs|] {
      assert bs[i] == base[start + i];
    }
    CommonSuffixIs(bs, cs, |base| - endB);
  }

  lemma {:induction false} SplitIs(base: seq<Line>, cur: seq<Line>, start: nat, tail: nat)
    requires start + tail <= |base| && start + tail <= |cur|
    requires start == CommonPrefix(base, cur) && tail == CommonSuffix(base[start..], cur[start..])
    ensures var s := SplitEnds(base, cur);
            start == |s.head| && base[start..|base| - tail] == s.base && cur[start..|cur| - tail] == s.cur
  {
    hide CommonPrefix, CommonSuffix;
  }

  /** Indexes of the lines of `cur` that the branch added. */
  method AddedLineIndexes(base: seq<Line>, cur: seq<Line>) returns (added: set<nat>)
    ensures added == AddedLines(base, cur)
  {
    hide Walk, Pooled, SplitEnds;
    var start, endB, endC := TrimEnds(base, cur);
    var a, b := base[start..endB], cur[start..endC];
    var n, m := endB - start, endC - start;
    if n == 0 || m == 0 || n * m > LIMIT {
      added := CountLines(a, b, start);
    } else {
      ProductBounds(n, m);
      var dp := FillTable(a, b);
      added := WalkTable(dp, a, b, start);
    }
  }

  lemma {:induction false} ProductBounds(n: nat, m: nat)
    requires m > 0
    ensures n <= n * m
  {
  }
}
