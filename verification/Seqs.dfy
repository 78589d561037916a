/** Small helpers over sequences, shared by the other modules. */
module Seqs {
  datatype Option<+T> = None | Some(value: T)

  datatype Result<+T, +E> = Ok(value: T) | Err(error: E)

  predicate Distinct<T(==)>(s: seq<T>) {
    forall i, j :: 0 <= i < j < |s| ==> s[i] != s[j]
  }

  /** The elements of `s` that satisfy `p`, in order (the source's `filter`). */
  function Filter<T>(s: seq<T>, p: T -> bool): (r: seq<T>)
    ensures |r| <= |s|
    ensures forall x :: x in r ==> x in s && p(x)
    ensures forall x :: x in s && p(x) ==> x in r
  {
    if s == [] then []
    else if p(s[0]) then [s[0]] + Filter(s[1..], p)
    else Filter(s[1..], p)
  }

  /** The image of `s` under `f`, in order (the source's `map`). */
  function Map<T, U>(s: seq<T>, f: T -> U): (r: seq<U>)
    ensures |r| == |s|
    ensures forall i :: 0 <= i < |s| ==> r[i] == f(s[i])
  {
    seq(|s|, i requires 0 <= i < |s| => f(s[i]))
  }

  /** Index of the first element at or after `from` that satisfies `p`; `|s|` when there is none. */
  function FindFrom<T>(s: seq<T>, p: T -> bool, from: nat): (k: nat)
    requires from <= |s|
    ensures from <= k <= |s|
    ensures forall i :: from <= i < k ==> !p(s[i])
    ensures k < |s| ==> p(s[k])
    decreases |s| - from
  {
    if from == |s| || p(s[from]) then from else FindFrom(s, p, from + 1)
  }

  lemma {:induction false} FilterAppend<T>(s: seq<T>, t: seq<T>, p: T -> bool)
    ensures Filter(s + t, p) == Filter(s, p) + Filter(t, p)
  {
    if s == [] {
      assert s + t == t;
    } else {
      assert (s + t)[1..] == s[1..] + t;
      FilterAppend(s[1..], t, p);
    }
  }

  lemma {:induction false} FilterNext<T>(s: seq<T>, x: T, p: T -> bool)
    ensures Filter(s + [x], p) == Filter(s, p) + (if p(x) then [x] else [])
  {
    FilterAppend(s, [x], p);
  }

  lemma {:induction false} FilterAgree<T>(s: seq<T>, p: T -> bool, q: T -> bool)
    requires forall x :: x in s ==> p(x) == q(x)
    ensures Filter(s, p) == Filter(s, q)
  {
    if s != [] {
      FilterAgree(s[1..], p, q);
    }
  }

  lemma {:induction false} FilterAll<T>(s: seq<T>, p: T -> bool)
    requires forall x :: x in s ==> p(x)
    ensures Filter(s, p) == s
  {
    if s != [] {
      FilterAll(s[1..], p);
    }
  }

  lemma {:induction false} FilterNone<T>(s: seq<T>, p: T -> bool)
    requires forall x :: x in s ==> !p(x)
    ensures Filter(s, p) == []
  {
    if s != [] {
      FilterNone(s[1..], p);
    }
  }

  lemma {:induction false} FilterFilter<T>(s: seq<T>, p: T -> bool, q: T -> bool)
    requires forall x :: x in s && q(x) ==> p(x)
    ensures Filter(Filter(s, p), q) == Filter(s, q)
  {
    if s != [] {
      FilterFilter(s[1..], p, q);
      if p(s[0]) {
        assert Filter(s, p)[1..] == Filter(s[1..], p);
      }
    }
  }

  lemma {:induction false} FilterDistinct<T>(s: seq<T>, p: T -> bool)
    requires Distinct(s)
    ensures Distinct(Filter(s, p))
  {
    if s != [] {
      FilterDistinct(s[1..], p);
    }
  }

  lemma {:induction false} DistinctConcat<T>(a: seq<T>, b: seq<T>)
    ensures Distinct(a + b) <==> Distinct(a) && Distinct(b) && forall x :: x in b ==> x !in a
  {
    var c := a + b;
    if Distinct(c) {
      forall i, j | 0 <= i < j < |a| ensures a[i] != a[j] {
        assert c[i] != c[j];
      }
      forall i, j | 0 <= i < j < |b| ensures b[i] != b[j] {
        assert c[|a| + i] != c[|a| + j];
      }
      forall x | x in b ensures x !in a {
        var j :| 0 <= j < |b| && b[j] == x;
        forall i | 0 <= i < |a| ensures a[i] != x {
          assert c[i] != c[|a| + j];
        }
      }
    }
    if Distinct(a) && Distinct(b) && forall x :: x in b ==> x !in a {
      forall i, j | 0 <= i < j < |c| ensures c[i] != c[j] {
        assert j >= |a| ==> c[j] == b[j - |a|] && c[j] in b;
      }
    }
  }

  lemma {:induction false} DistinctCounts<T>(s: seq<T>)
    ensures Distinct(s) <==> forall x :: x in s ==> multiset(s)[x] == 1
  {
    if s != [] {
      var t := s[1..];
      assert s == [s[0]] + t;
      DistinctConcat([s[0]], t);
      DistinctCounts(t);
      assert forall x :: multiset(s)[x] == multiset{s[0]}[x] + multiset(t)[x];
      assert multiset(s)[s[0]] == 1 <==> s[0] !in t;
      if forall x :: x in s ==> multiset(s)[x] == 1 {
        forall x | x in t ensures multiset(t)[x] == 1 {
          assert x in s;
        }
      }
    }
  }

  /** A permutation of a list without duplicates has none. */
  lemma {:induction false} DistinctPermutation<T>(s: seq<T>, t: seq<T>)
    requires multiset(s) == multiset(t)
    ensures Distinct(s) <==> Distinct(t)
    ensures forall x :: x in s <==> x in t
  {
    DistinctCounts(s);
    DistinctCounts(t);
    forall x ensures x in s <==> x in t {
      assert x in s <==> x in multiset(s);
      assert x in t <==> x in multiset(t);
    }
  }

  lemma {:induction false} FilterPermutation<T>(s: seq<T>, t: seq<T>, p: T -> bool)
    requires multiset(s) == multiset(t)
    ensures multiset(Filter(s, p)) == multiset(Filter(t, p))
    decreases |s|
  {
    if s == [] {
      assert t == [] by {
        assert |multiset(t)| == 0;
      }
    } else {
      assert s == [s[0]] + s[1..];
      assert s[0] in multiset(t);
      var k :| 0 <= k < |t| && t[k] == s[0];
      var rest := t[..k] + t[k + 1..];
      assert t == t[..k] + ([t[k]] + t[k + 1..]);
      assert multiset(rest) == multiset(t) - multiset{s[0]};
      FilterPermutation(s[1..], rest, p);
      FilterAppend([s[0]], s[1..], p);
      FilterAppend(t[..k], [t[k]] + t[k + 1..], p);
      FilterAppend([t[k]], t[k + 1..], p);
      FilterAppend(t[..k], t[k + 1..], p);
    }
  }

  lemma {:induction false} MapConcat<T, U>(s: seq<T>, t: seq<T>, f: T -> U)
    ensures Map(s + t, f) == Map(s, f) + Map(t, f)
  {
  }

  lemma {:induction false} MapPermutation<T, U>(s: seq<T>, t: seq<T>, f: T -> U)
    requires multiset(s) == multiset(t)
    ensures multiset(Map(s, f)) == multiset(Map(t, f))
    decreases |s|
  {
    if s == [] {
      assert t == [] by {
        assert |multiset(t)| == 0;
      }
    } else {
      assert s == [s[0]] + s[1..];
      assert s[0] in multiset(t);
      var k :| 0 <= k < |t| && t[k] == s[0];
      var rest := t[..k] + t[k + 1..];
      assert t == t[..k] + ([t[k]] + t[k + 1..]);
      assert multiset(rest) == multiset(t) - multiset{s[0]};
      hide Map;
      MapPermutation(s[1..], rest, f);
      MapOneFirst(s[0], s[1..], f);
      MapOneOut(t, k, f);
    }
  }

  lemma {:induction false} MapOneFirst<T, U>(x: T, s: seq<T>, f: T -> U)
    ensures multiset(Map([x] + s, f)) == multiset{f(x)} + multiset(Map(s, f))
  {
    MapConcat([x], s, f);
    assert Map([x], f) == [f(x)];
  }

  lemma {:induction false} MapOneOut<T, U>(t: seq<T>, k: nat, f: T -> U)
    requires k < |t|
    ensures multiset(Map(t, f)) == multiset{f(t[k])} + multiset(Map(t[..k] + t[k + 1..], f))
  {
    hide Map;
    assert t == t[..k] + ([t[k]] + t[k + 1..]);
    MapConcat(t[..k], [t[k]] + t[k + 1..], f);
    MapOneFirst(t[k], t[k + 1..], f);
    MapConcat(t[..k], t[k + 1..], f);
  }

  /** Two elements that pass the filter keep different images. */
  lemma {:induction false} FilterMapDistinct<T, U>(s: seq<T>, p: T -> bool, f: T -> U, i: nat, j: nat)
    requires Distinct(Map(Filter(s, p), f)) && i < j < |s| && p(s[i]) && p(s[j])
    ensures f(s[i]) != f(s[j])
    decreases |s|
  {
    var t := s[1..];
    assert s == [s[0]] + t;
    var rest := Filter(t, p);
    if p(s[0]) {
      MapConcat([s[0]], rest, f);
      DistinctConcat(Map([s[0]], f), Map(rest, f));
    }
    if i > 0 {
      FilterMapDistinct(t, p, f, i - 1, j - 1);
    } else {
      assert t[j - 1] in rest;
      var k :| 0 <= k < |rest| && rest[k] == t[j - 1];
      assert Map(rest, f)[k] in Map(rest, f);
      assert Map([s[0]], f)[0] == f(s[0]);
    }
  }

  /** The first index at which `p` holds is the only one that `FindFrom` can return. */
  lemma {:induction false} FindFromIs<T>(s: seq<T>, p: T -> bool, from: nat, k: nat)
    requires from <= k <= |s|
    requires forall i :: from <= i < k ==> !p(s[i])
    requires k < |s| ==> p(s[k])
    ensures FindFrom(s, p, from) == k
  {
    var f := FindFrom(s, p, from);
    if f < k {
      assert false;
    }
  }
}
