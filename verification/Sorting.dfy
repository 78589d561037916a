/** JavaScript's `Array.prototype.sort`, which is stable: the order is a total preorder given as a predicate. */
module Sorting {
  ghost predicate TotalPreorder<T(!new)>(le: (T, T) -> bool) {
    && (forall x, y :: le(x, y) || le(y, x))
    && (forall x, y, z :: le(x, y) && le(y, z) ==> le(x, z))
  }

  ghost predicate Sorted<T>(s: seq<T>, le: (T, T) -> bool) {
    forall i, j :: 0 <= i < j < |s| ==> le(s[i], s[j])
  }

  /** The members of `s` that `le` does not tell from `x`, in order. */
  function Ties<T>(s: seq<T>, le: (T, T) -> bool, x: T): (r: seq<T>)
    ensures forall y :: y in r ==> y in s && le(x, y) && le(y, x)
    ensures forall y :: y in s && le(x, y) && le(y, x) ==> y in r
  {
    if s == [] then []
    else if le(x, s[0]) && le(s[0], x) then [s[0]] + Ties(s[1..], le, x)
    else Ties(s[1..], le, x)
  }

  function Insert<T>(x: T, s: seq<T>, le: (T, T) -> bool): (r: seq<T>)
    ensures multiset(r) == multiset([x]) + multiset(s)
    ensures |r| == |s| + 1
  {
    if s == [] || le(x, s[0]) then [x] + s
    else
      assert s == [s[0]] + s[1..];
      [s[0]] + Insert(x, s[1..], le)
  }

  function Sort<T>(s: seq<T>, le: (T, T) -> bool): (r: seq<T>)
    ensures multiset(r) == multiset(s)
    ensures |r| == |s|
  {
    if s == [] then []
    else
      assert s == [s[0]] + s[1..];
      Insert(s[0], Sort(s[1..], le), le)
  }

  lemma {:induction false} InsertSorted<T(!new)>(x: T, s: seq<T>, le: (T, T) -> bool)
    requires TotalPreorder(le) && Sorted(s, le)
    ensures Sorted(Insert(x, s, le), le)
  {
    if s == [] || le(x, s[0]) {
    } else {
      InsertSorted(x, s[1..], le);
      var r := Insert(x, s[1..], le);
      forall j | 0 <= j < |r| ensures le(s[0], r[j]) {
        assert r[j] in multiset(r);
        assert r[j] in multiset([x]) + multiset(s[1..]);
        if r[j] != x {
          assert r[j] in s[1..];
        }
      }
    }
  }

  lemma {:induction false} InsertTies<T(!new)>(x: T, s: seq<T>, le: (T, T) -> bool, z: T)
    requires TotalPreorder(le)
    ensures Ties(Insert(x, s, le), le, z) == Ties([x] + s, le, z)
  {
    if s == [] || le(x, s[0]) {
    } else {
      InsertTies(x, s[1..], le, z);
      assert ([x] + s)[1..] == s;
      assert ([x] + s[1..])[1..] == s[1..];
      assert Insert(x, s, le)[1..] == Insert(x, s[1..], le);
    }
  }

  /** The result is ordered, and elements the order does not separate keep their places among themselves. */
  lemma {:induction false} SortIsStable<T(!new)>(s: seq<T>, le: (T, T) -> bool)
    requires TotalPreorder(le)
    ensures Sorted(Sort(s, le), le)
    ensures forall z :: Ties(Sort(s, le), le, z) == Ties(s, le, z)
  {
    if s != [] {
      SortIsStable(s[1..], le);
      InsertSorted(s[0], Sort(s[1..], le), le);
      forall z ensures Ties(Sort(s, le), le, z) == Ties(s, le, z) {
        InsertTies(s[0], Sort(s[1..], le), le, z);
        assert ([s[0]] + Sort(s[1..], le))[1..] == Sort(s[1..], le);
      }
    }
  }

  /** Order and stability leave exactly one result, so any stable sort agrees with `Sort`. */
  lemma {:induction false} StableSortIsUnique<T(!new)>(s: seq<T>, t: seq<T>, le: (T, T) -> bool)
    requires TotalPreorder(le) && Sorted(s, le) && Sorted(t, le)
    requires forall z :: Ties(s, le, z) == Ties(t, le, z)
    ensures s == t
  {
    assert t != [] ==> t[0] in Ties(t, le, t[0]);
    if s != [] {
      var x := s[0];
      assert x in Ties(s, le, x) && x in t;
      var y := t[0];
      assert y in Ties(t, le, y) && y in s;
      assert le(x, y) && le(y, x);
      assert Ties(s, le, x)[0] == x;
      assert Ties(t, le, x)[0] == y;
      forall z ensures Ties(s[1..], le, z) == Ties(t[1..], le, z) {
        assert Ties(s, le, z) == Ties(t, le, z);
        if le(z, x) && le(x, z) {
          assert Ties(s[1..], le, z) == Ties(s, le, z)[1..];
          assert Ties(t[1..], le, z) == Ties(t, le, z)[1..];
        }
      }
      StableSortIsUnique(s[1..], t[1..], le);
    }
  }

  lemma {:induction false} SortedIsFixed<T(!new)>(s: seq<T>, le: (T, T) -> bool)
    requires Sorted(s, le)
    ensures Sort(s, le) == s
  {
    if s != [] {
      SortedIsFixed(s[1..], le);
    }
  }
}
