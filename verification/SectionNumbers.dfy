/** Which numbers the branch's audit sections get, said without the planner: `planSections` (scripts/renumber/plan.ts). */
module SectionNumbers {
  import opened Seqs
  import opened SectionPlan

  /** One more than the greatest number in use, 1 when none is greater than 0. */
  predicate IsNextAfter(used: seq<nat>, n: nat) {
    n > 0 && (forall u :: u in used ==> u < n) && (n == 1 || n - 1 in used)
  }

  /** A number in use gives way to the next one after all in use; a free one is kept. */
  predicate Fits(used: seq<nat>, was: nat, n: nat) { if was in used then IsNextAfter(used, n) else n == was }

  /** The numbers given to headings `ns` in order, where those of the base and those given before are in use. */
  predicate Numbering(ns: seq<nat>, used: seq<nat>, given: seq<nat>) {
    |given| == |ns| && forall k :: 0 <= k < |ns| ==> Fits(used + given[..k], ns[k], given[k])
  }

  predicate LastOf(ns: seq<nat>, k: int) { 0 <= k < |ns| && forall j :: k < j < |ns| ==> ns[j] != ns[k] }

  /** The plan holds the old number of every heading that moved, with what the last heading of that number was given. */
  ghost predicate IsPlanOf(plan: map<nat, nat>, ns: seq<nat>, given: seq<nat>)
    requires |ns| == |given|
  {
    && (forall n :: n in plan <==> exists k :: 0 <= k < |ns| && ns[k] == n && given[k] != n)
    && (forall k :: LastOf(ns, k) && given[k] != ns[k] ==> ns[k] in plan && plan[ns[k]] == given[k])
  }

  lemma {:induction false} MaxIsNext(used: seq<nat>)
    ensures IsNextAfter(used, MaxOf(used) + 1)
    ensures forall n :: IsNextAfter(used, n) ==> n == MaxOf(used) + 1
  {
    MaxIn(used);
  }

  lemma {:induction false} MaxIn(used: seq<nat>)
    ensures MaxOf(used) == 0 || MaxOf(used) in used
  {
    if used != [] {
      MaxIn(used[1..]);
    }
  }

  lemma {:induction false} NumberingFirst(ns: seq<nat>, used: seq<nat>, given: seq<nat>)
    requires ns != [] && |given| == |ns|
    ensures Numbering(ns, used, given) <==> Fits(used, ns[0], given[0]) && Numbering(ns[1..], used + [given[0]], given[1..])
  {
    hide Fits;
    assert used + given[..0] == used;
    forall k | 0 <= k < |ns| - 1 ensures (used + [given[0]]) + given[1..][..k] == used + given[..k + 1] {
      assert [given[0]] + given[1..][..k] == given[..k + 1];
      assert used + ([given[0]] + given[1..][..k]) == (used + [given[0]]) + given[1..][..k];
    }
    assert forall k :: 0 < k < |ns| ==> used + given[..k] == (used + [given[0]]) + given[1..][..k - 1];
    if Numbering(ns[1..], used + [given[0]], given[1..]) && Fits(used, ns[0], given[0]) {
      forall k | 0 <= k < |ns| ensures Fits(used + given[..k], ns[k], given[k]) {
        if k > 0 {
          assert ns[1..][k - 1] == ns[k] && given[1..][k - 1] == given[k];
        }
      }
    }
    if Numbering(ns, used, given) {
      forall k | 0 <= k < |ns| - 1 ensures Fits((used + [given[0]]) + given[1..][..k], ns[1..][k], given[1..][k]) {
        assert Fits(used + given[..k + 1], ns[k + 1], given[k + 1]);
      }
    }
  }

  lemma {:induction false} FirstFits(used: seq<nat>, n: nat)
    ensures Fits(used, n, First(n, used))
    ensures forall m :: Fits(used, n, m) ==> m == First(n, used)
  {
    MaxIsNext(used);
    hide IsNextAfter, MaxOf;
  }

  /** There is one way to number the headings. */
  lemma {:induction false} NumberingIsUnique(ns: seq<nat>, used: seq<nat>) returns (given: seq<nat>)
    ensures Numbering(ns, used, given)
    ensures forall other :: Numbering(ns, used, other) ==> other == given
    decreases |ns|
  {
    if ns == [] {
      given := [];
    } else {
      hide Fits, First;
      FirstFits(used, ns[0]);
      var first := First(ns[0], used);
      var rest := NumberingIsUnique(ns[1..], used + [first]);
      given := [first] + rest;
      assert given[1..] == rest;
      SameLength(ns[1..], used + [first], rest);
      NumberingFirst(ns, used, given);
      forall other | Numbering(ns, used, other) ensures other == given {
        SameLength(ns, used, other);
        NumberingFirst(ns, used, other);
        hide Numbering;
        assert other == [other[0]] + other[1..];
      }
    }
  }

  lemma {:induction false} SameLength(ns: seq<nat>, used: seq<nat>, given: seq<nat>)
    requires Numbering(ns, used, given)
    ensures |given| == |ns|
  {
  }

  /** The plan with the numbers `moved` before: a number in `moved` is in use. */
  ghost predicate IsPlanFrom(plan: map<nat, nat>, ns: seq<nat>, given: seq<nat>, moved: map<nat, nat>)
    requires |ns| == |given|
  {
    && (forall n :: n in plan <==> n in moved || exists k :: 0 <= k < |ns| && ns[k] == n && given[k] != n)
    && (forall k :: LastOf(ns, k) && given[k] != ns[k] ==> ns[k] in plan && plan[ns[k]] == given[k])
  }

  lemma {:induction false} PlanIsFrom(ns: seq<nat>, used: seq<nat>, given: seq<nat>, moved: map<nat, nat>)
    requires Numbering(ns, used, given) && forall n :: n in moved ==> n in used
    ensures IsPlanFrom(PlanFrom(ns, used, moved), ns, given, moved)
    decreases |ns|
  {
    if ns != [] {
      NumberingFirst(ns, used, given);
      MaxIsNext(used);
      hide IsNextAfter, Numbering, MaxOf;
      var n, g, rest, more := ns[0], given[0], ns[1..], given[1..];
      var then' := if n in used then moved[n := g] else moved;
      assert n in used <==> g != n by { NextIsNew(used, n, g); }
      assert PlanFrom(ns, used, moved) == PlanFrom(rest, used + [g], then');
      PlanIsFrom(rest, used + [g], more, then');
      PlanKeepsLast(rest, used + [g], then', n);
      hide PlanFrom;
      PlanStepIs(PlanFrom(ns, used, moved), ns, given, moved, then');
    }
  }

  lemma {:induction false} NextIsNew(used: seq<nat>, n: nat, g: nat)
    requires Fits(used, n, g)
    ensures n in used <==> g != n
  {
  }

  lemma {:induction false} PlanKeepsLast(ns: seq<nat>, used: seq<nat>, moved: map<nat, nat>, n: nat)
    ensures n !in ns ==> (n in PlanFrom(ns, used, moved) <==> n in moved)
    ensures n !in ns && n in moved ==> PlanFrom(ns, used, moved)[n] == moved[n]
  {
    if n !in ns {
      PlanKeeps(ns, used, moved, n);
    }
  }

  lemma {:induction false} PlanStepIs(plan: map<nat, nat>, ns: seq<nat>, given: seq<nat>, moved: map<nat, nat>, after: map<nat, nat>)
    requires |ns| == |given| && ns != []
    requires after == if given[0] != ns[0] then moved[ns[0] := given[0]] else moved
    requires IsPlanFrom(plan, ns[1..], given[1..], after)
    requires ns[0] !in ns[1..] && ns[0] in after ==> ns[0] in plan && plan[ns[0]] == after[ns[0]]
    ensures IsPlanFrom(plan, ns, given, moved)
  {
    var rest, more := ns[1..], given[1..];
    forall n ensures n in plan <==> n in moved || exists k :: 0 <= k < |ns| && ns[k] == n && given[k] != n {
      if k :| 0 <= k < |rest| && rest[k] == n && more[k] != n {
        assert ns[k + 1] == n && given[k + 1] != n;
      }
      if k :| 0 <= k < |ns| && ns[k] == n && given[k] != n {
        assert k > 0 ==> rest[k - 1] == n && more[k - 1] != n;
      }
    }
    forall k | LastOf(ns, k) && given[k] != ns[k] ensures ns[k] in plan && plan[ns[k]] == given[k] {
      if k > 0 {
        assert LastOf(rest, k - 1);
        assert rest[k - 1] == ns[k] && more[k - 1] == given[k];
      } else {
        assert ns[0] !in rest;
      }
    }
  }

  /** The plan of the added headings is that of the one numbering. */
  lemma {:induction false} PlanIsNumbering(ns: seq<nat>, used: seq<nat>, given: seq<nat>)
    requires Numbering(ns, used, given)
    ensures IsPlanOf(PlanFrom(ns, used, map[]), ns, given)
  {
    PlanIsFrom(ns, used, given, map[]);
    hide PlanFrom, Numbering;
  }
}
