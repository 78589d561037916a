/** The numbers of the moved migration tags, as the texts of the branch name them (`planRenumber`, scripts/renumber/plan.ts). */
module TagNumbers {
  import opened Decimals
  import opened JournalMerge
  import opened RewritingTheorems
  import opened Seqs
  import opened Sorting
  import J = JournalMergeTheorems
  import P = MigrationPlan

  datatype NewName = NewName(was: string, becomes: string)

  /** `Map.set`: a key that is already there keeps its place. */
  function SetName(names: seq<NewName>, was: string, becomes: string): seq<NewName> {
    var k := FindFrom(names, (x: NewName) => x.was == was, 0);
    if k == |names| then names + [NewName(was, becomes)] else names[k := NewName(was, becomes)]
  }

  /** The entries of the tag map in the order they were set. */
  function Names(own: seq<Entry>, moved: seq<Entry>): seq<NewName>
    requires |own| == |moved|
  {
    if own == [] then []
    else
      var k := |own| - 1;
      var before := Names(own[..k], moved[..k]);
      if own[k].tag == moved[k].tag then before else SetName(before, own[k].tag, moved[k].tag)
  }

  /** `tag.slice(0, 4)`. */
  function Number(tag: string): string { if |tag| <= 4 then tag else tag[..4] }

  /** `new Map([...tags].map(([a, b]) => [a.slice(0, 4), b.slice(0, 4)]))`: the last of two equal numbers wins. */
  function NumbersOfNames(names: seq<NewName>): map<string, string> {
    if names == [] then map[]
    else
      var k := |names| - 1;
      NumbersOfNames(names[..k])[Number(names[k].was) := Number(names[k].becomes)]
  }

  function NumberMap(own: seq<Entry>, moved: seq<Entry>): map<string, string>
    requires |own| == |moved|
  {
    NumbersOfNames(Names(own, moved))
  }

  // ---------------------------------------------------------------------------------------------
  // Where the names come from

  predicate Changed(own: seq<Entry>, moved: seq<Entry>, k: nat)
    requires |own| == |moved| && k < |own|
  {
    own[k].tag != moved[k].tag
  }

  predicate NameOf(own: seq<Entry>, moved: seq<Entry>, k: int, x: NewName)
    requires |own| == |moved|
  {
    0 <= k < |own| && Changed(own, moved, k) && x == NewName(own[k].tag, moved[k].tag)
  }

  ghost predicate FromOwn(own: seq<Entry>, moved: seq<Entry>, x: NewName)
    requires |own| == |moved|
  {
    exists k :: NameOf(own, moved, k, x)
  }

  lemma {:induction false} NamesAreOwn(own: seq<Entry>, moved: seq<Entry>)
    requires |own| == |moved|
    ensures forall x :: x in Names(own, moved) ==> FromOwn(own, moved, x)
  {
    if own != [] {
      var k := |own| - 1;
      NamesAreOwn(own[..k], moved[..k]);
      hide Names;
      forall x | FromOwn(own[..k], moved[..k], x) ensures FromOwn(own, moved, x) {
        var j :| NameOf(own[..k], moved[..k], j, x);
        assert NameOf(own, moved, j, x);
      }
      var before := Names(own[..k], moved[..k]);
      if Changed(own, moved, k) {
        var last := NewName(own[k].tag, moved[k].tag);
        assert NameOf(own, moved, k, last);
        SetNameHolds(before, own[k].tag, moved[k].tag);
      }
      NamesStep(own, moved);
    }
  }

  lemma {:induction false} NamesStep(own: seq<Entry>, moved: seq<Entry>)
    requires |own| == |moved| && own != []
    ensures var k := |own| - 1;
            Names(own, moved)
            == if Changed(own, moved, k) then SetName(Names(own[..k], moved[..k]), own[k].tag, moved[k].tag)
               else Names(own[..k], moved[..k])
  {
  }

  lemma {:induction false} SetNameHolds(names: seq<NewName>, was: string, becomes: string)
    ensures forall x :: x in SetName(names, was, becomes) ==> x in names || x == NewName(was, becomes)
    ensures (forall x :: x in names ==> x.was != was) ==> SetName(names, was, becomes) == names + [NewName(was, becomes)]
  {
  }

  predicate Numbers(x: NewName, key: string, value: string) { Number(x.was) == key && Number(x.becomes) == value }

  lemma {:induction false} NumbersAreNames(names: seq<NewName>)
    ensures forall key :: key in NumbersOfNames(names) ==> exists x :: x in names && Numbers(x, key, NumbersOfNames(names)[key])
  {
    if names != [] {
      var k := |names| - 1;
      NumbersAreNames(names[..k]);
      var before, all := NumbersOfNames(names[..k]), NumbersOfNames(names);
      hide Number, NumbersOfNames;
      forall key | key in all ensures exists x :: x in names && Numbers(x, key, all[key]) {
        if key == Number(names[k].was) {
          assert Numbers(names[k], key, all[key]);
        } else {
          var x :| x in names[..k] && Numbers(x, key, before[key]);
        }
      }
    }
  }

  // ---------------------------------------------------------------------------------------------
  // The theorems

  lemma {:induction false} NewNumber(idx: nat, tag: string)
    ensures FourDigits(Number(NewTag(idx, tag)))
    ensures idx < 10_000 ==> ValueOf(Number(NewTag(idx, tag))) == idx
  {
    var d := Decimal(idx);
    var p := Pad4(d);
    DecimalLengthStep(idx, 4, 10_000);
    Pad4Digits(d);
    ValueOfDecimal(idx);
    assert NewTag(idx, tag)[..4] == p[..4];
    assert idx < 10_000 ==> p[..4] == p;
  }

  /** The moved entries of a merge, with their numbers. */
  predicate AreMoved(own: seq<Entry>, moved: seq<Entry>, first: nat) {
    && |own| == |moved|
    && forall k :: 0 <= k < |moved| ==> moved[k].tag == NewTag(first + k, own[k].tag)
  }

  lemma {:induction false} MovedAre(own: seq<Entry>, first: nat, lastWhen: int)
    ensures AreMoved(own, Moved(own, first - 1, lastWhen), first)
  {
    MovedShape(own, first - 1, lastWhen);
    hide NewTag, Moved;
    var moved := Moved(own, first - 1, lastWhen);
    forall k | 0 <= k < |moved| ensures moved[k].tag == NewTag(first + k, own[k].tag) {
      assert MovedAt(own, moved, first - 1, lastWhen, k);
    }
  }

  /** An entry of the number map is the old and the new number of one own migration. */
  lemma {:induction false} NumberComesFrom(own: seq<Entry>, moved: seq<Entry>, key: string) returns (k: nat)
    requires |own| == |moved| && key in NumberMap(own, moved)
    ensures k < |own| && Changed(own, moved, k)
    ensures Number(own[k].tag) == key && Number(moved[k].tag) == NumberMap(own, moved)[key]
  {
    hide Names, NumbersOfNames, Number;
    var names := Names(own, moved);
    NamesAreOwn(own, moved);
    NumbersAreNames(names);
    var x :| x in names && Numbers(x, key, NumbersOfNames(names)[key]);
    k :| NameOf(own, moved, k, x);
  }

  lemma {:induction false} NewNumbersApart(own: seq<Entry>, moved: seq<Entry>, first: nat, i: nat, k: nat)
    requires AreMoved(own, moved, first) && first + |own| <= 10_000 && i < |own| && k < |own|
    ensures Number(moved[i].tag) == Number(moved[k].tag) ==> i == k
  {
    hide Number, NewTag;
    NewNumber(first + i, own[i].tag);
    NewNumber(first + k, own[k].tag);
  }

  /** Every own migration that moves has its number renamed to its new one. */
  ghost predicate NamesEach(own: seq<Entry>, moved: seq<Entry>)
    requires |own| == |moved|
  {
    forall k :: 0 <= k < |own| && Changed(own, moved, k) ==> NamedAt(own, moved, k)
  }

  ghost predicate NamedAt(own: seq<Entry>, moved: seq<Entry>, k: nat)
    requires |own| == |moved| && k < |own|
  {
    Number(own[k].tag) in NumberMap(own, moved) && NumberMap(own, moved)[Number(own[k].tag)] == Number(moved[k].tag)
  }

  /** No two own migrations that move have tags with the same first four characters. */
  ghost predicate NumbersApart(own: seq<Entry>, moved: seq<Entry>)
    requires |own| == |moved|
  {
    forall i, k :: 0 <= i < k < |own| && Changed(own, moved, i) && Changed(own, moved, k) ==>
      Number(own[i].tag) != Number(own[k].tag)
  }

  /**
   * What the pass over four-digit numbers is given: four digits for each number, different ones for different numbers,
   * and each own migration's new number exactly when no two tags of the branch start with the same number.
   */
  lemma {:induction false} NumbersNameEachIff(own: seq<Entry>, moved: seq<Entry>, first: nat)
    requires AreMoved(own, moved, first) && first + |own| <= 10_000
    ensures ToFourDigits(NumberMap(own, moved))
    ensures var m := NumberMap(own, moved); forall a, b :: a in m && b in m && m[a] == m[b] ==> a == b
    ensures NamesEach(own, moved) <==> NumbersApart(own, moved)
  {
    hide NewTag, NumberMap, Number, Changed, NamesEach, NumbersApart, ToFourDigits;
    ValuesAreNumbers(own, moved, first);
    ValuesDiffer(own, moved, first);
    if NumbersApart(own, moved) {
      ApartNamesEach(own, moved);
    }
    if NamesEach(own, moved) {
      EachIsApart(own, moved, first);
    }
  }

  lemma {:induction false} ValuesAreNumbers(own: seq<Entry>, moved: seq<Entry>, first: nat)
    requires AreMoved(own, moved, first)
    ensures ToFourDigits(NumberMap(own, moved))
  {
    hide NumberMap, Number, FourDigits, NewTag;
    var m := NumberMap(own, moved);
    forall key | key in m ensures FourDigits(m[key]) {
      var k := NumberComesFrom(own, moved, key);
      NewNumber(first + k, own[k].tag);
    }
  }

  lemma {:induction false} ValuesDiffer(own: seq<Entry>, moved: seq<Entry>, first: nat)
    requires AreMoved(own, moved, first) && first + |own| <= 10_000
    ensures var m := NumberMap(own, moved); forall a, b :: a in m && b in m && m[a] == m[b] ==> a == b
  {
    hide NumberMap, Number, NewTag;
    var m := NumberMap(own, moved);
    forall a, b | a in m && b in m && m[a] == m[b] ensures a == b {
      var i := NumberComesFrom(own, moved, a);
      var k := NumberComesFrom(own, moved, b);
      NewNumbersApart(own, moved, first, i, k);
    }
  }

  lemma {:induction false} EachIsApart(own: seq<Entry>, moved: seq<Entry>, first: nat)
    requires AreMoved(own, moved, first) && first + |own| <= 10_000 && NamesEach(own, moved)
    ensures NumbersApart(own, moved)
  {
    hide NumberMap, Number, NewTag;
    forall i: nat, k: nat | i < k < |own| && Changed(own, moved, i) && Changed(own, moved, k)
      ensures Number(own[i].tag) != Number(own[k].tag)
    {
      NewNumbersApart(own, moved, first, i, k);
      assert NamedAt(own, moved, i) && NamedAt(own, moved, k);
    }
  }

  lemma {:induction false} ApartNamesEach(own: seq<Entry>, moved: seq<Entry>)
    requires |own| == |moved| && NumbersApart(own, moved)
    ensures NamesEach(own, moved)
  {
    if own != [] {
      var n := |own| - 1;
      var a, b := own[..n], moved[..n];
      assert forall k :: 0 <= k < n ==> Changed(a, b, k) == Changed(own, moved, k);
      ApartNamesEach(a, b);
      NamesStep(own, moved);
      if Changed(own, moved, n) {
        NewIsAppended(own, moved, n);
      }
      hide Names, NumbersOfNames, Number, SetName;
      forall k | 0 <= k < |own| && Changed(own, moved, k) ensures NamedAt(own, moved, k) {
        assert k < n ==> Changed(a, b, k) && NamedAt(a, b, k);
      }
    }
  }

  lemma {:induction false} NewIsAppended(own: seq<Entry>, moved: seq<Entry>, n: nat)
    requires |own| == |moved| == n + 1 && NumbersApart(own, moved) && Changed(own, moved, n)
    ensures NumberMap(own, moved) == NumberMap(own[..n], moved[..n])[Number(own[n].tag) := Number(moved[n].tag)]
  {
    hide Number, Names, NumbersOfNames, SetName;
    var a, b := own[..n], moved[..n];
    var before := Names(a, b);
    NamesAreOwn(a, b);
    forall x | x in before ensures x.was != own[n].tag {
      var k :| NameOf(a, b, k, x);
      assert Changed(own, moved, k);
    }
    SetNameHolds(before, own[n].tag, moved[n].tag);
    NamesStep(own, moved);
    LastNumber(before, NewName(own[n].tag, moved[n].tag));
  }

  lemma {:induction false} LastNumber(names: seq<NewName>, x: NewName)
    ensures NumbersOfNames(names + [x]) == NumbersOfNames(names)[Number(x.was) := Number(x.becomes)]
  {
    assert (names + [x])[..|names|] == names;
  }

  /** The same of the migrations a merge moves: the tree keeps a valid base, and the merged journal is short enough. */
  lemma {:induction false} MergedNumbersIff(base: seq<Entry>, cur: seq<Entry>)
    requires J.Valid(base) && J.KeepsBase(base, cur) && |base| + |NotIn(base, cur)| <= 10_000
    ensures var own := Own(base, cur);
            var moved := Moved(own, |base| - 1, MaxWhen(base, 0));
            && Renumber(base, cur).Ok? && Renumber(base, cur).value.entries == base + moved && |own| == |moved|
            && var m := NumberMap(own, moved);
               && ToFourDigits(m) && (forall a, b :: a in m && b in m && m[a] == m[b] ==> a == b)
               && (NamesEach(own, moved) <==> NumbersApart(own, moved))
  {
    hide *;
    var own := Own(base, cur);
    J.RenumberShape(base, cur);
    MovedAre(own, |base|, MaxWhen(base, 0));
    OwnIsAll(base, cur);
    NumbersNameEachIff(own, Moved(own, |base| - 1, MaxWhen(base, 0)), |base|);
  }

  lemma {:induction false} OwnIsAll(base: seq<Entry>, cur: seq<Entry>)
    ensures |Own(base, cur)| == |NotIn(base, cur)|
  {
    hide NotIn;
    assert |Sort(NotIn(base, cur), ByIdx)| == |NotIn(base, cur)|;
  }

  /** In a branch whose own tags carry their indexes, as the planner asks, the numbers are apart. */
  lemma {:induction false} NumberedTagsAreApart(own: seq<Entry>, moved: seq<Entry>)
    requires |own| == |moved|
    requires forall i, k :: 0 <= i < k < |own| ==> own[i].idx != own[k].idx
    requires forall e :: e in own ==> P.TagNumber(e.tag) == Some(e.idx)
    ensures NumbersApart(own, moved)
  {
    hide P.TagNumber;
    hide Number;
    forall i, k | 0 <= i < k < |own| ensures Number(own[i].tag) != Number(own[k].tag) {
      assert own[i] in own && own[k] in own;
      SameNumber(own[i].tag, own[k].tag);
    }
  }

  lemma {:induction false} SameNumber(a: string, b: string)
    requires P.TagNumber(a).Some? && P.TagNumber(b).Some?
    ensures Number(a) == Number(b) ==> P.TagNumber(a) == P.TagNumber(b)
  {
  }
}
