/** What a three-way merge makes of one thing that both sides hold under the same key. */
module Merging {
  import opened Seqs

  /**
   * The merge of what the ancestor, the branch and the base hold; `None` in `r.0` when both sides changed it differently.
   * What one side edited and the other deleted stays as edited.
   */
  function Merge3<T(==)>(a: Option<T>, o: Option<T>, t: Option<T>): Option<Option<T>> {
    if o == t || o == a then Some(t)
    else if t == a || t.None? then Some(o)
    else if o.None? then Some(t)
    else None
  }

  lemma {:induction false} MergeIsSymmetric<T>(a: Option<T>, o: Option<T>, t: Option<T>)
    ensures Merge3(a, o, t) == Merge3(a, t, o)
  {
  }
}
