/** `merge_dicts(d1, d2)`: a new dictionary holding every entry of d1 and
    d2, where d2's value wins for a key both have. Neither argument changes. */
module Dicts {

  function MergeDicts<V>(d1: map<string, V>, d2: map<string, V>): (r: map<string, V>)
    ensures r.Keys == d1.Keys + d2.Keys
    ensures forall k :: k in d2 ==> r[k] == d2[k]
    ensures forall k :: k in d1 && k !in d2 ==> r[k] == d1[k]
  {
    d1 + d2
  }

  /** Merging nothing in, or merging into nothing, changes nothing. */
  lemma MergeIdentity<V>(d: map<string, V>)
    ensures MergeDicts(d, map[]) == d && MergeDicts(map[], d) == d
  {
  }

  /** Merging the same overrides twice is the same as merging them once. */
  lemma MergeIdempotent<V>(d1: map<string, V>, d2: map<string, V>)
    ensures MergeDicts(MergeDicts(d1, d2), d2) == MergeDicts(d1, d2)
  {
  }

  /** Successive merges associate: overriding with d2 and then d3 is
      overriding once with d2 overridden by d3. */
  lemma MergeAssociative<V>(d1: map<string, V>, d2: map<string, V>, d3: map<string, V>)
    ensures MergeDicts(MergeDicts(d1, d2), d3) == MergeDicts(d1, MergeDicts(d2, d3))
  {
  }
}
