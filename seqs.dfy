/** Order-preserving selection of the elements of a sequence, as a boolean mask
    applied to a DataFrame (`df[mask]`) selects rows. */
module Seqs {

  /** The elements of `s` satisfying `p`, each as often as it occurs in `s`. */
  function Filter<T(==,!new)>(s: seq<T>, p: T -> bool): (r: seq<T>)
    ensures |r| <= |s|
    ensures forall x :: multiset(r)[x] == if p(x) then multiset(s)[x] else 0
    ensures forall x :: x in r ==> x in s && p(x)
  {
    if s == [] then []
    else
      var rest := Filter(s[1..], p);
      assert s == [s[0]] + s[1..];
      assert multiset(s) == multiset{s[0]} + multiset(s[1..]);
      if p(s[0]) then
        assert multiset([s[0]] + rest) == multiset{s[0]} + multiset(rest);
        [s[0]] + rest
      else
        rest
  }

  /** The first element kept is the first element of `s` that satisfies `p`. */
  lemma {:induction false} FilterHead<T(!new)>(s: seq<T>, p: T -> bool, k: nat)
    requires k < |s| && p(s[k])
    requires forall i :: 0 <= i < k ==> !p(s[i])
    ensures Filter(s, p) != [] && Filter(s, p)[0] == s[k]
  {
    if k > 0 {
      assert !p(s[0]);
      FilterHead(s[1..], p, k - 1);
    }
  }

  /** Nothing is kept exactly when no element satisfies `p`. */
  lemma FilterEmpty<T(!new)>(s: seq<T>, p: T -> bool)
    ensures Filter(s, p) == [] <==> forall x :: x in s ==> !p(x)
  {
    if forall x :: x in s ==> !p(x) {
      assert forall x :: multiset(Filter(s, p))[x] == 0;
      assert multiset(Filter(s, p)) == multiset{};
    } else {
      var x :| x in s && p(x);
      assert multiset(Filter(s, p))[x] > 0;
    }
  }
}
