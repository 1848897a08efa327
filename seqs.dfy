/** Order-preserving filtering, the reference for every "drop the failed ones" stage of the pipeline. */
module Seqs {

  /** The elements of `s` that satisfy `p`, in their original order. */
  function Filter<T>(p: T -> bool, s: seq<T>): (r: seq<T>)
    ensures |r| <= |s|
  {
    if s == [] then []
    else Filter(p, s[..|s| - 1]) + (if p(s[|s| - 1]) then [s[|s| - 1]] else [])
  }

  /** What survives the filter satisfies the predicate and comes from the input. */
  lemma {:induction false} FilterSound<T>(p: T -> bool, s: seq<T>)
    ensures forall x <- Filter(p, s) :: p(x) && x in s
    decreases |s|
  {
    if s != [] {
      var init := s[..|s| - 1];
      FilterSound(p, init);
      assert forall x <- init :: x in s;
    }
  }

  /** The filter keeps every element exactly when every element satisfies the predicate. */
  lemma {:induction false} FilterKeepsAll<T>(p: T -> bool, s: seq<T>)
    ensures Filter(p, s) == s <==> forall x <- s :: p(x)
    decreases |s|
  {
    if s != [] {
      var init, last := s[..|s| - 1], s[|s| - 1];
      FilterKeepsAll(p, init);
      assert s == init + [last];
      if Filter(p, s) == s {
        assert Filter(p, init) == init;
      }
      if forall x <- s :: p(x) {
        assert forall x <- init :: x in s;
      }
    }
  }
}
