/** Order-preserving de-duplication of sequences. */
module Seqs {

  predicate Distinct<T(==)>(xs: seq<T>) {
    forall i, j :: 0 <= i < j < |xs| ==> xs[i] != xs[j]
  }

  /** The first occurrence of every element, in the order of `xs`. */
  function Dedup<T(==,!new)>(xs: seq<T>): (r: seq<T>)
    ensures Distinct(r)
    ensures forall x :: x in r <==> x in xs
    ensures |r| <= |xs|
  {
    if |xs| == 0 then []
    else
      var init := xs[..|xs| - 1];
      var last := xs[|xs| - 1];
      assert xs == init + [last];
      Dedup(init) + (if last in init then [] else [last])
  }

  /** A sequence without repetitions is its own de-duplication. */
  lemma {:induction false} DedupDistinct<T(!new)>(xs: seq<T>)
    requires Distinct(xs)
    ensures Dedup(xs) == xs
  {
    if |xs| > 0 {
      var init := xs[..|xs| - 1];
      assert Distinct(init);
      DedupDistinct(init);
      assert xs[|xs| - 1] !in init;
      assert xs == init + [xs[|xs| - 1]];
    }
  }

  // ---- regrouping concatenations ----

  lemma Regroup<T>(a: seq<T>, t: T, b: seq<T>)
    ensures a + ([t] + b) == a + [t] + b
  {
  }

  /** `a`, then a final delimiter `r` and whatever follows it. */
  lemma SplitLast<T>(a: seq<T>, r: T, rest: seq<T>)
    ensures a + [r] + rest == a + ([r] + rest)
    ensures ([r] + rest)[0] == r && ([r] + rest)[1..] == rest
  {
  }

  /** `a`, a separator `c`, more elements, then a final delimiter `r` and
      whatever follows it. */
  lemma SplitSeparated<T>(a: seq<T>, c: T, more: seq<T>, r: T, rest: seq<T>)
    ensures a + [c] + more + [r] + rest == a + ([c] + more + ([r] + rest))
    ensures ([c] + more + ([r] + rest))[0] == c
    ensures ([c] + more + ([r] + rest))[1..] == more + [r] + rest
  {
    assert ([c] + more + ([r] + rest))[1..] == more + ([r] + rest);
  }
}
