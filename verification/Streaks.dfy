/** Trailing runs in a sequence of flags: the reference for every "N in a row" rule of the pipeline. */
module Streaks {

  /** Length of the run of trues at the end of vs. */
  function TrailingTrue(vs: seq<bool>): (n: nat)
    ensures n <= |vs|
  {
    if vs == [] || !vs[|vs| - 1] then 0 else 1 + TrailingTrue(vs[..|vs| - 1])
  }

  lemma TrailingTrueSnoc(vs: seq<bool>, v: bool)
    ensures TrailingTrue(vs + [v]) == if v then TrailingTrue(vs) + 1 else 0
  {
    assert (vs + [v])[..|vs|] == vs;
  }

  /** The trailing run is all true and cannot be extended to the left. */
  lemma {:induction false} TrailingTrueIsMaximal(vs: seq<bool>)
    ensures forall i :: |vs| - TrailingTrue(vs) <= i < |vs| ==> vs[i]
    ensures TrailingTrue(vs) < |vs| ==> !vs[|vs| - TrailingTrue(vs) - 1]
  {
    if vs == [] || !vs[|vs| - 1] {
    } else {
      TrailingTrueIsMaximal(vs[..|vs| - 1]);
    }
  }

  /** vs[a..b] is a run of trues with nothing true directly before it. */
  ghost predicate StartsRun(vs: seq<bool>, a: nat, b: nat) {
    && a < b <= |vs|
    && (a == 0 || !vs[a - 1])
    && forall i :: a <= i < b ==> vs[i]
  }

  /**
   Inside a run the streak counts its positions, so it takes each value exactly once: a run of
   length n has exactly one position where the streak is k when 1 <= k <= n, and none otherwise.
   */
  lemma {:induction false} StreakCountsRunPositions(vs: seq<bool>, a: nat, b: nat, i: nat)
    requires StartsRun(vs, a, b) && a <= i < b
    ensures TrailingTrue(vs[..i + 1]) == i - a + 1
    decreases i
  {
    assert vs[..i + 1] == vs[..i] + [vs[i]];
    TrailingTrueSnoc(vs[..i], vs[i]);
    if i == a {
      if a > 0 {
        assert vs[..a][a - 1] == vs[a - 1];
      }
    } else {
      StreakCountsRunPositions(vs, a, b, i - 1);
    }
  }
}
