/**
 * The card shuffle shared by both deck generations: Go's `rand.Shuffle`
 * with a swap callback, which walks `i` from the last index down to 1 and
 * swaps position `i` with a random position `j` in `[0, i]`.
 */
module Shuffle {
  import opened Seqs

  /**
   * `draw(i)` is the random number drawn at step `i`; it is reduced into
   * `[0, i]` as `rand.Int31n(i + 1)` would return it. Whatever the draws,
   * the result is a rearrangement of the input.
   */
  method Shuffle<T>(s: seq<T>, draw: nat -> nat) returns (r: seq<T>)
    ensures |r| == |s|
    ensures multiset(r) == multiset(s)
  {
    r := s;
    var i := |r| - 1;
    while i > 0
      invariant i < |r| == |s|
      invariant multiset(r) == multiset(s)
      decreases i
    {
      var j := draw(i) % (i + 1);
      r := Swap(r, i, j);
      i := i - 1;
    }
  }
}
