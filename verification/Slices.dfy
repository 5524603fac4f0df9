/** Slices of sequences. */
module Slices {
  lemma {:induction false} SliceOfSlice<T>(s: seq<T>, i: nat, j: nat, a: nat, b: nat)
    requires i <= j <= |s| && a <= b <= j - i
    ensures s[i..j][a..b] == s[i + a..i + b]
  {
    var t, u := s[i..j][a..b], s[i + a..i + b];
    forall k | 0 <= k < b - a ensures t[k] == u[k] {
      assert s[i..j][a + k] == s[i + (a + k)];
    }
  }
}
