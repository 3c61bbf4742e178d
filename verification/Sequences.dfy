/** What splicing does to a sequence without repetitions. */
module Sequences {
  lemma Spliced<X>(s: seq<X>, k: nat, x: X)
    requires k <= |s| && x !in s && forall i, j | 0 <= i < j < |s| :: s[i] != s[j]
    ensures var r := s[..k] + [x] + s[k..];
            && |r| == |s| + 1 && r[k] == x
            && (forall i | 0 <= i < k :: r[i] == s[i]) && (forall i | k < i < |r| :: r[i] == s[i - 1])
            && (forall i, j | 0 <= i < j < |r| :: r[i] != r[j])
  {
  }
}
