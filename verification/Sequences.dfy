/** Facts about taking sequences apart, for elements of any type. */
module Sequences {

  lemma HeadOfConcat<T>(a: seq<T>, b: seq<T>)
    requires a != []
    ensures a + b != [] && (a + b)[0] == a[0] && (a + b)[1..] == a[1..] + b
  {}

  lemma Grouping<T>(a: seq<T>, b: seq<T>, c: seq<T>)
    ensures a + (b + c) == a + b + c
  {}

  lemma Around<T>(s: seq<T>, k: nat)
    requires k < |s|
    ensures s[..k + 1] == s[..k] + [s[k]] && s == s[..k] + [s[k]] + s[k + 1..]
    ensures s == s[..k] + s[k..] && s[k..][0] == s[k] && s[k..][1..] == s[k + 1..]
  {}

  lemma Updated<T>(s: seq<T>, k: nat, x: T)
    requires k < |s|
    ensures s[k := x][..k] == s[..k] && s[k := x][k + 1..] == s[k + 1..]
    ensures s[k := x] == s[..k] + ([x] + s[k + 1..])
  {}

  /** Counting the indices of a growing sequence, one more index at a time. */
  lemma OneMoreIndex<T>(before: set<T>, after: set<T>, n: T, counts: bool)
    requires n !in before
    requires forall i :: i in after <==> i in before || (counts && i == n)
    ensures |after| == |before| + if counts then 1 else 0
  {
    if counts {
      assert after == before + {n};
    } else {
      assert after == before;
    }
  }
}
