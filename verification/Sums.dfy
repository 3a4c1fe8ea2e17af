/** Sums of a weight over a sequence. */
module Sums {
  function Sum<T>(s: seq<T>, w: T -> int): int {
    if s == [] then 0 else Sum(s[..|s| - 1], w) + w(s[|s| - 1])
  }

  lemma {:induction false} SumOfConcat<T>(s: seq<T>, t: seq<T>, w: T -> int)
    ensures Sum(s + t, w) == Sum(s, w) + Sum(t, w)
  {
    if t == [] {
      assert s + t == s;
    } else {
      SumOfConcat(s, t[..|t| - 1], w);
      assert (s + t)[..|s + t| - 1] == s + t[..|t| - 1];
    }
  }

  lemma SumAppended<T>(s: seq<T>, x: T, w: T -> int)
    ensures Sum(s + [x], w) == Sum(s, w) + w(x)
  {
    assert (s + [x])[..|s|] == s;
  }

  lemma {:induction false} SumUpdated<T>(s: seq<T>, k: nat, x: T, w: T -> int)
    requires k < |s|
    ensures Sum(s[k := x], w) == Sum(s, w) - w(s[k]) + w(x)
  {
    var n := |s| - 1;
    if k < n {
      SumUpdated(s[..n], k, x, w);
      assert s[k := x][..n] == s[..n][k := x];
    } else {
      assert s[k := x][..n] == s[..n];
    }
  }

  lemma {:induction false} SumOfNothing<T>(s: seq<T>, w: T -> int)
    requires forall i :: 0 <= i < |s| ==> w(s[i]) == 0
    ensures Sum(s, w) == 0
  {
    if s != [] { SumOfNothing(s[..|s| - 1], w); }
  }

  /** Only one slice of a sequence weighs anything. */
  lemma SumOfSlice<T>(s: seq<T>, a: nat, b: nat, w: T -> int)
    requires a <= b <= |s|
    requires forall i :: 0 <= i < |s| && !(a <= i < b) ==> w(s[i]) == 0
    ensures Sum(s, w) == Sum(s[a..b], w)
  {
    SumOfNothing(s[..a], w);
    SumOfNothing(s[b..], w);
    assert s[..b] + s[b..] == s && s[..a] + s[a..b] == s[..b];
    SumOfConcat(s[..b], s[b..], w);
    SumOfConcat(s[..a], s[a..b], w);
  }
}
