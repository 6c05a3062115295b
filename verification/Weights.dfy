/** Sums over the processes of a protocol, one weight for each. */
module Weights {

  function Weight<T>(s: seq<T>, w: T -> nat): nat {
    if s == [] then 0 else Weight(s[..|s| - 1], w) + w(s[|s| - 1])
  }

  lemma {:induction false} WeightUpdate<T>(s: seq<T>, i: nat, x: T, w: T -> nat)
    requires i < |s|
    ensures Weight(s[i := x], w) + w(s[i]) == Weight(s, w) + w(x)
  {
    var n := |s| - 1;
    if i == n {
      assert s[i := x][..n] == s[..n];
    } else {
      assert s[i := x][..n] == s[..n][i := x];
      WeightUpdate(s[..n], i, x, w);
    }
  }

  lemma {:induction false} WeightZero<T>(s: seq<T>, w: T -> nat)
    ensures Weight(s, w) == 0 <==> forall i | 0 <= i < |s| :: w(s[i]) == 0
  {
    if s != [] {
      WeightZero(s[..|s| - 1], w);
      assert forall i | 0 <= i < |s| - 1 :: s[..|s| - 1][i] == s[i];
    }
  }

  lemma {:induction false} WeightBound<T>(s: seq<T>, v: T -> nat, w: T -> nat)
    requires forall i | 0 <= i < |s| :: v(s[i]) <= w(s[i])
    ensures Weight(s, v) <= Weight(s, w)
  {
    if s != [] {
      assert forall i | 0 <= i < |s| - 1 :: s[..|s| - 1][i] == s[i];
      WeightBound(s[..|s| - 1], v, w);
    }
  }

  lemma {:induction false} WeightSum<T>(s: seq<T>, v: T -> nat, w: T -> nat, c: nat)
    requires forall i | 0 <= i < |s| :: v(s[i]) + w(s[i]) == c
    ensures Weight(s, v) + Weight(s, w) == c * |s|
  {
    if s != [] {
      assert forall i | 0 <= i < |s| - 1 :: s[..|s| - 1][i] == s[i];
      WeightSum(s[..|s| - 1], v, w, c);
    }
  }

  lemma {:induction false} WeightConstant<T>(s: seq<T>, w: T -> nat, c: nat)
    requires forall i | 0 <= i < |s| :: w(s[i]) == c
    ensures Weight(s, w) == c * |s|
  {
    if s != [] {
      assert forall i | 0 <= i < |s| - 1 :: s[..|s| - 1][i] == s[i];
      WeightConstant(s[..|s| - 1], w, c);
    }
  }

  /** The processes of weight one. */
  function Counted<T>(s: seq<T>, w: T -> nat): set<int> {
    set i | 0 <= i < |s| && w(s[i]) == 1
  }

  /** When all weights are zero or one, the sum is a count. */
  lemma {:induction false} WeightCounts<T>(s: seq<T>, w: T -> nat)
    requires forall i | 0 <= i < |s| :: w(s[i]) <= 1
    ensures Weight(s, w) == |Counted(s, w)|
  {
    if s == [] {
      assert Counted(s, w) == {};
    } else {
      var n := |s| - 1;
      assert forall i | 0 <= i < n :: s[..n][i] == s[i];
      WeightCounts(s[..n], w);
      assert Counted(s, w) == Counted(s[..n], w) + if w(s[n]) == 1 then {n} else {};
    }
  }
}
