/** Sums of a weight over a sequence: what the counting invariants and the
    termination measures of the state machines are made of. */
module Sums {

  function Sum<T>(weight: T -> nat, s: seq<T>): nat {
    if s == [] then 0 else weight(s[0]) + Sum(weight, s[1..])
  }

  /** Changing one element changes the sum by the difference of the weights. */
  lemma {:induction false} SumUpdate<T>(weight: T -> nat, s: seq<T>, i: nat, x: T)
    requires i < |s|
    ensures Sum(weight, s[i := x]) + weight(s[i]) == Sum(weight, s) + weight(x)
  {
    if i == 0 {
      assert s[i := x][1..] == s[1..];
    } else {
      assert s[i := x][1..] == s[1..][i - 1 := x];
      SumUpdate(weight, s[1..], i - 1, x);
    }
  }

  /** Terms that are all bounded by a constant sum to at most that many times it. */
  lemma {:induction false} SumBounded<T>(weight: T -> nat, s: seq<T>, bound: nat)
    requires forall i :: 0 <= i < |s| ==> weight(s[i]) <= bound
    ensures Sum(weight, s) <= bound * |s|
  {
    if s != [] {
      assert forall i :: 0 <= i < |s[1..]| ==> s[1..][i] == s[i + 1];
      SumBounded(weight, s[1..], bound);
      assert bound * |s| == bound + bound * |s[1..]|;
    }
  }

  /** If every term weighs nothing, so does the sum. */
  lemma {:induction false} SumZero<T>(weight: T -> nat, s: seq<T>)
    requires forall i :: 0 <= i < |s| ==> weight(s[i]) == 0
    ensures Sum(weight, s) == 0
  {
    SumBounded(weight, s, 0);
  }

  /** Term by term growth, up to a constant per term, carries over to the sums. */
  lemma {:induction false} SumGrowth<T>(weight: T -> nat, s: seq<T>, t: seq<T>, slack: nat)
    requires |s| == |t|
    requires forall i :: 0 <= i < |s| ==> weight(t[i]) <= weight(s[i]) + slack
    ensures Sum(weight, t) <= Sum(weight, s) + slack * |s|
  {
    if s != [] {
      assert forall i :: 0 <= i < |s[1..]| ==> s[1..][i] == s[i + 1] && t[1..][i] == t[i + 1];
      SumGrowth(weight, s[1..], t[1..], slack);
      assert slack * |s| == slack + slack * |s[1..]|;
    }
  }
}
