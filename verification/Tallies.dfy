/** Totals of a natural-valued measure over a sequence. */
module Tallies {

  function Sum<T>(s: seq<T>, f: T -> nat): nat {
    if s == [] then 0 else Sum(s[..|s| - 1], f) + f(s[|s| - 1])
  }

  lemma {:induction false} SumOfUpdate<T>(s: seq<T>, i: nat, x: T, f: T -> nat)
    requires i < |s|
    ensures Sum(s[i := x], f) + f(s[i]) == Sum(s, f) + f(x)
  {
    var n := |s| - 1;
    if i < n {
      SumOfUpdate(s[..n], i, x, f);
      assert s[i := x][..n] == s[..n][i := x];
    } else {
      assert s[i := x][..n] == s[..n];
    }
  }

  lemma {:induction false} SumAtLeast<T>(s: seq<T>, i: nat, f: T -> nat)
    requires i < |s|
    ensures Sum(s, f) >= f(s[i])
  {
    var n := |s| - 1;
    if i < n {
      SumAtLeast(s[..n], i, f);
    }
  }

  lemma {:induction false} SumOfConstant<T>(s: seq<T>, c: nat, f: T -> nat)
    requires forall i :: 0 <= i < |s| ==> f(s[i]) == c
    ensures Sum(s, f) == c * |s|
  {
    if s != [] {
      SumOfConstant(s[..|s| - 1], c, f);
    }
  }

  /** A measure nowhere larger and somewhere smaller has a smaller total. */
  lemma {:induction false} SumShrinks<T>(s: seq<T>, i: nat, f: T -> nat, g: T -> nat)
    requires forall j :: 0 <= j < |s| ==> f(s[j]) <= g(s[j])
    ensures Sum(s, f) <= Sum(s, g)
    ensures i < |s| && f(s[i]) < g(s[i]) ==> Sum(s, f) < Sum(s, g)
  {
    if s != [] {
      var n := |s| - 1;
      SumShrinks(s[..n], i, f, g);
    }
  }
}
