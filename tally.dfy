/**
 * Weighted counts over sequences, and the small sequence helpers both job
 * variants share. The jobs keep their accounting invariants (how many
 * participants are applying, have exhausted the work, how many applications
 * have happened) as totals of this kind, and every atomic step changes one
 * entry of the counted sequence. `Min` bounds the counters, and `Mapped` is
 * the end result both jobs promise: every element updated by `func` once.
 */
module Tally {

  /** The sum of the weights `w` gives to the elements of `s`. */
  function Total<X>(s: seq<X>, w: X -> nat): nat
  {
    if s == [] then 0 else w(s[0]) + Total(s[1..], w)
  }

  /** The weight of a counter: its own value. */
  function Identity(n: nat): nat
  {
    n
  }

  function Min(a: int, b: int): int
  {
    if a <= b then a else b
  }

  /** `f` applied to every element of `s`, in place and in order. */
  function Mapped<T>(f: T -> T, s: seq<T>): seq<T>
  {
    seq(|s|, i requires 0 <= i < |s| => f(s[i]))
  }

  /** Replacing one element changes the total by the difference of the two weights. */
  lemma {:induction false} TotalUpdate<X>(s: seq<X>, i: nat, x: X, w: X -> nat)
    requires i < |s|
    ensures Total(s[i := x], w) + w(s[i]) == Total(s, w) + w(x)
  {
    if i == 0 {
      assert s[i := x][1..] == s[1..];
    } else {
      assert s[i := x][1..] == s[1..][i - 1 := x];
      TotalUpdate(s[1..], i - 1, x, w);
    }
  }

  /**
   * Two indicator weights that never both hold of one element count at most
   * one element each between them.
   */
  lemma {:induction false} TotalDisjoint<X>(s: seq<X>, w1: X -> nat, w2: X -> nat)
    requires forall i :: 0 <= i < |s| ==> w1(s[i]) + w2(s[i]) <= 1
    ensures Total(s, w1) + Total(s, w2) <= |s|
  {
    if s != [] {
      assert forall i :: 0 <= i < |s| - 1 ==> s[1..][i] == s[i + 1];
      TotalDisjoint(s[1..], w1, w2);
    }
  }

  /** An indicator weight counts at most every element. */
  lemma {:induction false} TotalBound<X>(s: seq<X>, w: X -> nat)
    requires forall i :: 0 <= i < |s| ==> w(s[i]) <= 1
    ensures Total(s, w) <= |s|
  {
    if s != [] {
      assert forall i :: 0 <= i < |s| - 1 ==> s[1..][i] == s[i + 1];
      TotalBound(s[1..], w);
    }
  }

  /** An indicator weight counts every element exactly when it holds of every element. */
  lemma {:induction false} TotalFullIff<X>(s: seq<X>, w: X -> nat)
    requires forall i :: 0 <= i < |s| ==> w(s[i]) <= 1
    ensures Total(s, w) == |s| <==> forall i :: 0 <= i < |s| ==> w(s[i]) == 1
  {
    if s != [] {
      assert forall i :: 0 <= i < |s| - 1 ==> s[1..][i] == s[i + 1];
      TotalBound(s[1..], w);
      TotalFullIff(s[1..], w);
      if forall i :: 0 <= i < |s| ==> w(s[i]) == 1 {
        assert forall i :: 0 <= i < |s| - 1 ==> w(s[1..][i]) == 1;
      }
      if Total(s, w) == |s| {
        assert forall i :: 1 <= i < |s| ==> w(s[i]) == w(s[1..][i - 1]);
      }
    }
  }

  /** The total is zero exactly when every element weighs nothing. */
  lemma {:induction false} TotalZeroIff<X>(s: seq<X>, w: X -> nat)
    ensures Total(s, w) == 0 <==> forall i :: 0 <= i < |s| ==> w(s[i]) == 0
  {
    if s != [] {
      assert forall i :: 0 <= i < |s| - 1 ==> s[1..][i] == s[i + 1];
      TotalZeroIff(s[1..], w);
      if Total(s, w) == 0 {
        assert forall i :: 1 <= i < |s| ==> w(s[i]) == w(s[1..][i - 1]);
      }
    }
  }
}
