/** Quorums of validators, numbered 0 to n - 1. */
module Quorum {
  /** The votes a certificate needs: all but the faulty ones that are allowed for. */
  function Threshold(n: nat): nat {
    n - MaxFaulty(n)
  }

  /** Division truncates towards zero, so that this is 0 for no validators. */
  function MaxFaulty(n: nat): (f: nat)
    ensures f <= n
  {
    if n == 0 then 0 else (n - 1) / 3
  }

  predicate Validators(s: set<nat>, n: nat) {
    forall i | i in s :: i < n
  }

  lemma {:induction false} ValidatorsBound(s: set<nat>, n: nat)
    requires Validators(s, n)
    ensures |s| <= n
    decreases n
  {
    if n == 0 {
      assert s == {};
    } else if n - 1 in s {
      ValidatorsBound(s - {n - 1}, n - 1);
    } else {
      ValidatorsBound(s, n - 1);
    }
  }

  /** Any two quorums share a validator that is not faulty. */
  lemma HonestInBoth(n: nat, a: set<nat>, b: set<nat>, faulty: set<nat>) returns (i: nat)
    requires n >= 1 && Validators(a, n) && Validators(b, n)
    requires |a| >= Threshold(n) && |b| >= Threshold(n) && |faulty| <= MaxFaulty(n)
    ensures i in a && i in b && i !in faulty
  {
    ValidatorsBound(a + b, n);
    assert |a + b| + |a * b| == |a| + |b|;
    assert |a * b| > |faulty|;
    if a * b <= faulty {
      SubsetSmaller(a * b, faulty);
      assert false;
    }
    i :| i in a * b && i !in faulty;
  }

  lemma SubsetSmaller(a: set<nat>, b: set<nat>)
    requires a <= b
    ensures |a| <= |b|
  {
    assert |b - a| + |b * a| == |b|;
    assert b * a == a;
  }

  /** Two sets of validators, each one vote short of the threshold at most, whose common members may all
      be faulty. */
  ghost predicate Splits(n: nat, a: set<nat>, b: set<nat>, faulty: set<nat>)
    requires n >= 1
  {
    && Validators(a, n) && Validators(b, n) && |a| >= Threshold(n) - 1 && |b| >= Threshold(n) - 1
    && |faulty| <= MaxFaulty(n) && a * b <= faulty
  }

  /** One vote less than the threshold would not do, exactly if n is not a multiple of 3. */
  lemma ThresholdTight(n: nat)
    requires n >= 1
    ensures (exists a, b, faulty :: Splits(n, a, b, faulty)) <==> n % 3 != 0
  {
    if n % 3 != 0 {
      SplitExists(n);
    } else if a: set<nat>, b: set<nat>, faulty: set<nat> :| Splits(n, a, b, faulty) {
      ValidatorsBound(a + b, n);
      assert |a + b| + |a * b| == |a| + |b|;
      SubsetSmaller(a * b, faulty);
      assert false;
    }
  }

  lemma SplitExists(n: nat)
    requires n >= 1 && n % 3 != 0
    ensures exists a, b, faulty :: Splits(n, a, b, faulty)
  {
    var q := Threshold(n) - 1;
    var a, b, faulty := Range(0, q), Range(n - q, n), Range(n - q, q);
    assert a * b == faulty;
    assert |faulty| <= MaxFaulty(n);
    assert Splits(n, a, b, faulty);
  }

  ghost function Range(lo: nat, hi: nat): (r: set<nat>)
    ensures forall i :: i in r <==> lo <= i < hi
    ensures |r| == if lo <= hi then hi - lo else 0
  {
    if lo < hi then Range(lo, hi - 1) + {hi - 1} else {}
  }
}
