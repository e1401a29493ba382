/** Proposer rotation: the proposer of a block number moves on by one with every block and with every ten
    views. The arithmetic is that of 64-bit unsigned integers. */
module Proposer {
  const TWO_64: nat := 0x1_0000_0000_0000_0000

  /** The proposer at `number` and `view` among `n` validators; at number 0 the subtraction wraps. */
  function CurrentProposer(number: nat, view: nat, n: nat): (i: nat)
    requires number < TWO_64 && view < TWO_64 && n >= 1
    ensures i < n
  {
    var before := if number == 0 then TWO_64 - 1 else number - 1;
    (before + view / 10) % TWO_64 % n
  }

  /** Whether validator `i` may propose block `number`; the genesis is the first validator's. */
  predicate IsProposer(number: nat, view: nat, n: nat, i: nat)
    requires number < TWO_64 && view < TWO_64 && n >= 1
  {
    i == if number > 0 then CurrentProposer(number, view, n) else 0
  }

  /** The two proposer formulas name the same validator, except at the genesis, where they do only if the
      wrapped subtraction happens to. */
  lemma FormulasAgreeIff(number: nat, view: nat, n: nat)
    requires number < TWO_64 && view < TWO_64 && n >= 1
    ensures (forall i: nat :: IsProposer(number, view, n, i) <==> i == CurrentProposer(number, view, n)) <==>
            number > 0 || (TWO_64 - 1 + view / 10) % TWO_64 % n == 0
    ensures CurrentProposer(0, 0, 2) == 1 && IsProposer(0, 0, 2, 0)
  {
    assert IsProposer(number, view, n, 0) || number > 0;
  }

  /** The first block is the first validator's for the first ten views. The turn moves on to the next validator, the
      last one being followed by the first, with every block and with every ten views, unless the 64-bit sum
      wraps around. */
  lemma TurnMovesOn(number: nat, view: nat, n: nat)
    requires 1 <= number < TWO_64 - 1 && view < TWO_64 && n >= 1 && number + view / 10 < TWO_64
    ensures number == 1 && view < 10 ==> CurrentProposer(number, view, n) == 0
    ensures var i := CurrentProposer(number, view, n);
            var next := if i + 1 == n then 0 else i + 1;
            && CurrentProposer(number + 1, view, n) == next
            && (view + 10 < TWO_64 ==> CurrentProposer(number, view + 10, n) == next)
    ensures forall v: nat | v < TWO_64 && v / 10 == view / 10 ::
              CurrentProposer(number, v, n) == CurrentProposer(number, view, n)
  {
    hide CurrentProposer;
    Unwrapped(number, view, n);
    Unwrapped(number + 1, view, n);
    ModNext(number - 1 + view / 10, n);
    if view + 10 < TWO_64 {
      Unwrapped(number, view + 10, n);
      assert (view + 10) / 10 == view / 10 + 1;
    }
    forall v: nat | v < TWO_64 && v / 10 == view / 10
      ensures CurrentProposer(number, v, n) == CurrentProposer(number, view, n)
    {
      Unwrapped(number, v, n);
    }
  }

  lemma Unwrapped(number: nat, view: nat, n: nat)
    requires 1 <= number < TWO_64 && view < TWO_64 && n >= 1 && number - 1 + view / 10 < TWO_64
    ensures CurrentProposer(number, view, n) == (number - 1 + view / 10) % n
  {
  }

  lemma ModNext(x: nat, n: nat)
    requires n >= 1
    ensures (x + 1) % n == if x % n + 1 == n then 0 else x % n + 1
  {
    var d := (x + 1) / n - x / n;
    assert x == x / n * n + x % n;
    assert x + 1 == (x + 1) / n * n + (x + 1) % n;
    assert d * n == x % n + 1 - (x + 1) % n by {
      assert d * n == (x + 1) / n * n - x / n * n;
    }
    if x % n + 1 < n {
      NoMultiple(d, n);
    } else {
      MulAtLeast(d, n);
    }
  }

  /** How many of `f(lo), ..., f(lo + len - 1)` are `i`. */
  ghost function Turns(f: nat -> nat, lo: nat, len: nat, i: nat): nat {
    if len == 0 then 0 else Turns(f, lo, len - 1, i) + if f(lo + len - 1) == i then 1 else 0
  }

  lemma {:induction false} TurnsFirst(f: nat -> nat, lo: nat, len: nat, i: nat)
    requires len >= 1
    ensures Turns(f, lo, len, i) == (if f(lo) == i then 1 else 0) + Turns(f, lo + 1, len - 1, i)
    decreases len
  {
    if len > 1 {
      TurnsFirst(f, lo, len - 1, i);
      assert lo + len - 1 == lo + 1 + (len - 1) - 1;
    }
  }

  /** Any window of one period holds the same turns. */
  lemma {:induction false} TurnsShift(f: nat -> nat, p: nat, lo: nat, i: nat)
    requires p >= 1 && forall v: nat :: f(v + p) == f(v)
    ensures Turns(f, lo, p, i) == Turns(f, 0, p, i)
    decreases lo
  {
    if lo > 0 {
      TurnsShift(f, p, lo - 1, i);
      TurnsFirst(f, lo - 1, p, i);
      assert f(lo - 1 + p) == f(lo - 1);
      assert lo + p - 1 == lo - 1 + p;
    }
  }

  ghost function Rotate(c: nat, n: nat): nat -> nat
    requires n >= 1
  {
    (k: nat) => (c + k) % n
  }

  ghost function Tens(f: nat -> nat): nat -> nat {
    (v: nat) => f(v / 10)
  }

  lemma RotatePeriod(c: nat, n: nat)
    requires n >= 1
    ensures forall k: nat :: Rotate(c, n)(k + n) == Rotate(c, n)(k)
  {
    forall k: nat
      ensures Rotate(c, n)(k + n) == Rotate(c, n)(k)
    {
      AddPeriod(c + k, n);
    }
  }

  lemma AddPeriod(x: nat, n: nat)
    requires n >= 1
    ensures (x + n) % n == x % n
  {
    var y := x + n;
    var d := y / n - x / n;
    assert x == x / n * n + x % n;
    assert y == y / n * n + y % n;
    assert (d - 1) * n == x % n - y % n by {
      assert d * n == y / n * n - x / n * n;
    }
    NoMultiple(d - 1, n);
  }

  lemma MulAtLeast(d: int, n: nat)
    ensures d >= 1 ==> d * n >= n
    ensures d <= -1 ==> d * n <= 0 - n
  {
    if d >= 1 {
      assert d * n == n + (d - 1) * n;
    } else if d <= -1 {
      assert d * n == (d + 1) * n - n;
    }
  }

  lemma NoMultiple(d: int, n: nat)
    requires 0 - n < d * n < n
    ensures d == 0
  {
    MulAtLeast(d, n);
  }

  /** From a multiple of `n` on, the rotation counts up. */
  lemma {:induction false} CountsUp(c: nat, n: nat, lo: nat, len: nat, i: nat)
    requires n >= 1 && len <= n && (c + lo) % n == 0
    ensures Turns(Rotate(c, n), lo, len, i) == if i < len then 1 else 0
    decreases len
  {
    if len > 0 {
      CountsUp(c, n, lo, len - 1, i);
      Offset(c + lo, len - 1, n);
      assert c + (lo + len - 1) == c + lo + (len - 1);
    }
  }

  lemma Offset(x: nat, j: nat, n: nat)
    requires n >= 1 && j < n && x % n == 0
    ensures (x + j) % n == j
  {
    var d := (x + j) / n - x / n;
    assert x == x / n * n;
    assert x + j == (x + j) / n * n + (x + j) % n;
    assert d * n == j - (x + j) % n by {
      assert d * n == (x + j) / n * n - x / n * n;
    }
    NoMultiple(d, n);
  }

  /** In `n` steps of the rotation everyone has exactly one turn. */
  lemma OneTurnEach(c: nat, n: nat, lo: nat, i: nat)
    requires n >= 1 && i < n
    ensures Turns(Rotate(c, n), lo, n, i) == 1
  {
    var start := n - c % n;
    assert (c + start) % n == 0 by {
      assert c + start == (c - c % n) + n;
      assert (c - c % n) % n == 0 by {
        assert c - c % n == c / n * n;
        MultipleModulo(c / n, n);
      }
      AddPeriod(c - c % n, n);
    }
    CountsUp(c, n, start, n, i);
    RotatePeriod(c, n);
    TurnsShift(Rotate(c, n), n, start, i);
    TurnsShift(Rotate(c, n), n, lo, i);
  }

  lemma MultipleModulo(q: nat, n: nat)
    requires n >= 1
    ensures (q * n) % n == 0
  {
    var x := q * n;
    assert x == x / n * n + x % n;
    assert (q - x / n) * n == x % n;
    NoMultiple(q - x / n, n);
  }

  /** Ten views for each step of the rotation. */
  lemma {:induction false} TenTurns(f: nat -> nat, m: nat, i: nat)
    ensures Turns(Tens(f), 0, 10 * m, i) == 10 * Turns(f, 0, m, i)
    decreases m
  {
    if m > 0 {
      TenTurns(f, m - 1, i);
      TenMore(f, m - 1, 10, i);
    }
  }

  lemma {:induction false} TenMore(f: nat -> nat, m: nat, j: nat, i: nat)
    requires j <= 10
    ensures Turns(Tens(f), 0, 10 * m + j, i) == Turns(Tens(f), 0, 10 * m, i) + if f(m) == i then j else 0
    decreases j
  {
    if j > 0 {
      TenMore(f, m, j - 1, i);
      assert (10 * m + j - 1) / 10 == m;
    }
  }

  /** The proposer as views pass at a block number. */
  ghost function AtNumber(number: nat, n: nat): nat -> nat
    requires number < TWO_64 && n >= 1
  {
    (view: nat) => if view < TWO_64 then CurrentProposer(number, view, n) else 0
  }

  /** The proposer as block numbers pass at a view. */
  ghost function AtView(view: nat, n: nat): nat -> nat
    requires view < TWO_64 && n >= 1
  {
    (number: nat) => if number < TWO_64 then CurrentProposer(number, view, n) else 0
  }

  lemma {:induction false} TurnsAgree(f: nat -> nat, g: nat -> nat, lo: nat, len: nat, i: nat)
    requires forall v: nat | lo <= v < lo + len :: f(v) == g(v)
    ensures Turns(f, lo, len, i) == Turns(g, lo, len, i)
    decreases len
  {
    if len > 0 {
      TurnsAgree(f, g, lo, len - 1, i);
    }
  }

  lemma TensPeriod(f: nat -> nat, p: nat)
    requires forall k: nat :: f(k + p) == f(k)
    ensures forall v: nat :: Tens(f)(v + 10 * p) == Tens(f)(v)
  {
    forall v: nat
      ensures Tens(f)(v + 10 * p) == Tens(f)(v)
    {
      assert (v + 10 * p) / 10 == v / 10 + p;
    }
  }

  // ----- Windows in which the sum may wrap around

  /** A sum taken in 64 bits, then among `n` validators. */
  function Wrapped(x: nat, n: nat): nat
    requires n >= 1
  {
    x % TWO_64 % n
  }

  /** The validator at view `v`, the rotation standing at `c` at view 0. */
  ghost function Spread(c: nat, n: nat): nat -> nat
    requires n >= 1
  {
    (v: nat) => Wrapped(c + v / 10, n)
  }

  /** Each of `n` validators has exactly `turns` turns in the window. */
  ghost predicate Fair(f: nat -> nat, lo: nat, len: nat, n: nat, turns: nat) {
    forall i: nat | i < n :: Turns(f, lo, len, i) == turns
  }

  /** Some sum in the window of 10 n views is below 2^64 and some is not. */
  predicate Straddles(c: nat, n: nat, lo: nat)
    requires n >= 1
  {
    c + lo / 10 < TWO_64 <= c + (lo + 10 * n - 1) / 10
  }

  lemma WrappedBelow(x: nat, n: nat)
    requires n >= 1 && x < 2 * TWO_64
    ensures Wrapped(x, n) == if x < TWO_64 then x % n else (x - TWO_64) % n
  {
    if x >= TWO_64 {
      assert x % TWO_64 == x - TWO_64;
    }
  }

  lemma {:induction false} PeriodOff(x: nat, k: nat, n: nat)
    requires n >= 1
    ensures (x + k * n) % n == x % n
    decreases k
  {
    if k > 0 {
      PeriodOff(x, k - 1, n);
      AddPeriod(x + (k - 1) * n, n);
      assert x + (k - 1) * n + n == x + k * n;
    }
  }

  /** Off the wrap, or where 2^64 is a multiple of `n`, the sums rotate. */
  lemma WrappedRotates(c: nat, n: nat, lo: nat) returns (c': nat)
    requires n >= 1 && c + (lo + 10 * n - 1) / 10 < 2 * TWO_64 && (!Straddles(c, n, lo) || TWO_64 % n == 0)
    ensures forall v: nat | lo <= v < lo + 10 * n :: Spread(c, n)(v) == Tens(Rotate(c', n))(v)
  {
    hide Wrapped;
    var below := TWO_64 % n == 0 || c + (lo + 10 * n - 1) / 10 < TWO_64;
    c' := if below then c else c + (n - 1) * TWO_64;
    forall v: nat | lo <= v < lo + 10 * n
      ensures Spread(c, n)(v) == Tens(Rotate(c', n))(v)
    {
      assert lo / 10 <= v / 10 <= (lo + 10 * n - 1) / 10;
      if below {
        RotatesBelow(c + v / 10, n);
      } else {
        RotatesAbove(c + v / 10, n);
      }
    }
  }

  lemma RotatesBelow(x: nat, n: nat)
    requires n >= 1 && x < 2 * TWO_64 && (x < TWO_64 || TWO_64 % n == 0)
    ensures Wrapped(x, n) == x % n
  {
    WrappedBelow(x, n);
    hide Wrapped;
    if x >= TWO_64 {
      PeriodOff(x - TWO_64, TWO_64 / n, n);
      assert TWO_64 / n * n == TWO_64;
    }
  }

  lemma RotatesAbove(x: nat, n: nat)
    requires n >= 1 && TWO_64 <= x < 2 * TWO_64
    ensures Wrapped(x, n) == (x + (n - 1) * TWO_64) % n
  {
    WrappedBelow(x, n);
    hide Wrapped;
    PeriodOff(x - TWO_64, TWO_64, n);
    assert x - TWO_64 + TWO_64 * n == x + (n - 1) * TWO_64;
  }

  lemma SpreadFair(c: nat, n: nat, lo: nat)
    requires n >= 1 && c + (lo + 10 * n - 1) / 10 < 2 * TWO_64 && (!Straddles(c, n, lo) || TWO_64 % n == 0)
    ensures Fair(Spread(c, n), lo, 10 * n, n, 10)
  {
    hide Turns, Tens, Rotate, Spread, Straddles;
    var c' := WrappedRotates(c, n, lo);
    var f := Rotate(c', n);
    forall i: nat | i < n
      ensures Turns(Spread(c, n), lo, 10 * n, i) == 10
    {
      TurnsAgree(Spread(c, n), Tens(f), lo, 10 * n, i);
      RotatePeriod(c', n);
      TensPeriod(f, n);
      TurnsShift(Tens(f), 10 * n, lo, i);
      TenTurns(f, n, i);
      OneTurnEach(c', n, 0, i);
    }
  }

  lemma {:induction false} TurnsSplit(f: nat -> nat, lo: nat, a: nat, b: nat, i: nat)
    ensures Turns(f, lo, a + b, i) == Turns(f, lo, a, i) + Turns(f, lo + a, b, i)
    decreases b
  {
    if b > 0 {
      TurnsSplit(f, lo, a, b - 1, i);
      assert lo + (a + b) - 1 == lo + a + b - 1;
    }
  }

  lemma {:induction false} TurnsNone(f: nat -> nat, lo: nat, len: nat, i: nat)
    requires forall v: nat | lo <= v < lo + len :: f(v) != i
    ensures Turns(f, lo, len, i) == 0
    decreases len
  {
    if len > 0 {
      TurnsNone(f, lo, len - 1, i);
    }
  }

  lemma {:induction false} TurnsAll(f: nat -> nat, lo: nat, len: nat, i: nat)
    requires forall v: nat | lo <= v < lo + len :: f(v) == i
    ensures Turns(f, lo, len, i) == len
    decreases len
  {
    if len > 0 {
      TurnsAll(f, lo, len - 1, i);
    }
  }

  lemma {:induction false} TurnsAtMost(f: nat -> nat, lo: nat, len: nat, i: nat)
    ensures Turns(f, lo, len, i) <= len
    decreases len
  {
    if len > 0 {
      TurnsAtMost(f, lo, len - 1, i);
    }
  }

  /** The sums after the wrap count up from 0 again. If they end before the residue of 2^64, the validator of
      that residue has fewer than ten turns: before the wrap it can only come with the first sum. */
  lemma MissesTurns(c: nat, n: nat, lo: nat)
    requires n >= 1 && c + (lo + 10 * n - 1) / 10 < 2 * TWO_64 && Straddles(c, n, lo) && TWO_64 % n != 0
    requires c + (lo + 10 * n - 1) / 10 - TWO_64 < TWO_64 % n
    ensures Turns(Spread(c, n), lo, 10 * n, TWO_64 % n) < 10
  {
    var i, m := TWO_64 % n, (if lo % 10 == 0 then 0 else 10 - lo % 10);
    forall v: nat | lo + m <= v < lo + m + (10 * n - m)
      ensures Spread(c, n)(v) != i
    {
      NotYet(c, n, lo, v);
    }
    hide Turns, Spread;
    TurnsNone(Spread(c, n), lo + m, 10 * n - m, i);
    TurnsAtMost(Spread(c, n), lo, m, i);
    TurnsSplit(Spread(c, n), lo, m, 10 * n - m, i);
  }

  lemma NotYet(c: nat, n: nat, lo: nat, v: nat)
    requires n >= 1 && c + (lo + 10 * n - 1) / 10 < 2 * TWO_64 && Straddles(c, n, lo) && TWO_64 % n != 0
    requires c + (lo + 10 * n - 1) / 10 - TWO_64 < TWO_64 % n
    requires lo <= v < lo + 10 * n && (lo % 10 == 0 || v >= lo + 10 - lo % 10)
    ensures Spread(c, n)(v) != TWO_64 % n
  {
    var x := c + v / 10;
    WrappedBelow(x, n);
    assert v / 10 <= (lo + 10 * n - 1) / 10;
    if x >= TWO_64 {
      Offset(0, x - TWO_64, n);
    } else {
      var d := TWO_64 - x;
      assert 0 < d < n;
      Differs(x, d, n);
      assert x + d == TWO_64;
    }
  }

  lemma Differs(x: nat, d: nat, n: nat)
    requires 0 < d < n
    ensures (x + d) % n != x % n
  {
    var q := (x + d) / n - x / n;
    assert x == x / n * n + x % n && x + d == (x + d) / n * n + (x + d) % n;
    assert q * n == (x + d) / n * n - x / n * n;
    if (x + d) % n == x % n {
      NoMultiple(q, n);
    }
  }

  /** Otherwise the validator before it has more than ten: all of one sum after the wrap, and the last sum
      before it. */
  lemma ExtraTurns(c: nat, n: nat, lo: nat)
    requires n >= 1 && c + (lo + 10 * n - 1) / 10 < 2 * TWO_64 && Straddles(c, n, lo) && TWO_64 % n != 0
    requires c + (lo + 10 * n - 1) / 10 - TWO_64 >= TWO_64 % n
    ensures Turns(Spread(c, n), lo, 10 * n, TWO_64 % n - 1) > 10
  {
    var i := TWO_64 % n - 1;
    var f := Spread(c, n);
    var p := 10 * (TWO_64 - 1 - c) + 9;
    var q := 10 * (TWO_64 + i - c);
    LastBeforeWrap(c, n, p, i);
    assert lo <= p < q && q + 10 <= lo + 10 * n;
    forall v: nat | q <= v < q + 10
      ensures f(v) == i
    {
      assert c + v / 10 == TWO_64 + i;
      WrappedBelow(TWO_64 + i, n);
      Offset(0, i, n);
    }
    hide Turns, Spread, Wrapped;
    OneAndTen(f, lo, 10 * n, p, q, i);
  }

  lemma OneAndTen(f: nat -> nat, lo: nat, len: nat, p: nat, q: nat, i: nat)
    requires lo <= p < q && q + 10 <= lo + len && f(p) == i && forall v: nat | q <= v < q + 10 :: f(v) == i
    ensures Turns(f, lo, len, i) > 10
  {
    hide Turns;
    TurnsAll(f, q, 10, i);
    TurnsAll(f, p, 1, i);
    TurnsSplit(f, lo, p - lo, len - (p - lo), i);
    TurnsSplit(f, p, 1, len - (p - lo) - 1, i);
    TurnsSplit(f, p + 1, q - p - 1, lo + len - q, i);
    TurnsSplit(f, q, 10, lo + len - q - 10, i);
  }

  lemma LastBeforeWrap(c: nat, n: nat, p: nat, i: nat)
    requires n >= 1 && c <= TWO_64 - 1 && p == 10 * (TWO_64 - 1 - c) + 9 && i == TWO_64 % n - 1 && i >= 0
    ensures Spread(c, n)(p) == i
  {
    assert c + p / 10 == TWO_64 - 1;
    WrappedBelow(TWO_64 - 1, n);
    assert (TWO_64 - 1) % n == TWO_64 % n - 1 by {
      PeriodOff(i, TWO_64 / n, n);
      assert TWO_64 == TWO_64 / n * n + TWO_64 % n;
      Offset(0, i, n);
    }
  }

  lemma SpreadFairIff(c: nat, n: nat, lo: nat)
    requires n >= 1 && c + (lo + 10 * n - 1) / 10 < 2 * TWO_64
    ensures Fair(Spread(c, n), lo, 10 * n, n, 10) <==> !Straddles(c, n, lo) || TWO_64 % n == 0
  {
    hide Turns, Spread;
    if !Straddles(c, n, lo) || TWO_64 % n == 0 {
      SpreadFair(c, n, lo);
    } else if c + (lo + 10 * n - 1) / 10 - TWO_64 < TWO_64 % n {
      MissesTurns(c, n, lo);
    } else {
      ExtraTurns(c, n, lo);
    }
  }

  /** At a fixed block number, any 10 n consecutive views give each of n validators exactly ten turns, if and
      only if the 64-bit sum does not wrap around within them or n divides 2^64. */
  lemma ViewsFairIff(number: nat, n: nat, view: nat)
    requires number < TWO_64 && n >= 1 && view + 10 * n <= TWO_64
    ensures var before := if number == 0 then TWO_64 - 1 else number - 1;
            Fair(AtNumber(number, n), view, 10 * n, n, 10) <==> !Straddles(before, n, view) || TWO_64 % n == 0
  {
    var before := if number == 0 then TWO_64 - 1 else number - 1;
    forall i: nat | i < n
      ensures Turns(AtNumber(number, n), view, 10 * n, i) == Turns(Spread(before, n), view, 10 * n, i)
    {
      TurnsAgree(AtNumber(number, n), Spread(before, n), view, 10 * n, i);
    }
    hide Turns, Spread;
    SpreadFairIff(before, n, view);
  }

  /** At a fixed view, any n consecutive block numbers give each of n validators exactly one turn, under the
      same condition. */
  lemma NumbersFairIff(number: nat, n: nat, view: nat)
    requires 1 <= number && n >= 1 && view < TWO_64 && number + n <= TWO_64
    ensures Fair(AtView(view, n), number, n, n, 1) <==>
            !(number - 1 + view / 10 < TWO_64 <= number - 1 + view / 10 + n - 1) || TWO_64 % n == 0
  {
    var lo := 10 * (number - 1);
    forall v: nat | lo <= v < lo + 10 * n
      ensures Spread(view / 10, n)(v) == AtView(view, n)(v / 10 + 1)
    {
      assert view / 10 + v / 10 == v / 10 + 1 - 1 + view / 10;
    }
    hide Turns, Spread, AtView;
    forall i: nat | i < n
      ensures Turns(Spread(view / 10, n), lo, 10 * n, i) == 10 * Turns(AtView(view, n), number, n, i)
    {
      TenEach(AtView(view, n), Spread(view / 10, n), number, n, i);
    }
    SpreadFairIff(view / 10, n, lo);
    assert lo / 10 == number - 1 && (lo + 10 * n - 1) / 10 == number - 1 + n - 1;
  }

  /** Ten times the turns of `f`, if `g` repeats each of its values ten times from one lower on. */
  lemma {:induction false} TenEach(f: nat -> nat, g: nat -> nat, number: nat, len: nat, i: nat)
    requires number >= 1
    requires forall v: nat | 10 * (number - 1) <= v < 10 * (number - 1) + 10 * len :: g(v) == f(v / 10 + 1)
    ensures Turns(g, 10 * (number - 1), 10 * len, i) == 10 * Turns(f, number, len, i)
    decreases len
  {
    hide Turns;
    if len > 0 {
      TenEach(f, g, number, len - 1, i);
      var b := number + len - 1;
      TurnsSplit(g, 10 * (number - 1), 10 * (len - 1), 10, i);
      TenAlike(f, g, b, i);
      TurnsSplit(f, number, len - 1, 1, i);
      OneTurn(f, b, i);
    } else {
      TurnsNone(f, number, 0, i);
      TurnsNone(g, 10 * (number - 1), 0, i);
    }
  }

  lemma OneTurn(f: nat -> nat, b: nat, i: nat)
    ensures Turns(f, b, 1, i) == if f(b) == i then 1 else 0
  {
  }

  lemma TenAlike(f: nat -> nat, g: nat -> nat, b: nat, i: nat)
    requires b >= 1 && forall v: nat | 10 * (b - 1) <= v < 10 * b :: g(v) == f(v / 10 + 1)
    ensures Turns(g, 10 * (b - 1), 10, i) == if f(b) == i then 10 else 0
  {
    hide Turns;
    forall v: nat | 10 * (b - 1) <= v < 10 * b
      ensures g(v) == f(b)
    {
      assert v / 10 + 1 == b;
    }
    if f(b) == i {
      TurnsAll(g, 10 * (b - 1), 10, i);
    } else {
      TurnsNone(g, 10 * (b - 1), 10, i);
    }
  }
}
