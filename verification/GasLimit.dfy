/** The gas limit of the next block, from the limit and the gas used of its parent. The arithmetic is that
    of 64-bit unsigned integers, wrapping around. */
module GasLimit {
  import opened Common

  const TWO_64 := 0x1_0000_0000_0000_0000
  const BOUND_DIVISOR := 1024

  /** The largest limit for which nothing wraps around, whatever gas up to the limit is used. */
  const MAX_LIMIT := 0xAAAA_AAAA_AAAA_AAAA

  function Wrap(x: int): nat {
    x % TWO_64
  }

  lemma Unwrapped(x: nat)
    requires x < TWO_64
    ensures Wrap(x) == x
  {
  }

  function CalcGasLimit(used: nat, limit: nat, gasFloor: nat, gasCeil: nat): nat {
    var floor := if gasFloor > gasCeil then gasCeil else gasFloor;
    var contrib := Wrap(used + used / 2) / BOUND_DIVISOR;
    var decay := Wrap(limit / BOUND_DIVISOR - 1);
    var next := Wrap(Wrap(limit - decay) + contrib);
    if next < floor then
      var up := Wrap(limit + decay);
      if up > floor then floor else up
    else if next > gasCeil then
      var down := Wrap(limit - decay);
      if down < gasCeil then gasCeil else down
    else next
  }

  /** From 1024 up, as long as no sum reaches 2^64, the result is that of unbounded integers. */
  lemma NothingWraps(used: nat, limit: nat, gasFloor: nat, gasCeil: nat)
    requires 1024 <= limit && used + used / 2 < TWO_64 && limit + limit / 1024 - 1 < TWO_64
    requires limit - (limit / 1024 - 1) + (used + used / 2) / 1024 < TWO_64
    ensures var floor, decay := Min(gasFloor, gasCeil), limit / 1024 - 1;
            var next := limit - decay + (used + used / 2) / 1024;
            CalcGasLimit(used, limit, gasFloor, gasCeil) ==
            if next < floor then Min(limit + decay, floor)
            else if next > gasCeil then (if limit - decay < gasCeil then gasCeil else limit - decay)
            else next
  {
    hide Wrap;
    var decay, contrib := limit / 1024 - 1, (used + used / 2) / 1024;
    Unwrapped(used + used / 2);
    Unwrapped(decay);
    Unwrapped(limit - decay);
    Unwrapped(limit - decay + contrib);
    Unwrapped(limit + decay);
  }

  /** No gas used up to a limit makes a sum reach 2^64, exactly if the limit is at most the largest one. */
  lemma LargestLimit(limit: nat)
    requires 1024 <= limit
    ensures (forall used: nat | used <= limit ::
               && used + used / 2 < TWO_64 && limit + limit / 1024 - 1 < TWO_64
               && limit - (limit / 1024 - 1) + (used + used / 2) / 1024 < TWO_64) <==>
            limit <= MAX_LIMIT
  {
    if limit > MAX_LIMIT {
      assert limit + limit / 2 >= TWO_64;
    }
  }

  predicate InRange(limit: nat, gasFloor: nat, gasCeil: nat) {
    Min(gasFloor, gasCeil) <= limit <= gasCeil
  }

  /** How far a limit is from the range. */
  function Distance(limit: nat, gasFloor: nat, gasCeil: nat): nat {
    if limit < Min(gasFloor, gasCeil) then Min(gasFloor, gasCeil) - limit
    else if limit > gasCeil then limit - gasCeil
    else 0
  }

  /** A limit in the range stays in it; one outside moves strictly towards it, never past its far end. */
  lemma StepTowards(used: nat, limit: nat, gasFloor: nat, gasCeil: nat)
    requires 2048 <= Min(gasFloor, gasCeil) && gasCeil <= MAX_LIMIT
    requires used <= limit && 2048 <= limit <= MAX_LIMIT
    ensures var next := CalcGasLimit(used, limit, gasFloor, gasCeil);
            && 2048 <= next <= MAX_LIMIT
            && (InRange(limit, gasFloor, gasCeil) ==> InRange(next, gasFloor, gasCeil))
            && (limit < Min(gasFloor, gasCeil) ==> limit < next <= gasCeil)
            && (limit > gasCeil ==> Min(gasFloor, gasCeil) <= next < limit)
  {
    hide CalcGasLimit;
    LargestLimit(limit);
    NothingWraps(used, limit, gasFloor, gasCeil);
  }

  /** The limits and the gas used of consecutive blocks under a fixed floor and ceiling. */
  ghost predicate Chain(limits: seq<nat>, used: seq<nat>, gasFloor: nat, gasCeil: nat) {
    && |used| == |limits| > 0
    && (forall k | 0 <= k < |limits| :: used[k] <= limits[k])
    && (forall k | 0 < k < |limits| :: limits[k] == CalcGasLimit(used[k - 1], limits[k - 1], gasFloor, gasCeil))
  }

  /** Whatever gas the blocks use, the limit enters the range within its distance from it, in blocks, and
      never leaves. */
  lemma {:induction false} Absorbed(limits: seq<nat>, used: seq<nat>, gasFloor: nat, gasCeil: nat, k: nat)
    requires Chain(limits, used, gasFloor, gasCeil) && k < |limits|
    requires 2048 <= Min(gasFloor, gasCeil) && gasCeil <= MAX_LIMIT && 2048 <= limits[0] <= MAX_LIMIT
    ensures 2048 <= limits[k] <= MAX_LIMIT
    ensures InRange(limits[k], gasFloor, gasCeil) ||
            Distance(limits[k], gasFloor, gasCeil) + k <= Distance(limits[0], gasFloor, gasCeil)
    ensures k >= Distance(limits[0], gasFloor, gasCeil) ==> InRange(limits[k], gasFloor, gasCeil)
    decreases k
  {
    hide CalcGasLimit;
    if k > 0 {
      Absorbed(limits, used, gasFloor, gasCeil, k - 1);
      StepTowards(used[k - 1], limits[k - 1], gasFloor, gasCeil);
    }
  }

  ghost predicate StepBounded(used: nat, limit: nat, gasFloor: nat, gasCeil: nat) {
    var next := CalcGasLimit(used, limit, gasFloor, gasCeil);
    next <= limit + limit / 1024 && limit <= next + limit / 1024
  }

  /** Whatever gas is used and whatever the range, one block changes the limit by at most a 1024th of it,
      exactly if the limit is below 2731 or at least 3072. */
  lemma StepBoundedIff(limit: nat)
    requires 2048 <= limit <= MAX_LIMIT
    ensures (forall used: nat, gasFloor: nat, gasCeil: nat
               | used <= limit && 2048 <= Min(gasFloor, gasCeil) && gasCeil <= MAX_LIMIT ::
               StepBounded(used, limit, gasFloor, gasCeil)) <==>
            limit < 2731 || limit >= 3072
  {
    hide CalcGasLimit;
    if limit < 2731 || limit >= 3072 {
      forall used: nat, gasFloor: nat, gasCeil: nat
        | used <= limit && 2048 <= Min(gasFloor, gasCeil) && gasCeil <= MAX_LIMIT
        ensures StepBounded(used, limit, gasFloor, gasCeil)
      {
        SmallStep(used, limit, gasFloor, gasCeil);
      }
    } else {
      LargestLimit(limit);
      NothingWraps(limit, limit, 2048, MAX_LIMIT);
      assert !StepBounded(limit, limit, 2048, MAX_LIMIT);
    }
  }

  lemma SmallStep(used: nat, limit: nat, gasFloor: nat, gasCeil: nat)
    requires used <= limit && 2048 <= Min(gasFloor, gasCeil) && gasCeil <= MAX_LIMIT
    requires 2048 <= limit < 2731 || 3072 <= limit <= MAX_LIMIT
    ensures StepBounded(used, limit, gasFloor, gasCeil)
  {
    hide CalcGasLimit;
    LargestLimit(limit);
    NothingWraps(used, limit, gasFloor, gasCeil);
    assert (used + used / 2) / 1024 - (limit / 1024 - 1) <= limit / 1024;
  }
}
