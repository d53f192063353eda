/** The gas limit a miner sets from the parent block, in 64-bit arithmetic. */
module GasLimit {
  import opened Types

  const BOUND_DIVISOR := 1024
  const MIN_GAS_LIMIT := 5000

  function CalcGasLimit(used: nat, parent: nat, floor: nat, ceil: nat): (limit: nat)
  {
    var contrib: int := (used + used / 2) % U64 / BOUND_DIVISOR;
    var decay := (parent / BOUND_DIVISOR - 1) % U64;
    var moved := (parent - decay + contrib) % U64;
    var limit: nat := if moved < MIN_GAS_LIMIT then MIN_GAS_LIMIT else moved;
    if limit < floor then
      var up := (parent + decay) % U64;
      if up > floor then floor else up
    else if limit > ceil then
      var down := (parent - decay) % U64;
      if down < ceil then ceil else down
    else limit
  }

  /** One and a half times the value stays below 64 bits, and so does everything computed from
      it. Headers are limited to 63 bits. */
  predicate Fits(x: nat) {
    x + x / 2 < U64
  }

  const SMALLEST := 5120

  /** Section 4.3.4 of the Yellow Paper: the limit moves by less than a 1024th of the parent's,
      whatever the usage and the miner's range. */
  lemma MovesLittle(used: nat, parent: nat, floor: nat, ceil: nat)
    requires used <= parent && Fits(parent) && parent >= SMALLEST
    ensures Distance(CalcGasLimit(used, parent, floor, ceil), parent) <= parent / BOUND_DIVISOR - 1
  {
    NoWrap(used, parent);
  }

  /** Without wrap-around: the three candidates for the next limit. */
  lemma NoWrap(used: nat, parent: nat)
    requires used <= parent && Fits(parent) && parent >= SMALLEST
    ensures (used + used / 2) % U64 == used + used / 2
    ensures (parent / BOUND_DIVISOR - 1) % U64 == parent / BOUND_DIVISOR - 1
    ensures (used + used / 2) / BOUND_DIVISOR <= 2 * (parent / BOUND_DIVISOR - 1)
    ensures forall x :: parent - parent / BOUND_DIVISOR <= x <= parent + parent / BOUND_DIVISOR ==> x % U64 == x
    ensures parent - parent / BOUND_DIVISOR + 1 >= MIN_GAS_LIMIT
  {}

  /** What the strategy aims at: the limit grows with usage. Within the miner's range it rises
      exactly when one and a half times the gas used, in 1024ths, reaches the parent's limit. */
  lemma FollowsUsage(used: nat, parent: nat, floor: nat, ceil: nat)
    requires used <= parent && Fits(parent) && parent >= SMALLEST && floor <= parent <= ceil
    ensures var next := CalcGasLimit(used, parent, floor, ceil);
            floor < next < ceil ==>
              && next - parent == (used + used / 2) / BOUND_DIVISOR - (parent / BOUND_DIVISOR - 1)
              && (next > parent <==> (used + used / 2) / BOUND_DIVISOR >= parent / BOUND_DIVISOR)
    ensures 3 * used >= 2 * parent + 2 && parent < ceil ==> CalcGasLimit(used, parent, floor, ceil) > parent
    ensures 3 * used + 2 * BOUND_DIVISOR <= 2 * parent ==> CalcGasLimit(used, parent, floor, ceil) <= parent
  {
    NoWrap(used, parent);
    assert 3 * used >= 2 * parent + 2 ==> used + used / 2 >= parent;
    assert 3 * used + 2 * BOUND_DIVISOR <= 2 * parent ==> used + used / 2 + BOUND_DIVISOR <= parent;
  }

  lemma MoreForMore(used: nat, more: nat, parent: nat, floor: nat, ceil: nat)
    requires used <= more <= parent && Fits(parent) && parent >= SMALLEST && floor <= ceil
    ensures CalcGasLimit(used, parent, floor, ceil) <= CalcGasLimit(more, parent, floor, ceil)
  {
    NoWrap(used, parent);
    NoWrap(more, parent);
  }

  /** Below that size a full parent breaks the bound: the step up is too long, the least
      limit is too far, or there is no step to speak of. */
  lemma TooSmall(parent: nat)
    requires parent < SMALLEST
    ensures Distance(CalcGasLimit(parent, parent, 0, U64 - 1), parent) > parent / BOUND_DIVISOR - 1
  {
    var contrib, step := (parent + parent / 2) / BOUND_DIVISOR, parent / BOUND_DIVISOR;
    assert (parent + parent / 2) % U64 == parent + parent / 2;
    assert 0 <= step <= 4 && 0 <= contrib <= 7;
    if step > 0 {
      assert (step - 1) % U64 == step - 1;
      assert (parent - (step - 1) + contrib) % U64 == parent - (step - 1) + contrib;
      assert step == 4 ==> contrib >= 6;
      assert parent >= MIN_GAS_LIMIT ==> contrib == 7;
    }
  }

  ghost predicate InRange(limit: nat, floor: nat, ceil: nat) {
    floor <= limit <= ceil
  }

  /** How far the limit is from the miner's range. */
  function Off(limit: nat, floor: nat, ceil: nat): nat {
    if limit < floor then floor - limit else if limit > ceil then limit - ceil else 0
  }

  /** Each block brings the limit closer by the full step, or into the range. */
  lemma Approaches(used: nat, parent: nat, floor: nat, ceil: nat)
    requires used <= parent && Fits(parent) && Fits(ceil) && parent >= SMALLEST && SMALLEST <= floor <= ceil
    ensures var next := CalcGasLimit(used, parent, floor, ceil);
            && SMALLEST <= next && (next <= parent || next <= ceil)
            && Off(next, floor, ceil) <= (if Off(parent, floor, ceil) < parent / BOUND_DIVISOR - 1 then 0
                                          else Off(parent, floor, ceil) - (parent / BOUND_DIVISOR - 1))
  {
    NoWrap(used, parent);
  }

  /** The limit after a run of blocks with the given usages, each at most its block's limit. */
  function After(parent: nat, usages: seq<nat>, floor: nat, ceil: nat): nat {
    if usages == [] then parent
    else
      var last := After(parent, usages[..|usages| - 1], floor, ceil);
      var u := usages[|usages| - 1];
      CalcGasLimit(if u < last then u else last, last, floor, ceil)
  }

  /** Under any usage the limit reaches the range after at most as many blocks as it is units
      away. */
  lemma {:induction false} Converges(parent: nat, usages: seq<nat>, floor: nat, ceil: nat)
    requires Fits(parent) && Fits(ceil) && parent >= SMALLEST && SMALLEST <= floor <= ceil
    ensures After(parent, usages, floor, ceil) >= SMALLEST && Fits(After(parent, usages, floor, ceil))
    ensures Off(After(parent, usages, floor, ceil), floor, ceil) + |usages| <= Off(parent, floor, ceil)
            || InRange(After(parent, usages, floor, ceil), floor, ceil)
  {
    hide CalcGasLimit;
    if usages != [] {
      var front := usages[..|usages| - 1];
      Converges(parent, front, floor, ceil);
      var last, u := After(parent, front, floor, ceil), usages[|usages| - 1];
      Approaches(if u < last then u else last, last, floor, ceil);
    }
  }

  /** Once in the range, the limit never leaves it. */
  lemma {:induction false} Stays(parent: nat, usages: seq<nat>, floor: nat, ceil: nat)
    requires Fits(parent) && Fits(ceil) && SMALLEST <= floor && InRange(parent, floor, ceil)
    ensures InRange(After(parent, usages, floor, ceil), floor, ceil)
  {
    Converges(parent, usages, floor, ceil);
  }
}
