/**
 * A user's progression: the click counter, the per-click value bought with
 * items, the prestige multiplier and the personal best, together with the
 * reset-cost formula and the two operations that change a progression in
 * place (a click and a reset).
 */
module Progressions {
  import opened Models

  /** The fields of one progression, as a value (the state of a Progression object). */
  datatype Ledger = Ledger(userId: int, count: int, totalClickValue: int, multiplier: int, bestScore: int)

  /** The cost of the first reset; each later reset costs half as much again. */
  const BaseCost: nat := 100

  function Pow(b: nat, e: nat): (r: nat)
    ensures b > 0 ==> r > 0
    ensures b > 1 && e > 0 ==> r > 1
  {
    if e == 0 then 1 else b * Pow(b, e - 1)
  }

  /**
   * floor(100 * 1.5^(multiplier - 1)), computed exactly: for a multiplier of
   * at least one it is 100 * 3^k / 2^k with k = multiplier - 1, and for a
   * smaller multiplier it is 100 * 2^k / 3^k with k = 1 - multiplier.
   */
  function ResetCost(multiplier: int): (cost: nat)
    ensures multiplier >= 1 ==>
      var k := multiplier - 1;
      cost * Pow(2, k) <= BaseCost * Pow(3, k) < (cost + 1) * Pow(2, k)
    ensures multiplier < 1 ==>
      var k := 1 - multiplier;
      cost * Pow(3, k) <= BaseCost * Pow(2, k) < (cost + 1) * Pow(3, k)
  {
    if multiplier >= 1 then
      FloorDiv(BaseCost * Pow(3, multiplier - 1), Pow(2, multiplier - 1))
    else
      FloorDiv(BaseCost * Pow(2, 1 - multiplier), Pow(3, 1 - multiplier))
  }

  /** Integer division of naturals, characterised as the floor of the quotient. */
  function FloorDiv(a: nat, b: nat): (q: nat)
    requires b > 0
    ensures q * b <= a < (q + 1) * b
  {
    a / b
  }

  /** The progression a user starts with. */
  function Fresh(userId: int): Ledger {
    Ledger(userId, 0, 0, 1, 0)
  }

  /** The state after one click: count grows by the click value times the multiplier. */
  function Clicked(p: Ledger): (q: Ledger)
    ensures q.count - p.count == p.totalClickValue * p.multiplier
    ensures q.bestScore >= q.count && q.bestScore >= p.bestScore
    ensures q.bestScore == q.count || q.bestScore == p.bestScore
    ensures q.userId == p.userId && q.totalClickValue == p.totalClickValue && q.multiplier == p.multiplier
  {
    var c := p.count + p.totalClickValue * p.multiplier;
    p.(count := c, bestScore := if c > p.bestScore then c else p.bestScore)
  }

  /** A reset is allowed once the count has reached the cost of the current level. */
  predicate CanReset(p: Ledger) {
    p.count >= ResetCost(p.multiplier)
  }

  /** The state after a successful reset: the count is traded for one more multiplier level. */
  function AfterReset(p: Ledger): (q: Ledger)
    ensures q.count == 0 && q.multiplier == p.multiplier + 1
    ensures q.userId == p.userId && q.totalClickValue == p.totalClickValue && q.bestScore == p.bestScore
  {
    p.(count := 0, multiplier := p.multiplier + 1)
  }

  /**
   * The invariant every progression reachable through clicks and resets keeps
   * (and through purchases of items whose price and click value are not negative).
   */
  predicate Sane(p: Ledger) {
    p.count >= 0 && p.totalClickValue >= 0 && p.multiplier >= 1 && p.bestScore >= p.count
  }

  class Progression {
    var userId: int
    var count: int
    var totalClickValue: int
    var multiplier: int
    var bestScore: int

    /** The fields of this object as a value. */
    function State(): Ledger
      reads this
    {
      Ledger(userId, count, totalClickValue, multiplier, bestScore)
    }

    constructor (userId: int)
      ensures State() == Fresh(userId)
    {
      this.userId := userId;
      count := 0;
      totalClickValue := 0;
      multiplier := 1;
      bestScore := 0;
    }

    method AddClick()
      modifies this
      ensures State() == Clicked(old(State()))
    {
      count := count + totalClickValue * multiplier;
      if count > bestScore {
        bestScore := count;
      }
    }

    /** The cost of this progression's next reset: never below the base cost once the multiplier is at least 1. */
    function CalculateResetCost(): (c: nat)
      reads this
      ensures c == ResetCost(multiplier)
      ensures multiplier >= 1 ==> c >= BaseCost
    {
      if multiplier >= 1 then
        ResetCostAtLeastBase(multiplier);
        ResetCost(multiplier)
      else
        ResetCost(multiplier)
    }

    /** Returns 1 and performs the reset when it is affordable; returns 0 and changes nothing otherwise. */
    method TryReset() returns (r: int)
      modifies this
      ensures r == (if CanReset(old(State())) then 1 else 0)
      ensures State() == if CanReset(old(State())) then AfterReset(old(State())) else old(State())
    {
      var cost := CalculateResetCost();
      if count < cost {
        return 0;
      }
      count := 0;
      multiplier := multiplier + 1;
      return 1;
    }
  }

  // ---------------------------------------------------------------------------
  // The reset cost

  /** The first five costs: 100, 150, 225, 337 and 506 clicks. */
  lemma ResetCostFirstLevels()
    ensures ResetCost(1) == 100 && ResetCost(2) == 150 && ResetCost(3) == 225
    ensures ResetCost(4) == 337 && ResetCost(5) == 506
  {
    assert Pow(3, 4) == 81 && Pow(2, 4) == 16;
  }

  /** The largest value of the source's 32-bit signed integers. */
  const Int32Max: int := 0x7FFF_FFFF

  /** Powers add up their exponents. */
  lemma {:induction false} PowAdd(b: nat, m: nat, n: nat)
    ensures Pow(b, m + n) == Pow(b, m) * Pow(b, n)
    decreases n
  {
    if n > 0 {
      PowAdd(b, m, n - 1);
      var x, y := Pow(b, m), Pow(b, n - 1);
      assert Pow(b, m + n) == b * (x * y);
      assert b * (x * y) == x * (b * y);
    }
  }

  /**
   * The cost at multiplier 42 (1,658,599,848) still fits a 32-bit signed
   * integer; the cost at multiplier 43 (2,487,899,772) no longer does.
   */
  lemma ResetCostLeavesInt32()
    ensures ResetCost(42) == 1658599848 && ResetCost(42) <= Int32Max
    ensures ResetCost(43) == 2487899772 && ResetCost(43) > Int32Max
  {
    assert Pow(3, 7) == 2187 && Pow(2, 7) == 128;
    assert Pow(3, 6) == 729 && Pow(2, 6) == 64;
    PowAdd(3, 7, 7);
    PowAdd(2, 7, 7);
    PowAdd(3, 14, 14);
    PowAdd(2, 14, 14);
    PowAdd(3, 7, 6);
    PowAdd(2, 7, 6);
    PowAdd(3, 28, 13);
    PowAdd(2, 28, 13);
    PowAdd(3, 28, 14);
    PowAdd(2, 28, 14);
    assert Pow(3, 41) == 36472996377170786403 && Pow(2, 41) == 2199023255552;
    assert Pow(3, 42) == 109418989131512359209 && Pow(2, 42) == 4398046511104;
  }

  /** 3^k >= 2^k. */
  lemma {:induction false} PowThreeAtLeastPowTwo(k: nat)
    ensures Pow(3, k) >= Pow(2, k)
  {
    if k > 0 {
      PowThreeAtLeastPowTwo(k - 1);
    }
  }

  /** No reset ever costs less than the base cost. */
  lemma ResetCostAtLeastBase(multiplier: int)
    requires multiplier >= 1
    ensures ResetCost(multiplier) >= BaseCost
  {
    var k := multiplier - 1;
    var cost := ResetCost(multiplier);
    PowThreeAtLeastPowTwo(k);
    assert BaseCost * Pow(3, k) >= BaseCost * Pow(2, k);
    assert (cost + 1) * Pow(2, k) > BaseCost * Pow(2, k);
    MonotoneFactor(BaseCost, cost + 1, Pow(2, k));
  }

  /** From a * c < b * c with c > 0 follows a < b. */
  lemma MonotoneFactor(a: int, b: int, c: int)
    requires c > 0 && a * c < b * c
    ensures a < b
  {
  }

  /**
   * The arithmetic core of the growth step: if q = floor(a / b) is at least 2,
   * then floor(3a / 2b) is larger than q.
   */
  lemma FloorGrowthStep(a: nat, b: nat, q: nat, q': nat)
    requires b > 0 && q >= 2
    requires q * b <= a
    requires 3 * a < (q' + 1) * (2 * b)
    ensures q < q'
  {
    assert 3 * (q * b) <= 3 * a;
    assert (q + 1) * (2 * b) == 2 * (q * b) + 2 * b;
    assert 2 * b <= q * b by {
      assert q * b == 2 * b + (q - 2) * b;
    }
    assert (q + 1) * (2 * b) <= 3 * (q * b);
    MonotoneFactor(q + 1, q' + 1, 2 * b);
  }

  /** Each level costs strictly more than the one before. */
  lemma ResetCostStrictlyIncreasing(multiplier: int)
    requires multiplier >= 1
    ensures ResetCost(multiplier) < ResetCost(multiplier + 1)
  {
    var k := multiplier - 1;
    var a, b := BaseCost * Pow(3, k), Pow(2, k);
    ResetCostAtLeastBase(multiplier);
    assert BaseCost * Pow(3, k + 1) == 3 * a;
    assert Pow(2, k + 1) == 2 * b;
    FloorGrowthStep(a, b, ResetCost(multiplier), ResetCost(multiplier + 1));
  }

  /** Resetting always gets more expensive: any higher level costs more. */
  lemma {:induction false} ResetCostMonotone(m: int, n: int)
    requires 1 <= m < n
    ensures ResetCost(m) < ResetCost(n)
    decreases n - m
  {
    ResetCostStrictlyIncreasing(n - 1);
    if m < n - 1 {
      ResetCostMonotone(m, n - 1);
    }
  }

  // ---------------------------------------------------------------------------
  // Clicks and resets keep a progression sane

  lemma FreshIsSane(userId: int)
    ensures Sane(Fresh(userId)) && Fresh(userId).userId == userId
  {
  }

  /** With a non-negative click value and a positive multiplier a click never lowers the count. */
  lemma ClickedKeepsSane(p: Ledger)
    requires Sane(p)
    ensures Sane(Clicked(p)) && Clicked(p).count >= p.count
  {
    assert p.totalClickValue * p.multiplier >= 0;
  }

  lemma AfterResetKeepsSane(p: Ledger)
    requires Sane(p)
    ensures Sane(AfterReset(p))
  {
  }

  /** A reset is never affordable with a count below the base cost. */
  lemma ResetNeedsBaseCost(p: Ledger)
    requires p.multiplier >= 1 && CanReset(p)
    ensures p.count >= BaseCost
  {
    ResetCostAtLeastBase(p.multiplier);
  }
}
