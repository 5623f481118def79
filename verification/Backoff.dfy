/** Exponential cooldowns: `circuit_check` and `next_cooldown` of kernel-rs/src/compute.rs,
    and the double-then-cap loops of the Go degrade path, which run on 64-bit nanoseconds. */
module Backoff {

  const COOLDOWN_CAP := 600            // seconds
  const NS := 1_000_000_000            // nanoseconds per second
  const TWO_63 := 0x8000_0000_0000_0000
  const TWO_64 := 0x1_0000_0000_0000_0000

  function Pow2(k: nat): (p: int)
    ensures p >= 1
  {
    if k == 0 then 1 else 2 * Pow2(k - 1)
  }

  function Min(a: int, b: int): int {
    if a <= b then a else b
  }

  function Max(a: int, b: int): int {
    if a >= b then a else b
  }

  /** `doublings` doublings of `base`, then the 600 second cap. */
  function Cooldown(base: int, doublings: nat): int {
    Min(COOLDOWN_CAP, base * Pow2(doublings))
  }

  // ---- The kernel's loops -----------------------------------------------------

  /** compute.rs `circuit_check`, without the clock. The loop stops as soon as the cap is
      reached; `doublings` and `peak` record how far it ran and the largest value it held. */
  method CircuitCheck(consecutiveFail: int, threshold: int, base: int)
    returns (shouldOpen: bool, cooldown: int, ghost doublings: nat, ghost peak: int)
    ensures shouldOpen <==> consecutiveFail >= threshold
    ensures cooldown == if shouldOpen then Cooldown(base, consecutiveFail - threshold) else 0
    ensures shouldOpen ==>
              var wanted := base * Pow2(consecutiveFail - threshold);
              cooldown == if wanted < 600 then wanted else 600
    ensures base >= 1 ==> doublings <= 10 && peak <= Max(base, 1198)
  {
    doublings, peak := 0, base;
    if consecutiveFail < threshold {
      return false, 0, 0, base;
    }
    cooldown := base;
    var excess := consecutiveFail - threshold + 1;
    var i := 1;
    while i < excess && cooldown < 600
      invariant 1 <= i <= excess && doublings == i - 1
      invariant cooldown == base * Pow2(doublings) && peak == Max(base, cooldown)
      invariant base >= 1 ==> cooldown <= Max(base, 1198)
      invariant base >= 1 && doublings >= 1 ==> base * Pow2(doublings - 1) < 600
    {
      PowStep(base, doublings);
      cooldown := cooldown * 2;
      doublings, peak := doublings + 1, Max(base, cooldown);
      i := i + 1;
    }
    CappedLoop(base, doublings, excess - 1);
    if cooldown > 600 {
      cooldown := 600;
    }
    shouldOpen := true;
  }

  /** compute.rs `next_cooldown`: the sweep count takes the place of the excess. */
  method NextCooldown(badSweep: int, base: int)
    returns (cooldown: int, ghost doublings: nat, ghost peak: int)
    ensures cooldown == Cooldown(base, Max(0, badSweep - 1))
    ensures var wanted := base * Pow2(if badSweep <= 1 then 0 else badSweep - 1);
            cooldown == if wanted < 600 then wanted else 600
    ensures base >= 1 ==> doublings <= 10 && peak <= Max(base, 1198)
  {
    cooldown, doublings, peak := base, 0, base;
    var i := 1;
    while i < badSweep && cooldown < 600
      invariant 1 <= i <= Max(1, badSweep) && doublings == i - 1
      invariant cooldown == base * Pow2(doublings) && peak == Max(base, cooldown)
      invariant base >= 1 ==> cooldown <= Max(base, 1198)
      invariant base >= 1 && doublings >= 1 ==> base * Pow2(doublings - 1) < 600
    {
      PowStep(base, doublings);
      cooldown := cooldown * 2;
      doublings, peak := doublings + 1, Max(base, cooldown);
      i := i + 1;
    }
    CappedLoop(base, doublings, Max(0, badSweep - 1));
    if cooldown > 600 {
      cooldown := 600;
    }
  }

  lemma PowStep(base: int, k: nat)
    ensures base * Pow2(k) * 2 == base * Pow2(k + 1)
  {
  }

  lemma {:induction false} PowMonotone(i: nat, j: nat)
    requires i <= j
    ensures Pow2(i) <= Pow2(j)
  {
    if i < j {
      PowMonotone(i, j - 1);
    }
  }

  /** Leaving the loop early is unobservable after the cap, and it leaves within ten doublings. */
  lemma CappedLoop(base: int, done: nat, wanted: nat)
    requires done <= wanted
    requires done == wanted || base * Pow2(done) >= 600
    requires base >= 1 && done >= 1 ==> base * Pow2(done - 1) < 600
    ensures Min(600, base * Pow2(done)) == Cooldown(base, wanted)
    ensures base >= 1 ==> done <= 10
  {
    PowMonotone(done, wanted);
    if base >= 1 {
      assert base * Pow2(done) <= base * Pow2(wanted);
      if done >= 1 {
        PowAboveTen(done - 1);
        assert base * Pow2(done - 1) >= Pow2(done - 1);
      }
    } else {
      assert base * Pow2(done) <= 0;
    }
  }

  lemma PowAboveTen(k: nat)
    ensures k >= 10 ==> Pow2(k) >= 1024
  {
    if k >= 10 {
      PowMonotone(10, k);
      assert Pow2(10) == 1024;
    }
  }

  lemma CooldownMonotone(base: int, i: nat, j: nat)
    requires base >= 0 && i <= j
    ensures Cooldown(base, i) <= Cooldown(base, j)
  {
    PowMonotone(i, j);
    assert base * Pow2(i) <= base * Pow2(j);
  }

  // ---- The Go degrade path ----------------------------------------------------

  /** Two's complement reduction of a mathematical integer to a Go `int64`. */
  function Wrap64(x: int): (w: int)
    ensures -TWO_63 <= w < TWO_63
    ensures -TWO_63 <= x < TWO_63 ==> w == x
    ensures exists m :: w == x - m * TWO_64
  {
    assert (x + TWO_63) % TWO_64 - TWO_63 == x - (x + TWO_63) / TWO_64 * TWO_64;
    (x + TWO_63) % TWO_64 - TWO_63
  }

  lemma WrapDouble(x: int)
    ensures Wrap64(2 * Wrap64(x)) == Wrap64(2 * x)
  {
    var m := (x + TWO_63) / TWO_64;
    assert Wrap64(x) == x - m * TWO_64;
    WrapShift(2 * x, -2 * m);
  }

  lemma WrapShift(x: int, m: int)
    ensures Wrap64(x + m * TWO_64) == Wrap64(x)
  {
    var a := x + TWO_63;
    assert (a + m * TWO_64) % TWO_64 == a % TWO_64 by {
      var q := a / TWO_64;
      assert a + m * TWO_64 == (q + m) * TWO_64 + a % TWO_64;
    }
  }

  /** scheduler.go `checkCircuitBreaker` and sweeper.go `nextCooldown`: every doubling is done on
      `time.Duration`, and the cap is applied only afterwards. */
  method GoBackoff(baseNs: int, doublings: nat) returns (cooldown: int)
    requires -TWO_63 <= baseNs < TWO_63
    ensures cooldown == GoCooldown(baseNs, doublings)
    ensures var wrapped := Wrap64(baseNs * Pow2(doublings));
            cooldown == if wrapped < 600 * NS then wrapped else 600 * NS
  {
    cooldown := baseNs;
    var i := 0;
    while i < doublings
      invariant 0 <= i <= doublings && cooldown == Wrap64(baseNs * Pow2(i))
    {
      WrapDouble(baseNs * Pow2(i));
      PowStep(baseNs, i);
      cooldown := Wrap64(cooldown * 2);
      i := i + 1;
    }
    if cooldown > 600 * NS {
      cooldown := 600 * NS;
    }
  }

  /** `int64(d.Seconds())`, which truncates toward zero. */
  function WholeSeconds(ns: int): int {
    if ns >= 0 then ns / NS else -(-ns / NS)
  }

  function GoCooldown(baseNs: int, doublings: nat): int {
    Min(COOLDOWN_CAP * NS, Wrap64(baseNs * Pow2(doublings)))
  }

  /** For a positive base in whole seconds the two sides agree exactly while the product still
      fits an int64, or when the wrapped product happens to land above the cap. */
  lemma GoBackoffAgreesIff(base: int, doublings: nat)
    requires base >= 1
    ensures GoCooldown(base * NS, doublings) == Cooldown(base, doublings) * NS
       <==> (base * NS * Pow2(doublings) < TWO_63 || Wrap64(base * NS * Pow2(doublings)) >= COOLDOWN_CAP * NS)
  {
    var p := base * Pow2(doublings);
    assert base * NS * Pow2(doublings) == p * NS && p >= 1;
    hide Pow2;
    CapAfterWrap(p);
  }

  lemma CapAfterWrap(p: int)
    requires p >= 1
    ensures Min(COOLDOWN_CAP * NS, Wrap64(p * NS)) == Min(COOLDOWN_CAP, p) * NS
       <==> (p * NS < TWO_63 || Wrap64(p * NS) >= COOLDOWN_CAP * NS)
  {
  }

  /** The default 30 second base diverges at the 29th doubling: Go's cooldown is negative, so the
      breaker is "open" with a deadline already past, while the kernel waits ten minutes. */
  lemma GoBackoffWrapsAt29()
    ensures GoCooldown(30 * NS, 29) < 0 && Cooldown(30, 29) == 600
    ensures forall k: nat :: k <= 28 ==> GoCooldown(30 * NS, k) == Cooldown(30, k) * NS
  {
    PowTable();
    hide Pow2;
    forall k: nat | k <= 28 ensures GoCooldown(30 * NS, k) == Cooldown(30, k) * NS {
      PowMonotone(k, 28);
      CapAfterWrap(30 * Pow2(k));
    }
  }

  /** For whole seconds every factor has been shifted out after 55 doublings, since a second of
      nanoseconds carries nine factors of two; for any base after 64. Go then applies no cooldown. */
  lemma GoBackoffShiftsOut(baseNs: int, k: nat)
    requires k >= 64 || (k >= 55 && baseNs % NS == 0)
    ensures GoCooldown(baseNs, k) == 0
  {
    PowTable();
    if k >= 64 {
      PowSplit(64, k - 64);
      Vanishes(baseNs * Pow2(k), baseNs * Pow2(k - 64));
    } else {
      PowSplit(55, k - 55);
      var base, rest := baseNs / NS, Pow2(k - 55);
      assert baseNs == base * NS && Pow2(k) == Pow2(55) * rest;
      assert baseNs * Pow2(k) == (base * 1_953_125 * rest) * TWO_64 by {
        hide Pow2;
        ShiftedSecond(base, rest, Pow2(55));
      }
      Vanishes(baseNs * Pow2(k), base * 1_953_125 * rest);
    }
  }

  lemma ShiftedSecond(base: int, rest: int, p55: int)
    requires p55 == 0x80_0000_0000_0000
    ensures base * NS * (p55 * rest) == (base * 1_953_125 * rest) * TWO_64
  {
    assert NS * p55 == 1_953_125 * TWO_64;
    assert base * NS * (p55 * rest) == base * rest * (NS * p55);
  }

  lemma Vanishes(x: int, m: int)
    requires x == m * TWO_64
    ensures Wrap64(x) == 0
  {
    WrapShift(0, m);
  }

  /** One doubling fewer is not enough: a base of one second has become the least int64. */
  lemma GoBackoffAt54()
    ensures GoCooldown(NS, 54) == -TWO_63
  {
    PowTable();
    PowSplit(54, 1);
    assert Pow2(54) == 0x40_0000_0000_0000;
    hide Pow2;
    var x := NS * 0x40_0000_0000_0000;
    assert x == TWO_63 + 976_562 * TWO_64;
    WrapShift(TWO_63, 976_562);
  }

  /** Whole seconds from a clock reading with `frac` nanoseconds to that reading plus a Go cooldown. */
  function GoDelay(base: int, doublings: nat, frac: int): int {
    (frac + GoCooldown(base * NS, doublings)) / NS
  }

  /** The product still fits an int64, or has wrapped to something that reaches the cap. */
  predicate CoolsAlike(base: int, doublings: nat, frac: int) {
    base * NS * Pow2(doublings) < TWO_63 || Wrap64(base * NS * Pow2(doublings)) + frac >= COOLDOWN_CAP * NS
  }

  /** The deadlines in whole seconds, which are what both sides store, agree exactly then. */
  lemma DeadlinesAgreeIff(base: int, doublings: nat, frac: int)
    requires base >= 1 && 0 <= frac < NS
    ensures GoDelay(base, doublings, frac) == Cooldown(base, doublings) <==> CoolsAlike(base, doublings, frac)
  {
    var p := base * Pow2(doublings);
    assert base * NS * Pow2(doublings) == p * NS && p >= 1;
    hide Pow2;
    DelayAfterWrap(p, frac);
  }

  lemma DelayAfterWrap(p: int, frac: int)
    requires p >= 1 && 0 <= frac < NS
    ensures (frac + Min(COOLDOWN_CAP * NS, Wrap64(p * NS))) / NS == Min(COOLDOWN_CAP, p)
       <==> (p * NS < TWO_63 || Wrap64(p * NS) + frac >= COOLDOWN_CAP * NS)
  {
    if p * NS < TWO_63 {
      assert Wrap64(p * NS) == p * NS;
      assert Min(COOLDOWN_CAP * NS, p * NS) == Min(COOLDOWN_CAP, p) * NS;
    }
  }

  lemma PowTable()
    ensures Pow2(28) == 0x1000_0000 && Pow2(29) == 0x2000_0000 && Pow2(55) == 0x80_0000_0000_0000 && Pow2(64) == TWO_64
  {
    PowSplit(14, 14);
    assert Pow2(14) == 0x4000;
    PowSplit(28, 1);
    PowSplit(32, 32);
    PowSplit(28, 4);
    PowSplit(28, 27);
    PowSplit(27, 1);
    assert Pow2(4) == 16;
  }

  lemma {:induction false} PowSplit(i: nat, j: nat)
    ensures Pow2(i + j) == Pow2(i) * Pow2(j)
  {
    if i > 0 {
      PowSplit(i - 1, j);
    }
  }
}
