/** What a key's score amounts to (`weighted_score` of kernel-rs/src/compute.rs). */
module Scores {
  import Backoff
  import opened Selection

  lemma {:induction false} HalfPowInverse(k: nat)
    ensures HalfPow(k) * Backoff.Pow2(k) as real == 1.0
  {
    if k > 0 {
      HalfPowInverse(k - 1);
      Halve(HalfPow(k - 1), Backoff.Pow2(k - 1) as real);
    }
  }

  lemma Halve(h: real, p: real)
    ensures 0.5 * h * (2.0 * p) == h * p
  {
  }

  /** Every consecutive failure halves what success rate and boost earn, down to the floor of one. */
  lemma ScoreExact(rate: real, fails: nat, boost: real)
    ensures var p := Backoff.Pow2(fails) as real;
            WeightedScore(rate, fails, boost) * p == if rate * boost < p then p else rate * boost
  {
    HalfPowInverse(fails);
    var h, p := HalfPow(fails), Backoff.Pow2(fails) as real;
    Unhalve(rate, h, boost, p);
    hide HalfPow;
    Floored(rate * h * boost, p, rate * boost);
  }

  lemma Floored(x: real, p: real, y: real)
    requires x * p == y && (x < 1.0 <==> y < p)
    ensures (if x < 1.0 then 1.0 else x) * p == if y < p then p else y
  {
  }

  lemma Unhalve(rate: real, h: real, boost: real, p: real)
    requires h * p == 1.0 && p >= 1.0
    ensures rate * h * boost * p == rate * boost
    ensures rate * h * boost < 1.0 <==> rate * boost < p
  {
    var x := rate * h * boost;
    assert x * p == rate * boost * (h * p);
    assert x < 1.0 ==> x * p < 1.0 * p;
    assert x >= 1.0 ==> x * p >= 1.0 * p;
  }
}
