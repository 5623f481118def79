/** Per-key token buckets: kernel-rs/src/state.rs and internal/ratelimit/tokenbucket.go. `Bucket` is
    the value the specifications speak about; the class `TokenBucket` updates its fields in place. */
module TokenBuckets {

  datatype Bucket = Bucket(capacity: real, tokens: real, rate: real, last: real)

  predicate Valid(b: Bucket) {
    0.0 <= b.tokens <= b.capacity && b.rate >= 0.0
  }

  /** Rust `TokenBucket::new`: the capacity is clamped to at least one. */
  function Fresh(rpm: int, t: real): (b: Bucket)
    ensures Valid(b) && b.capacity >= 1.0 && b.tokens == b.capacity && b.last == t
    ensures b.rate * 60.0 == b.capacity
  {
    var cap := (if rpm >= 1 then rpm else 1) as real;
    Bucket(cap, cap, cap / 60.0, t)
  }

  function Refill(b: Bucket, t: real): Bucket {
    if t - b.last <= 0.0 then b
    else b.(tokens := Cap(b.tokens + Drip(b.rate, t - b.last), b.capacity), last := t)
  }

  /** What flows in during `elapsed` seconds. */
  function Drip(rate: real, elapsed: real): real {
    elapsed * rate
  }

  function Cap(x: real, capacity: real): real {
    if x > capacity then capacity else x
  }

  predicate Admits(b: Bucket, t: real, headroom: real) {
    Refill(b, t).tokens >= Floor(b, headroom) + 1.0
  }

  /** The share of the capacity a strategy keeps in reserve. */
  function Floor(b: Bucket, headroom: real): real {
    b.capacity * (1.0 - headroom)
  }

  predicate CanTake(b: Bucket, t: real, n: int) {
    Refill(b, t).tokens >= n as real
  }

  function Take(b: Bucket, t: real, n: int): Bucket {
    var r := Refill(b, t);
    if r.tokens >= n as real then r.(tokens := r.tokens - n as real) else r
  }

  function Calibrated(b: Bucket, t: real, remaining: int): Bucket {
    var r := Refill(b, t);
    if (remaining as real) < r.tokens then r.(tokens := remaining as real) else r
  }

  /** The mutable bucket. `t` is the reading of the monotone clock the source takes in `refill`. */
  class TokenBucket {
    const capacity: real
    const refillRate: real
    var tokens: real
    var lastRefill: real

    ghost function View(): Bucket
      reads this
    {
      Bucket(capacity, tokens, refillRate, lastRefill)
    }

    constructor (rpm: int, t: real)
      ensures View() == Fresh(rpm, t)
    {
      var cap := (if rpm >= 1 then rpm else 1) as real;
      capacity := cap;
      tokens := cap;
      refillRate := cap / 60.0;
      lastRefill := t;
    }

    method RefillNow(t: real)
      modifies this
      ensures View() == Refill(old(View()), t)
    {
      var elapsed := t - lastRefill;
      if elapsed <= 0.0 {
        return;
      }
      tokens := tokens + Drip(refillRate, elapsed);
      if tokens > capacity {
        tokens := capacity;
      }
      lastRefill := t;
    }

    method Allow(n: int, t: real) returns (ok: bool)
      modifies this
      ensures View() == Take(old(View()), t, n)
      ensures ok == CanTake(old(View()), t, n)
    {
      RefillNow(t);
      if tokens >= n as real {
        tokens := tokens - n as real;
        return true;
      }
      return false;
    }

    /** Go returns early for a full headroom, so that a larger one counts as full: the floor never drops
        below zero. Up to a full headroom this is the kernel's test. */
    method HasAdmission(headroom: real, t: real) returns (ok: bool)
      modifies this
      ensures View() == Refill(old(View()), t)
      ensures ok == Admits(old(View()), t, if headroom > 1.0 then 1.0 else headroom)
    {
      RefillNow(t);
      if headroom >= 1.0 {
        return tokens >= 1.0;
      }
      var floor := capacity * (1.0 - headroom);
      return tokens >= floor + 1.0;
    }

    method Calibrate(remaining: int, t: real)
      modifies this
      ensures View() == Calibrated(old(View()), t, remaining)
    {
      RefillNow(t);
      if (remaining as real) < tokens {
        tokens := remaining as real;
      }
    }
  }

  // ---- Runs -------------------------------------------------------------------

  datatype Op = Allow(n: nat) | Peek | Calibrate(remaining: nat)
  datatype Timed = At(t: real, op: Op)

  function Apply(b: Bucket, e: Timed): Bucket {
    match e.op
    case Allow(n) => Take(b, e.t, n)
    case Peek => Refill(b, e.t)
    case Calibrate(r) => Calibrated(b, e.t, r)
  }

  /** Tokens handed out by one call. */
  function Grant(b: Bucket, e: Timed): nat {
    if e.op.Allow? && CanTake(b, e.t, e.op.n) then e.op.n else 0
  }

  function Run(b: Bucket, es: seq<Timed>): Bucket
    decreases |es|
  {
    if es == [] then b else Run(Apply(b, es[0]), es[1..])
  }

  function Granted(b: Bucket, es: seq<Timed>): nat
    decreases |es|
  {
    if es == [] then 0 else Grant(b, es[0]) + Granted(Apply(b, es[0]), es[1..])
  }

  /** The clock never runs backwards, starting from `t0`. */
  predicate Monotone(t0: real, es: seq<Timed>) {
    && (forall i :: 0 <= i < |es| ==> t0 <= es[i].t)
    && (forall i, j :: 0 <= i < j < |es| ==> es[i].t <= es[j].t)
  }

  function EndTime(t0: real, es: seq<Timed>): real {
    if es == [] then t0 else es[|es| - 1].t
  }

  lemma DripFacts(rate: real, t0: real, t1: real, t2: real)
    requires rate >= 0.0 && t0 <= t1 <= t2
    ensures Drip(rate, t1 - t0) >= 0.0 && Drip(rate, t2 - t1) >= 0.0
    ensures Drip(rate, t1 - t0) + Drip(rate, t2 - t1) == Drip(rate, t2 - t0)
    ensures Drip(rate, 0.0) == 0.0
  {
    var x, y := t1 - t0, t2 - t1;
    assert x * rate >= 0.0 && y * rate >= 0.0;
    assert (x + y) * rate == x * rate + y * rate;
  }

  lemma DripIs(rate: real, elapsed: real)
    ensures Drip(rate, elapsed) == rate * elapsed
  {
  }

  /** The refill, exactly: at a later time `n` tokens can be taken if and only if the bucket is that large
      and what was there and what the rate has brought since make up that many. */
  lemma TakeableIff(b: Bucket, t: real, n: int)
    requires Valid(b) && b.last <= t
    ensures CanTake(b, t, n) <==> n as real <= b.capacity && n as real <= b.tokens + b.rate * (t - b.last)
  {
    DripFacts(b.rate, b.last, t, t);
    DripIs(b.rate, t - b.last);
    hide Drip;
  }

  /** So an emptied bucket of `rpm` tokens a minute holds `n` tokens `d` seconds later if and only if it is
      that large and `d` seconds bring as many, and it is full again if and only if a minute has passed. */
  lemma EmptiedRefills(rpm: int, t: real, d: real, n: int)
    requires rpm >= 1 && d >= 0.0
    ensures var empty := Take(Fresh(rpm, t), t, rpm);
            && empty.tokens == 0.0
            && (CanTake(empty, t + d, n) <==> n <= rpm && n as real * 60.0 <= rpm as real * d)
            && (Refill(empty, t + d).tokens == rpm as real <==> d >= 60.0)
  {
    var empty := Take(Fresh(rpm, t), t, rpm);
    Emptied(rpm, t);
    hide Take, Fresh, CanTake, Refill, Drip;
    Brought(empty, rpm, d, n);
    Brought(empty, rpm, d, rpm);
    Full(rpm as real, d);
    RefillValid(empty, t + d);
    TakesAll(empty, t + d, rpm);
  }

  lemma Emptied(rpm: int, t: real)
    requires rpm >= 1
    ensures var empty := Take(Fresh(rpm, t), t, rpm);
            && Valid(empty) && empty.tokens == 0.0 && empty.last == t
            && empty.capacity == rpm as real && empty.rate * 60.0 == rpm as real
  {
    hide Drip;
  }

  lemma Brought(empty: Bucket, rpm: int, d: real, n: int)
    requires Valid(empty) && empty.tokens == 0.0 && empty.capacity == rpm as real && empty.rate * 60.0 == rpm as real
    requires d >= 0.0
    ensures CanTake(empty, empty.last + d, n) <==> n <= rpm && n as real * 60.0 <= rpm as real * d
  {
    TakeableIff(empty, empty.last + d, n);
    Minutes(empty.rate, rpm as real, d, n as real);
    assert empty.last + d - empty.last == d;
    hide *;
  }

  lemma TakesAll(b: Bucket, t: real, rpm: int)
    requires Refill(b, t).tokens <= rpm as real
    ensures Refill(b, t).tokens == rpm as real <==> CanTake(b, t, rpm)
  {
    hide Refill;
  }

  lemma Minutes(rate: real, rpm: real, d: real, n: real)
    requires rate * 60.0 == rpm
    ensures n <= rate * d <==> n * 60.0 <= rpm * d
  {
    assert rpm * d == 60.0 * (rate * d);
  }

  lemma Full(rpm: real, d: real)
    requires rpm >= 1.0
    ensures rpm * 60.0 <= rpm * d <==> d >= 60.0
  {
    assert rpm * d - rpm * 60.0 == rpm * (d - 60.0);
    assert d < 60.0 ==> rpm * (60.0 - d) > 0.0;
  }

  /** Taking `n` tokens leaves room for exactly as many fewer, and a refused call for as many as before. */
  lemma TakenExactly(b: Bucket, t: real, n: nat, m: int)
    requires b.last <= t
    ensures CanTake(Take(b, t, n), t, m) <==> CanTake(b, t, if CanTake(b, t, n) then n + m else m)
  {
  }

  /** After a calibration the level is the smaller of what was there and what upstream reported. */
  lemma CalibratedExactly(b: Bucket, t: real, remaining: int, n: int)
    requires b.last <= t
    ensures CanTake(Calibrated(b, t, remaining), t, n) <==> n <= remaining && CanTake(b, t, n)
  {
  }

  /** Admission, exactly: a token can be taken without going below the share of the capacity kept back. */
  lemma AdmitsIff(b: Bucket, t: real, headroom: real)
    requires Valid(b) && headroom <= 1.0
    ensures Admits(b, t, headroom)
       <==> CanTake(b, t, 1) && Take(b, t, 1).tokens >= b.capacity * (1.0 - headroom)
  {
    FloorNonNegative(b, headroom);
    hide Refill;
  }

  lemma RefillValid(b: Bucket, t: real)
    requires Valid(b) && b.last <= t
    ensures Valid(Refill(b, t)) && Refill(b, t).last == t && Refill(b, t).tokens >= b.tokens
    ensures Refill(b, t).tokens <= b.tokens + Drip(b.rate, t - b.last)
    ensures Refill(b, t).capacity == b.capacity && Refill(b, t).rate == b.rate
  {
    DripFacts(b.rate, b.last, t, t);
    hide Drip;
  }

  lemma ApplyValid(b: Bucket, e: Timed)
    requires Valid(b) && b.last <= e.t
    ensures Valid(Apply(b, e)) && Apply(b, e).last == e.t
    ensures Apply(b, e).capacity == b.capacity && Apply(b, e).rate == b.rate
    ensures Grant(b, e) as real + Apply(b, e).tokens <= Refill(b, e.t).tokens
  {
    RefillValid(b, e.t);
    hide Drip, Refill;
    match e.op
    case Allow(n) =>
    case Peek =>
    case Calibrate(r) =>
  }

  lemma {:induction false} Dripped(b: Bucket, es: seq<Timed>)
    requires Valid(b) && Monotone(b.last, es)
    ensures Valid(Run(b, es)) && Run(b, es).last == EndTime(b.last, es)
    ensures Run(b, es).capacity == b.capacity && Run(b, es).rate == b.rate
    ensures Granted(b, es) as real + Run(b, es).tokens <= b.tokens + Drip(b.rate, EndTime(b.last, es) - b.last)
    decreases |es|
  {
    hide Apply, Grant, Refill, Drip;
    DripFacts(b.rate, b.last, b.last, b.last);
    if es != [] {
      var b1, t1, rest := Apply(b, es[0]), es[0].t, es[1..];
      ApplyValid(b, es[0]);
      RefillValid(b, t1);
      Dripped(b1, rest);
      var tEnd := EndTime(b.last, es);
      assert EndTime(b1.last, rest) == tEnd;
      DripFacts(b.rate, b.last, t1, tEnd);
      assert Granted(b, es) == Grant(b, es[0]) + Granted(b1, rest);
    }
  }

  /** Over any run the level stays within the bucket, and what is granted plus what is left never
      exceeds the starting level plus what the rate has dripped in meanwhile. */
  lemma Potential(b: Bucket, es: seq<Timed>)
    requires Valid(b) && Monotone(b.last, es)
    ensures Valid(Run(b, es)) && Run(b, es).last == EndTime(b.last, es)
    ensures Run(b, es).capacity == b.capacity && Run(b, es).rate == b.rate
    ensures Granted(b, es) as real + Run(b, es).tokens
         <= b.tokens + b.rate * (EndTime(b.last, es) - b.last)
  {
    hide *;
    Dripped(b, es);
    DripIs(b.rate, EndTime(b.last, es) - b.last);
  }

  /** The rate bound. In any run, the tokens granted by the calls from the i-th to the j-th
      (inclusive) are at most one full bucket plus the refill between those two calls. */
  lemma RateBound(b: Bucket, es: seq<Timed>, i: nat, j: nat)
    requires Valid(b) && Monotone(b.last, es) && i <= j < |es|
    ensures Granted(Run(b, es[..i]), es[i..j + 1]) as real
         <= b.capacity + b.rate * (es[j].t - es[i].t)
  {
    hide *;
    StretchDrips(b, es, i, j);
    DripIs(b.rate, es[j].t - es[i].t);
  }

  lemma StretchDrips(b: Bucket, es: seq<Timed>, i: nat, j: nat)
    requires Valid(b) && Monotone(b.last, es) && i <= j < |es|
    ensures Granted(Run(b, es[..i]), es[i..j + 1]) as real <= b.capacity + Drip(b.rate, es[j].t - es[i].t)
  {
    hide Apply, Grant, Refill, Run, Granted, Valid, Drip;
    Dripped(b, es[..i]);
    var s := Run(b, es[..i]);
    var stretch := es[i..j + 1];
    assert stretch[|stretch| - 1] == es[j];
    BurstThenDrip(s, stretch);
  }

  lemma BurstThenDrip(b: Bucket, es: seq<Timed>)
    requires Valid(b) && Monotone(b.last, es) && es != []
    ensures Granted(b, es) as real <= b.capacity + Drip(b.rate, es[|es| - 1].t - es[0].t)
  {
    hide Apply, Grant, Refill, Run, Drip;
    var b1, rest := Apply(b, es[0]), es[1..];
    ApplyValid(b, es[0]);
    RefillValid(b, es[0].t);
    Dripped(b1, rest);
    assert EndTime(b1.last, rest) == es[|es| - 1].t;
    assert Granted(b, es) == Grant(b, es[0]) + Granted(b1, rest);
  }

  /** Refilling at an intermediate time is unobservable later. */
  lemma RefillTwice(b: Bucket, t1: real, t2: real)
    requires Valid(b) && b.last <= t1 <= t2
    ensures Refill(Refill(b, t1), t2) == Refill(b, t2)
  {
    DripFacts(b.rate, b.last, t1, t2);
    hide Drip;
  }

  /** So peeks may be inserted anywhere before another call without changing any grant or the
      final bucket: the lazy refill is the continuously refilled, capped bucket. */
  lemma PeekUnobservable(b: Bucket, pre: seq<Timed>, t: real, post: seq<Timed>)
    requires Valid(b) && post != [] && Monotone(b.last, pre + [At(t, Peek)] + post)
    ensures Run(b, pre + [At(t, Peek)] + post) == Run(b, pre + post)
    ensures Granted(b, pre + [At(t, Peek)] + post) == Granted(b, pre + post)
    decreases pre
  {
    hide Drip, Refill, Take, CanTake, Calibrated;
    var with, without := pre + [At(t, Peek)] + post, pre + post;
    if pre == [] {
      assert with[1..] == post && without == post;
      assert with[0].t == t && with[1] == post[0];
      PeekThenOne(b, t, post[0]);
    } else {
      assert with[0] == pre[0] == without[0];
      assert with[1..] == pre[1..] + [At(t, Peek)] + post && without[1..] == pre[1..] + post;
      ApplyValid(b, pre[0]);
      PeekUnobservable(Apply(b, pre[0]), pre[1..], t, post);
    }
  }

  lemma PeekThenOne(b: Bucket, t: real, e: Timed)
    requires Valid(b) && b.last <= t <= e.t
    ensures Apply(Refill(b, t), e) == Apply(b, e) && Grant(Refill(b, t), e) == Grant(b, e)
  {
    RefillTwice(b, t, e.t);
  }

  lemma FloorNonNegative(b: Bucket, headroom: real)
    requires b.capacity >= 0.0 && headroom <= 1.0
    ensures Floor(b, headroom) >= 0.0
  {
  }

  /** A bucket admitted at `t1` still has a token to take at `t2`, and taking it leaves the
      headroom's floor untouched. */
  lemma AdmittedCanBeSpent(b: Bucket, t1: real, t2: real, headroom: real)
    requires Valid(b) && b.last <= t1 <= t2 && 0.0 < headroom <= 1.0
    requires Admits(b, t1, headroom)
    ensures var r := Refill(b, t1);
            CanTake(r, t2, 1)
            && Take(r, t2, 1) == Refill(b, t2).(tokens := Refill(b, t2).tokens - 1.0)
            && Take(r, t2, 1).tokens >= b.capacity * (1.0 - headroom)
  {
    RefillTwice(b, t1, t2);
    RefillValid(b, t1);
    var r := Refill(b, t1);
    RefillValid(r, t2);
    hide Drip, Refill;
    FloorNonNegative(b, headroom);
  }
}
