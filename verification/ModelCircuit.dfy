/** The model-level circuit: health sweeps (internal/modelhealth/sweeper.go and `verdict` of
    kernel-rs/src/compute.rs), passive feedback and manual resets (internal/data/model_circuit.go)
    all drive one record per model. */
module ModelCircuit {
  import opened Backoff
  import opened Options

  datatype CircuitState = Closed | Open | HalfOpen | Permanent

  datatype Circuit = Circuit(
    state: CircuitState, openUntil: int, fails: nat, ratePct: int, badSweeps: nat, permanent: bool, lastSweep: int)

  /** Sweep settings; `base` is the base cooldown in seconds. */
  datatype SweepConfig = SweepConfig(floor: int, threshold: int, badToPermanent: int, base: int)

  /** The record a model without a row is treated as. */
  const NEW_CIRCUIT := Circuit(Closed, 0, 0, 100, 0, false, 0)

  function Row(row: Option<Circuit>): Circuit {
    if row.Some? then row.value else NEW_CIRCUIT
  }

  // ---- One step of one record -------------------------------------------------

  predicate Healthy(rate: int, cfg: SweepConfig) {
    rate >= cfg.threshold
  }

  predicate SubFloor(rate: int, cfg: SweepConfig) {
    !Healthy(rate, cfg) && rate < cfg.floor
  }

  /** sweeper.go `applyVerdict` when no kernel answers. */
  function GoVerdict(c: Circuit, rate: int, cfg: SweepConfig, now: int): Circuit {
    var c1 := c.(ratePct := rate, lastSweep := now);
    if Healthy(rate, cfg) then
      if c.state == Permanent then c1.(badSweeps := 0) else c1.(state := Closed, openUntil := 0, badSweeps := 0)
    else if SubFloor(rate, cfg) then
      var bad := c.badSweeps + 1;
      if bad >= cfg.badToPermanent then c1.(state := Permanent, permanent := true, badSweeps := bad)
      else if c.state == Permanent then c1.(badSweeps := bad)
      else c1.(state := Open, openUntil := now + cfg.base, badSweeps := bad)
    else if c.state == Permanent then c1
    else c1.(state := Open, openUntil := now + WholeSeconds(GoCooldown(cfg.base * NS, Max(0, c.badSweeps - 1))))
  }

  datatype VerdictResp = VerdictResp(state: CircuitState, openUntil: int, badSweeps: nat, permanent: bool)

  /** compute.rs `verdict`, which sees only the state and the bad-sweep count. */
  method Verdict(state0: CircuitState, bad0: nat, rate: int, cfg: SweepConfig, now: int) returns (resp: VerdictResp)
    ensures resp == RustVerdict(state0, bad0, rate, cfg, now)
  {
    var bad, state, openUntil := bad0, state0, 0;
    if rate >= cfg.threshold {
      if state != Permanent {
        state := Closed;
      }
      bad := 0;
    } else if rate < cfg.floor {
      bad := bad + 1;
      if bad >= cfg.badToPermanent {
        state := Permanent;
      } else if state != Permanent {
        state := Open;
        openUntil := now + cfg.base;
      }
    } else {
      if state != Permanent {
        state := Open;
        var cooldown, _, _ := NextCooldown(bad, cfg.base);
        openUntil := now + cooldown;
      }
    }
    resp := VerdictResp(state, openUntil, bad, state == Permanent);
  }

  function RustVerdict(state: CircuitState, bad: nat, rate: int, cfg: SweepConfig, now: int): VerdictResp {
    var newBad: nat := if Healthy(rate, cfg) then 0 else if SubFloor(rate, cfg) then bad + 1 else bad;
    if state == Permanent || (SubFloor(rate, cfg) && newBad >= cfg.badToPermanent)
    then VerdictResp(Permanent, 0, newBad, true)
    else if Healthy(rate, cfg) then VerdictResp(Closed, 0, newBad, false)
    else
      var delay := if SubFloor(rate, cfg) then cfg.base else Cooldown(cfg.base, Max(0, bad - 1));
      VerdictResp(Open, now + delay, newBad, false)
  }

  /** `applyVerdict` with the kernel's answer. */
  function KernelVerdict(c: Circuit, rate: int, cfg: SweepConfig, now: int): Circuit {
    var v := RustVerdict(c.state, c.badSweeps, rate, cfg, now);
    c.(ratePct := rate, lastSweep := now, state := v.state, openUntil := v.openUntil, badSweeps := v.badSweeps,
      permanent := v.permanent)
  }

  /** `RecordModelCircuitFailure`; a threshold that is not positive disables it. */
  function Failed(row: Option<Circuit>, threshold: int, cooldown: int, now: int): Option<Circuit> {
    if threshold <= 0 || Row(row).state == Permanent then row
    else
      var c := Row(row).(fails := Row(row).fails + 1);
      Some(if c.fails >= threshold then c.(state := Open, openUntil := now + cooldown) else c)
  }

  /** `ResetModelCircuitConsecutive`. */
  function Succeeded(row: Option<Circuit>): Option<Circuit> {
    if row == None || row.value.state == Permanent then row
    else
      var c := row.value.(fails := 0);
      Some(if c.state == Open || c.state == HalfOpen then c.(state := Closed, openUntil := 0) else c)
  }

  /** `ResetModelCircuit`, the only way out of permanent. */
  function Cleared(row: Option<Circuit>): Option<Circuit> {
    if row == None then None
    else Some(row.value.(state := Closed, openUntil := 0, fails := 0, badSweeps := 0, permanent := false))
  }

  // ---- The table --------------------------------------------------------------

  class Store {
    var circuits: map<string, Circuit>

    function Get(model: string): Option<Circuit>
      reads this
    {
      if model in circuits then Some(circuits[model]) else None
    }

    constructor ()
      ensures circuits == map[]
    {
      circuits := map[];
    }

    method RecordModelCircuitFailure(model: string, threshold: int, cooldown: int, now: int)
      modifies this
      ensures circuits == Put(old(circuits), model, Failed(old(Get(model)), threshold, cooldown, now))
    {
      if threshold <= 0 {
        return;
      }
      var mc := Row(Get(model));
      if mc.state == Permanent {
        return;
      }
      mc := mc.(fails := mc.fails + 1);
      if mc.fails >= threshold {
        mc := mc.(state := Open, openUntil := now + cooldown);
      }
      circuits := circuits[model := mc];
    }

    method ResetModelCircuitConsecutive(model: string)
      modifies this
      ensures circuits == Put(old(circuits), model, Succeeded(old(Get(model))))
    {
      if model !in circuits || circuits[model].state == Permanent {
        return;
      }
      var mc := circuits[model].(fails := 0);
      if mc.state == Open || mc.state == HalfOpen {
        mc := mc.(state := Closed, openUntil := 0);
      }
      circuits := circuits[model := mc];
    }

    method ResetModelCircuit(model: string)
      modifies this
      ensures circuits == Put(old(circuits), model, Cleared(old(Get(model))))
    {
      if model !in circuits {
        return;
      }
      var mc := circuits[model];
      mc := mc.(state := Closed, openUntil := 0, fails := 0, badSweeps := 0, permanent := false);
      circuits := circuits[model := mc];
    }

    /** `kernel` says whether the sidecar answers the verdict call. */
    method ApplyVerdict(model: string, rate: int, cfg: SweepConfig, now: int, kernel: bool)
      requires 0 <= cfg.base * NS < TWO_63
      modifies this
      ensures circuits == Put(old(circuits), model, Swept(old(Get(model)), rate, cfg, now, kernel))
    {
      var mc := Row(Get(model)).(ratePct := rate, lastSweep := now);
      if kernel {
        var v := Verdict(mc.state, mc.badSweeps, rate, cfg, now);
        mc := mc.(state := v.state, openUntil := v.openUntil, badSweeps := v.badSweeps, permanent := v.permanent);
      } else if rate >= cfg.threshold {
        if mc.state != Permanent {
          mc := mc.(state := Closed, openUntil := 0);
        }
        mc := mc.(badSweeps := 0);
      } else if rate < cfg.floor {
        mc := mc.(badSweeps := mc.badSweeps + 1);
        if mc.badSweeps >= cfg.badToPermanent {
          mc := mc.(state := Permanent, permanent := true);
        } else if mc.state != Permanent {
          mc := mc.(state := Open, openUntil := now + cfg.base);
        }
      } else if mc.state != Permanent {
        var cooldown := GoBackoff(cfg.base * NS, Max(0, mc.badSweeps - 1));
        mc := mc.(state := Open, openUntil := now + WholeSeconds(cooldown));
      }
      circuits := circuits[model := mc];
    }

    method IsModelCircuitOpen(model: string, now: int) returns (open: bool)
      ensures open <==> Blocked(Get(model), now)
    {
      if model !in circuits {
        return false;
      }
      var mc := circuits[model];
      if mc.state == Permanent {
        return true;
      }
      return mc.state == Open && mc.openUntil > now;
    }

    /** The query's WHERE clause looks at the permanent flag, not at the state. */
    method ListCircuitHiddenModels(now: int) returns (hidden: map<string, CircuitState>)
      ensures forall m :: m in hidden <==> m in circuits && Hidden(circuits[m], now)
      ensures forall m :: m in hidden ==> hidden[m] == circuits[m].state
    {
      hidden := map m | m in circuits && Hidden(circuits[m], now) :: circuits[m].state;
    }
  }

  function Put(circuits: map<string, Circuit>, model: string, row: Option<Circuit>): map<string, Circuit> {
    if row.Some? then circuits[model := row.value] else circuits
  }

  function Swept(row: Option<Circuit>, rate: int, cfg: SweepConfig, now: int, kernel: bool): Option<Circuit> {
    Some(if kernel then KernelVerdict(Row(row), rate, cfg, now) else GoVerdict(Row(row), rate, cfg, now))
  }

  predicate Blocked(row: Option<Circuit>, now: int) {
    row.Some? && (row.value.state == Permanent || (row.value.state == Open && row.value.openUntil > now))
  }

  predicate Hidden(c: Circuit, now: int) {
    c.permanent || (c.state == Open && c.openUntil > now)
  }

  // ---- The two verdicts agree -------------------------------------------------

  /** The flag mirrors the state, and a closed record has no deadline. */
  predicate Coherent(c: Circuit) {
    (c.permanent <==> c.state == Permanent) && (c.state == Closed ==> c.openUntil == 0)
  }

  predicate MidRange(rate: int, cfg: SweepConfig) {
    !Healthy(rate, cfg) && !SubFloor(rate, cfg)
  }

  /** State, count and flag always agree. If the result is not permanent the records are equal, except
      for the deadline of a mid-range sweep whose backoff has overflowed; a permanent result keeps Go's
      old deadline and drops Rust's to zero. */
  lemma VerdictsAgree(c: Circuit, rate: int, cfg: SweepConfig, now: int)
    requires Coherent(c) && cfg.base >= 1
    ensures var g, k := GoVerdict(c, rate, cfg, now), KernelVerdict(c, rate, cfg, now);
            && g.state == k.state && g.badSweeps == k.badSweeps && g.permanent == k.permanent
            && g.fails == k.fails == c.fails && Coherent(g) && Coherent(k)
            && (g.state != Permanent ==>
                  (g == k <==> !MidRange(rate, cfg) || CoolsAlike(cfg.base, Max(0, c.badSweeps - 1), 0)))
            && (g.state == Permanent ==> g.openUntil == c.openUntil && k.openUntil == 0)
  {
    var doublings := Max(0, c.badSweeps - 1);
    WholeSecondsAgreeIff(cfg.base, doublings);
    hide GoCooldown, Cooldown, CoolsAlike;
  }

  lemma WholeSecondsAgreeIff(base: int, doublings: nat)
    requires base >= 1
    ensures WholeSeconds(GoCooldown(base * NS, doublings)) == Cooldown(base, doublings)
      <==> CoolsAlike(base, doublings, 0)
  {
    DeadlinesAgreeIff(base, doublings, 0);
    PowMonotone(0, doublings);
    assert base * Pow2(doublings) >= 1;
    hide Pow2, CoolsAlike;
  }

  // ---- History ----------------------------------------------------------------

  datatype Op =
    | Sweep(rate: int, kernel: bool, now: int)
    | PassiveFailure(now: int)
    | PassiveSuccess
    | ManualReset

  datatype Settings = Settings(sweep: SweepConfig, threshold: int, cooldown: int)

  function Apply(row: Option<Circuit>, op: Op, s: Settings): Option<Circuit> {
    match op
    case Sweep(rate, kernel, now) => Swept(row, rate, s.sweep, now, kernel)
    case PassiveFailure(now) => Failed(row, s.threshold, s.cooldown, now)
    case PassiveSuccess => Succeeded(row)
    case ManualReset => Cleared(row)
  }

  function After(ops: seq<Op>, s: Settings): Option<Circuit> {
    if ops == [] then None else Apply(After(ops[..|ops| - 1], s), ops[|ops| - 1], s)
  }

  predicate Clears(op: Op, s: Settings) {
    op.ManualReset? || (op.Sweep? && op.rate >= s.sweep.threshold)
  }

  predicate Bad(op: Op, s: Settings) {
    op.Sweep? && op.rate < s.sweep.threshold && op.rate < s.sweep.floor
  }

  function CountBad(ops: seq<Op>, s: Settings): nat {
    if ops == [] then 0 else (if Bad(ops[0], s) then 1 else 0) + CountBad(ops[1..], s)
  }

  /** The part of the history after the last healthy sweep or manual reset. */
  function SinceClear(ops: seq<Op>, s: Settings): (tail: seq<Op>)
    ensures exists i :: 0 <= i <= |ops| && tail == ops[i..] && (i > 0 ==> Clears(ops[i - 1], s))
    ensures forall i :: 0 <= i < |tail| ==> !Clears(tail[i], s)
  {
    if ops == [] || Clears(ops[|ops| - 1], s) then
      assert [] == ops[|ops|..];
      []
    else
      var pre := SinceClear(ops[..|ops| - 1], s);
      var i :| 0 <= i < |ops| && pre == ops[..|ops| - 1][i..] && (i > 0 ==> Clears(ops[i - 1], s));
      assert pre + [ops[|ops| - 1]] == ops[i..];
      pre + [ops[|ops| - 1]]
  }

  /** Some sub-floor sweep, not followed by a manual reset, took the count to the limit. */
  ghost predicate Condemned(ops: seq<Op>, s: Settings) {
    exists k :: 0 <= k < |ops| && CondemnedAt(ops, k, s)
  }

  predicate CondemnedAt(ops: seq<Op>, k: nat, s: Settings)
    requires k < |ops|
  {
    && Bad(ops[k], s)
    && CountBad(SinceClear(ops[..k + 1], s), s) >= s.sweep.badToPermanent
    && forall j :: k < j < |ops| ==> !ops[j].ManualReset?
  }

  lemma {:induction false} CountBadAppend(ops: seq<Op>, op: Op, s: Settings)
    ensures CountBad(ops + [op], s) == CountBad(ops, s) + if Bad(op, s) then 1 else 0
  {
    if ops == [] {
      assert ops + [op] == [op];
    } else {
      CountBadAppend(ops[1..], op, s);
      assert (ops + [op])[1..] == ops[1..] + [op];
    }
  }

  lemma CondemnedEarlier(ops: seq<Op>, k: nat, s: Settings)
    requires k < |ops| - 1
    ensures CondemnedAt(ops, k, s) <==> CondemnedAt(ops[..|ops| - 1], k, s) && !ops[|ops| - 1].ManualReset?
  {
    hide SinceClear, CountBad, Bad;
    assert ops[..|ops| - 1][..k + 1] == ops[..k + 1];
  }

  lemma CondemnedNow(ops: seq<Op>, s: Settings)
    requires ops != []
    ensures var op := ops[|ops| - 1];
            CondemnedAt(ops, |ops| - 1, s) <==> Bad(op, s) && CountBad(SinceClear(ops, s), s) >= s.sweep.badToPermanent
  {
    hide SinceClear, CountBad, Bad;
    assert ops[..|ops| - 1 + 1] == ops;
  }

  lemma CondemnedStep(ops: seq<Op>, s: Settings)
    requires ops != []
    ensures var pre, op := ops[..|ops| - 1], ops[|ops| - 1];
            Condemned(ops, s) <==>
              !op.ManualReset?
              && (Condemned(pre, s) || (Bad(op, s) && CountBad(SinceClear(ops, s), s) >= s.sweep.badToPermanent))
  {
    var n := |ops| - 1;
    CondemnedNow(ops, s);
    forall k | 0 <= k < n ensures CondemnedAt(ops, k, s) <==> CondemnedAt(ops[..n], k, s) && !ops[n].ManualReset? {
      CondemnedEarlier(ops, k, s);
    }
    hide CondemnedAt, SinceClear, CountBad;
    assert Condemned(ops, s) <==> CondemnedAt(ops, n, s) || exists k :: 0 <= k < n && CondemnedAt(ops, k, s);
  }

  function NextCount(count: nat, op: Op, s: Settings): nat {
    if Clears(op, s) then 0 else if Bad(op, s) then count + 1 else count
  }

  lemma CountStep(ops: seq<Op>, s: Settings)
    requires ops != []
    ensures CountBad(SinceClear(ops, s), s)
      == NextCount(CountBad(SinceClear(ops[..|ops| - 1], s), s), ops[|ops| - 1], s)
  {
    CountBadAppend(SinceClear(ops[..|ops| - 1], s), ops[|ops| - 1], s);
  }

  /** The record against a bad-sweep count and whether the count reached the limit. */
  predicate Exact(row: Option<Circuit>, count: nat, condemned: bool) {
    && Coherent(Row(row)) && Row(row).badSweeps == count
    && (Row(row).state == Permanent <==> condemned) && Row(row).state != HalfOpen
  }

  lemma OpExact(row: Option<Circuit>, count: nat, condemned: bool, op: Op, s: Settings)
    requires Exact(row, count, condemned) && s.sweep.base >= 1
    ensures var next := NextCount(count, op, s);
            var condemns := Bad(op, s) && next >= s.sweep.badToPermanent;
            Exact(Apply(row, op, s), next, !op.ManualReset? && (condemned || condemns))
  {
    hide Cooldown, GoCooldown, CoolsAlike;
    if op.Sweep? {
      VerdictsAgree(Row(row), op.rate, s.sweep, op.now);
    }
  }

  /** Over any history of sweeps, with or without the kernel, passive feedback and manual resets: the
      bad-sweep count is the number of sub-floor sweeps since the last healthy sweep or manual reset
      (mid-range sweeps in between do not reset it), and the record is permanent exactly when that
      count has reached the limit since the last manual reset. */
  lemma {:induction false} HistoryExact(ops: seq<Op>, s: Settings)
    requires s.sweep.base >= 1
    ensures Exact(After(ops, s), CountBad(SinceClear(ops, s), s), Condemned(ops, s))
  {
    if ops != [] {
      hide Condemned, CountBad, SinceClear, Exact, Apply, NextCount;
      var pre, op := ops[..|ops| - 1], ops[|ops| - 1];
      HistoryExact(pre, s);
      CondemnedStep(ops, s);
      CountStep(ops, s);
      OpExact(After(pre, s), CountBad(SinceClear(pre, s), s), Condemned(pre, s), op, s);
    }
  }

  // ---- When a model is blocked ------------------------------------------------

  /** The passive failures since the last passive success or manual reset. */
  function FailuresSince(ops: seq<Op>): nat {
    if ops == [] then 0
    else
      match ops[|ops| - 1]
      case PassiveFailure(_) => FailuresSince(ops[..|ops| - 1]) + 1
      case Sweep(_, _, _) => FailuresSince(ops[..|ops| - 1])
      case _ => 0
  }

  /** The seconds an unhealthy sweep blocks for: the base cooldown below the floor; in between, the base
      doubled for each sub-floor sweep after the first, ten minutes at most, by the kernel's arithmetic or by
      Go's on 64-bit nanoseconds. */
  function SweepDelay(rate: int, kernel: bool, bad: nat, cfg: SweepConfig): int {
    var doublings := if bad <= 1 then 0 else bad - 1;
    if rate < cfg.floor then cfg.base
    else if kernel then Cooldown(cfg.base, doublings)
    else WholeSeconds(GoCooldown(cfg.base * NS, doublings))
  }

  /** The time until which the history blocks the model, short of for good: set by the last unhealthy sweep,
      or by the last failure that reached the threshold, unless a healthy sweep, a success or a reset came
      after it. */
  function Deadline(ops: seq<Op>, s: Settings): Option<int> {
    if ops == [] then None
    else
      var op := ops[|ops| - 1];
      match op
      case Sweep(rate, kernel, now) =>
        if rate >= s.sweep.threshold then None
        else Some(now + SweepDelay(rate, kernel, CountBad(SinceClear(ops, s), s), s.sweep))
      case PassiveFailure(now) =>
        if 1 <= s.threshold <= FailuresSince(ops) then Some(now + s.cooldown) else Deadline(ops[..|ops| - 1], s)
      case _ => None
  }

  /** The record against the history, as long as it is not permanent. */
  predicate Timed(row: Option<Circuit>, fails: nat, deadline: Option<int>, s: Settings) {
    var c := Row(row);
    && c.state == (if deadline.Some? then Open else Closed)
    && (deadline.Some? ==> c.openUntil == deadline.value)
    && (s.threshold >= 1 ==> c.fails == fails)
  }

  predicate FailsAre(row: Option<Circuit>, fails: nat, s: Settings) {
    s.threshold >= 1 ==> Row(row).fails == fails
  }

  lemma SweptTimed(row: Option<Circuit>, rate: int, cfg: SweepConfig, now: int, kernel: bool)
    requires Coherent(Row(row)) && Row(row).state != Permanent
    requires Row(Swept(row, rate, cfg, now, kernel)).state != Permanent
    ensures var c := Row(Swept(row, rate, cfg, now, kernel));
            && c.fails == Row(row).fails
            && (rate >= cfg.threshold ==> c.state == Closed)
            && (rate < cfg.threshold ==>
                  c.state == Open && c.openUntil == now + SweepDelay(rate, kernel, c.badSweeps, cfg))
  {
    hide Cooldown, GoCooldown, WholeSeconds;
  }

  lemma SweepSets(ops: seq<Op>, s: Settings)
    requires ops != [] && ops[|ops| - 1].Sweep?
    ensures var op := ops[|ops| - 1];
            var bad := CountBad(SinceClear(ops, s), s);
            Deadline(ops, s) == if op.rate >= s.sweep.threshold then None
                                else Some(op.now + SweepDelay(op.rate, op.kernel, bad, s.sweep))
  {
    hide CountBad, SinceClear, SweepDelay;
  }

  lemma SweepTimed(row: Option<Circuit>, ops: seq<Op>, s: Settings)
    requires ops != [] && ops[|ops| - 1].Sweep? && Coherent(Row(row)) && Row(row).state != Permanent
    requires FailsAre(row, FailuresSince(ops), s)
    requires Row(Apply(row, ops[|ops| - 1], s)).state != Permanent
    requires Row(Apply(row, ops[|ops| - 1], s)).badSweeps == CountBad(SinceClear(ops, s), s)
    ensures Timed(Apply(row, ops[|ops| - 1], s), FailuresSince(ops), Deadline(ops, s), s)
  {
    var op := ops[|ops| - 1];
    SweptTimed(row, op.rate, s.sweep, op.now, op.kernel);
    SweepSets(ops, s);
    hide CountBad, SinceClear, SweepDelay, FailuresSince, Swept, Coherent, Deadline;
  }

  lemma PassiveTimed(row: Option<Circuit>, ops: seq<Op>, s: Settings)
    requires ops != [] && !ops[|ops| - 1].Sweep?
    requires Coherent(Row(row)) && Row(row).state != Permanent
    requires Timed(row, FailuresSince(ops[..|ops| - 1]), Deadline(ops[..|ops| - 1], s), s)
    ensures Timed(Apply(row, ops[|ops| - 1], s), FailuresSince(ops), Deadline(ops, s), s)
  {
  }

  /** Over any history the record is permanent, or it has exactly the history's deadline and count of
      passive failures. */
  lemma {:induction false} DeadlineExact(ops: seq<Op>, s: Settings)
    requires s.sweep.base >= 1
    ensures Condemned(ops, s) || Timed(After(ops, s), FailuresSince(ops), Deadline(ops, s), s)
  {
    HistoryExact(ops, s);
    if ops != [] && !Condemned(ops, s) {
      var pre, op := ops[..|ops| - 1], ops[|ops| - 1];
      HistoryExact(pre, s);
      CondemnedStep(ops, s);
      if op.ManualReset? {
        ResetTimed(ops, s);
      } else {
        DeadlineExact(pre, s);
        hide Condemned, CountBad, SinceClear;
        if op.Sweep? {
          SweepTimed(After(pre, s), ops, s);
        } else {
          PassiveTimed(After(pre, s), ops, s);
        }
      }
    }
  }

  lemma ResetTimed(ops: seq<Op>, s: Settings)
    requires ops != [] && ops[|ops| - 1].ManualReset?
    ensures Timed(After(ops, s), FailuresSince(ops), Deadline(ops, s), s)
  {
  }

  /** So at every time a model's requests are refused if and only if its history has condemned it or its
      deadline lies ahead. */
  lemma BlockedExactly(ops: seq<Op>, s: Settings, t: int)
    requires s.sweep.base >= 1
    ensures Blocked(After(ops, s), t) <==> Condemned(ops, s) || (Deadline(ops, s).Some? && t < Deadline(ops, s).value)
  {
    DeadlineExact(ops, s);
    HistoryExact(ops, s);
    hide Condemned, Deadline, After, FailuresSince, CountBad, SinceClear;
  }

  /** The record shows the rate and the time of the last sweep. */
  lemma {:induction false} LastSweepShown(ops: seq<Op>, s: Settings)
    ensures var c, k := Row(After(ops, s)), LastSweep(ops);
            if k == |ops| then c.ratePct == 100 && c.lastSweep == 0
            else k < |ops| && ops[k].Sweep? && c.ratePct == ops[k].rate && c.lastSweep == ops[k].now
    ensures forall i :: LastSweep(ops) < i < |ops| ==> !ops[i].Sweep?
    ensures LastSweep(ops) == |ops| ==> forall i :: 0 <= i < |ops| ==> !ops[i].Sweep?
  {
    if ops != [] {
      LastSweepShown(ops[..|ops| - 1], s);
      hide Cooldown, GoCooldown;
    }
  }

  /** The position of the last sweep, or the length if there is none. */
  function LastSweep(ops: seq<Op>): (k: nat)
    ensures k <= |ops|
  {
    if ops == [] then 0
    else
      var n := |ops| - 1;
      if ops[n].Sweep? then n
      else if LastSweep(ops[..n]) == n then |ops|
      else LastSweep(ops[..n])
  }

  // ---- Hidden models ----------------------------------------------------------

  datatype ModelOp = ModelOp(model: string, op: Op)

  function Table(ops: seq<ModelOp>, s: Settings): map<string, Circuit> {
    if ops == [] then map[]
    else
      var t, o := Table(ops[..|ops| - 1], s), ops[|ops| - 1];
      Put(t, o.model, Apply(Lookup(t, o.model), o.op, s))
  }

  function Lookup(t: map<string, Circuit>, model: string): Option<Circuit> {
    if model in t then Some(t[model]) else None
  }

  function OpsOn(ops: seq<ModelOp>, model: string): seq<Op> {
    if ops == [] then []
    else
      var pre, o := OpsOn(ops[..|ops| - 1], model), ops[|ops| - 1];
      if o.model == model then pre + [o.op] else pre
  }

  lemma {:induction false} TableIsPerModel(ops: seq<ModelOp>, s: Settings, model: string)
    ensures Lookup(Table(ops, s), model) == After(OpsOn(ops, model), s)
  {
    if ops != [] {
      TableIsPerModel(ops[..|ops| - 1], s, model);
      var pre, o := OpsOn(ops[..|ops| - 1], model), ops[|ops| - 1];
      if o.model == model {
        assert (pre + [o.op])[..|pre|] == pre;
        NeverDeletes(After(pre, s), o.op, s);
      }
      hide Apply;
    }
  }

  lemma NeverDeletes(row: Option<Circuit>, op: Op, s: Settings)
    ensures row.Some? ==> Apply(row, op, s).Some?
  {
  }

  /** The models hidden from the list are, at every time, exactly those whose requests are refused. */
  lemma HiddenIsBlocked(ops: seq<ModelOp>, s: Settings, model: string, now: int)
    requires s.sweep.base >= 1
    ensures var t := Table(ops, s);
            (model in t && Hidden(t[model], now)) <==> Blocked(Lookup(t, model), now)
  {
    TableIsPerModel(ops, s, model);
    HistoryExact(OpsOn(ops, model), s);
  }

  // ---- The consecutive-failure count ------------------------------------------

  /** A healthy sweep closes the circuit without touching the consecutive-failure count, so whether
      the very next passive failure reopens it depends only on the failures before the sweep. */
  lemma HealthySweepKeepsFailures(c: Circuit, rate: int, s: Settings, t1: int, t2: int)
    requires c.state != Permanent && Healthy(rate, s.sweep) && s.threshold >= 1
    ensures var closed := GoVerdict(c, rate, s.sweep, t1);
            && closed.state == Closed && closed.fails == c.fails
            && (Failed(Some(closed), s.threshold, s.cooldown, t2).value.state == Open <==> c.fails + 1 >= s.threshold)
  {
  }

  /** A passive success does give a clean slate: it takes `threshold` further failures to reopen. */
  lemma {:induction false} SuccessGivesCleanSlate(c: Circuit, s: Settings, n: nat, now: int)
    requires c.state != Permanent
    ensures var row := FailedTimes(Succeeded(Some(c)), s, n, now);
            && row.Some? && row.value.state != Permanent
            && row.value.fails == (if s.threshold >= 1 then n else 0)
            && (row.value.state == Open <==> 1 <= s.threshold <= n)
  {
    if n > 0 {
      SuccessGivesCleanSlate(c, s, n - 1, now);
    }
  }

  function FailedTimes(row: Option<Circuit>, s: Settings, n: nat, now: int): Option<Circuit> {
    if n == 0 then row else Failed(FailedTimes(row, s, n - 1, now), s.threshold, s.cooldown, now)
  }
}
