/** The settings that decide how many keys are dispatched: the preset strategies of
    kernel-rs/src/strategy.rs, and `UpdateConfig` and `effectiveConcurrency` of scheduler.go. */
module GoConfig {
  import opened Backoff
  import opened Options
  import opened Selection
  import opened Kernel
  import opened GoScheduler
  import opened GoRefinement

  // ---- Presets ----------------------------------------------------------------

  datatype Preset = Preset(id: string, strategy: Strategy, breakerThreshold: int, breakerCooldown: int)

  const PRESETS: seq<Preset> := [
    Preset("guardian", Strategy(StrictPriority, 1, 0.8), 20, 60),
    Preset("balanced", Strategy(WeightedRandom, 0, 1.0), 5, 30),
    Preset("velocity", Strategy(LeastInflight, 0, 1.0), 5, 30),
    Preset("fairshare", Strategy(RoundRobin, 1, 1.0), 5, 30),
    Preset("adaptive", Strategy(WeightedRandom, 0, 1.0), 5, 30)
  ]

  /** `by_id`. */
  method ById(id: string) returns (p: Option<Preset>)
    ensures p.Some? ==> p.value in PRESETS && p.value.id == id
    ensures p.None? ==> forall i :: 0 <= i < |PRESETS| ==> PRESETS[i].id != id
  {
    for i := 0 to |PRESETS|
      invariant forall j :: 0 <= j < i ==> PRESETS[j].id != id
    {
      if PRESETS[i].id == id {
        return Some(PRESETS[i]);
      }
    }
    return None;
  }

  predicate IsPreset(s: Strategy) {
    exists i :: 0 <= i < |PRESETS| && PRESETS[i].strategy == s
  }

  // ---- The scheduler's configuration ------------------------------------------

  datatype SchedulerConfig = SchedulerConfig(
    defaultConcurrency: int, maxConcurrency: int, circuitThreshold: int, circuitCooldown: int, requestTimeout: int)

  predicate Valid(c: SchedulerConfig) {
    && 0 < c.defaultConcurrency <= c.maxConcurrency
    && c.circuitThreshold > 0 && c.circuitCooldown > 0 && c.requestTimeout > 0
  }

  function Chosen(patch: int, current: int): int {
    if patch > 0 then patch else current
  }

  /** Fields that are not positive keep their value. */
  function Merged(c: SchedulerConfig, patch: SchedulerConfig): SchedulerConfig {
    SchedulerConfig(
      Chosen(patch.defaultConcurrency, c.defaultConcurrency), Chosen(patch.maxConcurrency, c.maxConcurrency),
      Chosen(patch.circuitThreshold, c.circuitThreshold), Chosen(patch.circuitCooldown, c.circuitCooldown),
      Chosen(patch.requestTimeout, c.requestTimeout))
  }

  function Updated(c: SchedulerConfig, patch: SchedulerConfig): SchedulerConfig {
    if Valid(Merged(c, patch)) then Merged(c, patch) else c
  }

  /** The Auto-Pilot's override, when positive, wins over the default but not over the maximum. */
  function Effective(c: SchedulerConfig, override: int): int {
    if override <= 0 then c.defaultConcurrency
    else if c.maxConcurrency > 0 && override > c.maxConcurrency then c.maxConcurrency
    else override
  }

  class Settings {
    var config: SchedulerConfig
    var override: int

    method UpdateConfig(patch: SchedulerConfig) returns (ok: bool)
      modifies this`config
      ensures ok <==> Valid(Merged(old(config), patch))
      ensures config == Updated(old(config), patch)
    {
      var next := config;
      if patch.defaultConcurrency > 0 {
        next := next.(defaultConcurrency := patch.defaultConcurrency);
      }
      if patch.maxConcurrency > 0 {
        next := next.(maxConcurrency := patch.maxConcurrency);
      }
      if patch.circuitThreshold > 0 {
        next := next.(circuitThreshold := patch.circuitThreshold);
      }
      if patch.circuitCooldown > 0 {
        next := next.(circuitCooldown := patch.circuitCooldown);
      }
      if patch.requestTimeout > 0 {
        next := next.(requestTimeout := patch.requestTimeout);
      }
      if next.defaultConcurrency <= 0 || next.maxConcurrency < next.defaultConcurrency
         || next.circuitThreshold <= 0 || next.circuitCooldown <= 0 || next.requestTimeout <= 0 {
        return false;
      }
      config := next;
      return true;
    }

    method EffectiveConcurrency() returns (n: int)
      ensures n == Effective(config, override)
    {
      if override > 0 {
        if config.maxConcurrency > 0 && override > config.maxConcurrency {
          return config.maxConcurrency;
        }
        return override;
      }
      return config.defaultConcurrency;
    }
  }

  function After(c: SchedulerConfig, patches: seq<SchedulerConfig>): SchedulerConfig {
    if patches == [] then c else Updated(After(c, patches[..|patches| - 1]), patches[|patches| - 1])
  }

  /** One setting after some patches: the positive value of the latest accepted patch that has one, or that
      of the start. */
  function Latest(c: SchedulerConfig, patches: seq<SchedulerConfig>, field: SchedulerConfig -> int): int {
    if patches == [] then field(c)
    else
      var pre, last := patches[..|patches| - 1], patches[|patches| - 1];
      if field(last) > 0 && Accepted(c, pre, last) then field(last) else Latest(c, pre, field)
  }

  /** A patch is accepted when, with the fields it does not set as they stand, the default is positive and
      not above the maximum; the other fields are then positive too. */
  predicate Accepted(c: SchedulerConfig, pre: seq<SchedulerConfig>, patch: SchedulerConfig) {
    var now := After(c, pre);
    (if patch.defaultConcurrency > 0 then patch.defaultConcurrency else now.defaultConcurrency)
      <= if patch.maxConcurrency > 0 then patch.maxConcurrency else now.maxConcurrency
  }

  /** Every setting is that of the latest accepted patch that sets it. */
  lemma {:induction false} LatestPatchHolds(c: SchedulerConfig, patches: seq<SchedulerConfig>)
    requires Valid(c)
    ensures Valid(After(c, patches))
    ensures var now := After(c, patches);
            && now.defaultConcurrency == Latest(c, patches, (p: SchedulerConfig) => p.defaultConcurrency)
            && now.maxConcurrency == Latest(c, patches, (p: SchedulerConfig) => p.maxConcurrency)
            && now.circuitThreshold == Latest(c, patches, (p: SchedulerConfig) => p.circuitThreshold)
            && now.circuitCooldown == Latest(c, patches, (p: SchedulerConfig) => p.circuitCooldown)
            && now.requestTimeout == Latest(c, patches, (p: SchedulerConfig) => p.requestTimeout)
  {
    if patches != [] {
      LatestPatchHolds(c, patches[..|patches| - 1]);
    }
  }

  /** Whatever patches are accepted or refused and whatever the Auto-Pilot asks for, at least one key
      and at most the maximum is dispatched. */
  lemma {:induction false} EffectiveInRange(c: SchedulerConfig, patches: seq<SchedulerConfig>, override: int)
    requires Valid(c)
    ensures Valid(After(c, patches))
    ensures var now, n := After(c, patches), Effective(After(c, patches), override);
            && 1 <= n <= now.maxConcurrency
            && (override <= 0 ==> n == now.defaultConcurrency)
            && (override > 0 ==> n == if override <= now.maxConcurrency then override else now.maxConcurrency)
  {
    if patches != [] {
      EffectiveInRange(c, patches[..|patches| - 1], override);
    }
  }

  // ---- The refinement under these settings ------------------------------------

  lemma PresetShape(s: Strategy)
    requires IsPreset(s)
    ensures (s.fanout == 0 || s.fanout == 1) && 0.0 < s.headroom <= 1.0
  {
    var i :| 0 <= i < |PRESETS| && PRESETS[i].strategy == s;
    assert i < 5;
  }

  /** Under any configuration that can be reached and any preset, the degrade path and the kernel hand
      out the same keys: the concurrency is always wide enough. */
  lemma PresetsRefine(
    s: State, g: GoState, c: SchedulerConfig, patches: seq<SchedulerConfig>, override: int,
    clock: Clock, t2: real, env: Env, draws: seq<real>)
    requires Valid(c) && IsPreset(g.active)
    requires |draws| >= |g.rows| && DistinctRows(g.rows) && Match(s, g, env, clock.t) && clock.t <= t2
    ensures var n := Effective(After(c, patches), override);
            var k := Reserve(s, ReserveReq(n, Offers(g.rows, |g.rows|, env, clock.now)), clock, t2, draws, env.span);
            var go := GoReserve(g, n, clock, t2, env, draws);
            go.1 == k.1.reserved && Match(k.0, go.0, env, t2) && Evolved(g.rows, go.0.rows, |g.rows|)
  {
    PresetShape(g.active);
    EffectiveInRange(c, patches, override);
    hide IsPreset, Match, DistinctRows, Offers, GoSelect, Reserve, GoReserve, Evolved;
    DegradePathRefinesKernel(s, g, Effective(After(c, patches), override), clock, t2, env, draws);
  }
}
