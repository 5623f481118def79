/** Runs of requests on both sides: selections and the settlements that follow them, in any order and
    from any number of requests under way at once. */
module RequestRuns {
  import opened Backoff
  import opened Options
  import TB = TokenBuckets
  import HW = HealthWindows
  import opened Selection
  import opened Kernel
  import opened GoScheduler
  import opened GoRefinement
  import opened GoFeedback

  /** A selection comes with the boosts and in-flight counts of its moment. */
  datatype Turn =
    | Select(concurrency: int, clock: Clock, t2: real, draws: seq<real>, boost: map<int, real>, inflight: map<int, int>)
    | Settle(d: Settlement, clock: Clock, frac: int)

  function EnvOf(env: Env, turn: Turn): Env {
    if turn.Select? then Loaded(env, turn.boost, turn.inflight) else env
  }

  function EndOf(turn: Turn): real {
    if turn.Select? then turn.t2 else turn.clock.t
  }

  /** What holds of every turn there is: enough draws, a clock that does not run backwards, and one
      worker for each key of a dispatch. */
  predicate WellFormed(g: GoState, cfg: Config, env: Env, turn: Turn) {
    match turn
    case Select(_, clock, t2, draws, _, _) => |draws| >= |g.rows| && clock.t <= t2
    case Settle(d, _, frac) => Sensible(cfg, frac, env) && OneEach(d.answers)
  }

  function GoTurn(g: GoState, cfg: Config, env: Env, turn: Turn): (GoState, seq<int>)
    requires WellFormed(g, cfg, env, turn)
  {
    match turn
    case Select(concurrency, clock, t2, draws, _, _) => GoReserve(g, concurrency, clock, t2, EnvOf(env, turn), draws)
    case Settle(d, clock, frac) => (Settled(g, d, cfg, clock, frac, env), [])
  }

  /** The kernel, offered the keys of the same rows and told of the same replies. */
  function KernelSide(s: State, g: GoState, cfg: Config, env: Env, turn: Turn): (State, seq<int>)
    requires WellFormed(g, cfg, env, turn)
  {
    match turn
    case Select(concurrency, clock, t2, draws, _, _) =>
      var cands := Offers(g.rows, |g.rows|, EnvOf(env, turn), clock.now);
      var out := Reserve(s, ReserveReq(concurrency, cands), clock, t2, draws, env.span);
      (out.0, out.1.reserved)
    case Settle(d, clock, frac) => (FeedAll(s, ItemsOf(g.rows, d.answers, d.stream), cfg, clock).st, [])
  }

  /** The exact condition for one turn. */
  predicate Agreeable(s: State, g: GoState, cfg: Config, env: Env, turn: Turn)
    requires WellFormed(g, cfg, env, turn)
  {
    match turn
    case Select(concurrency, clock, t2, draws, _, _) =>
      WideEnough(g.active, concurrency, |GoSelect(g, clock, EnvOf(env, turn), draws).1|)
    case Settle(d, clock, frac) =>
      forall i :: 0 <= i < |g.rows| && g.rows[i].enabled ==> FollowsAt(s, g, d, cfg, clock.now, frac, env, i)
  }

  /** One turn: both sides hand out the same keys and still match if and only if the selection is wide
      enough, or every enabled key follows. */
  lemma TurnAgreesIff(s: State, g: GoState, cfg: Config, env: Env, turn: Turn)
    requires WellFormed(g, cfg, env, turn) && DistinctRows(g.rows) && Match(s, g, env, turn.clock.t)
    ensures var k, go := KernelSide(s, g, cfg, env, turn), GoTurn(g, cfg, env, turn);
            && (go.1 == k.1 && Match(k.0, go.0, env, EndOf(turn)) <==> Agreeable(s, g, cfg, env, turn))
            && Evolved(g.rows, go.0.rows, |g.rows|)
  {
    match turn
    case Select(concurrency, clock, t2, draws, boost, inflight) =>
      var loaded := Loaded(env, boost, inflight);
      MatchIgnoresLoad(s, g, env, boost, inflight, clock.t);
      DegradePathRefinesKernel(s, g, concurrency, clock, t2, loaded, draws);
      var k, go := KernelSide(s, g, cfg, env, turn), GoTurn(g, cfg, env, turn);
      MatchIgnoresLoad(k.0, go.0, env, boost, inflight, t2);
      hide Match, Reserve, GoReserve, GoSelect, Offers, WideEnough, Evolved, DistinctRows;
    case Settle(d, clock, frac) =>
      DispatchAgreesIff(s, g, d, cfg, clock, frac, env);
      hide Match, FeedAll, Settled, FollowsAt, ItemsOf, Evolved, DistinctRows;
  }

  // ---- Runs -------------------------------------------------------------------

  predicate WellTimed(g: GoState, cfg: Config, env: Env, t0: real, turns: seq<Turn>)
    decreases |turns|
  {
    turns == []
    || (t0 <= turns[0].clock.t && WellFormed(g, cfg, env, turns[0])
        && WellTimed(GoTurn(g, cfg, env, turns[0]).0, cfg, env, EndOf(turns[0]), turns[1..]))
  }

  /** Turn after turn both sides hand out the same keys and still match. */
  ghost predicate InLockStep(s: State, g: GoState, cfg: Config, env: Env, t0: real, turns: seq<Turn>)
    requires WellTimed(g, cfg, env, t0, turns)
    decreases |turns|
  {
    turns == []
    || (var k, go := KernelSide(s, g, cfg, env, turns[0]), GoTurn(g, cfg, env, turns[0]);
        && go.1 == k.1 && Match(k.0, go.0, env, EndOf(turns[0]))
        && InLockStep(k.0, go.0, cfg, env, EndOf(turns[0]), turns[1..]))
  }

  predicate AllAgreeable(s: State, g: GoState, cfg: Config, env: Env, t0: real, turns: seq<Turn>)
    requires WellTimed(g, cfg, env, t0, turns)
    decreases |turns|
  {
    turns == []
    || (Agreeable(s, g, cfg, env, turns[0])
        && AllAgreeable(KernelSide(s, g, cfg, env, turns[0]).0, GoTurn(g, cfg, env, turns[0]).0, cfg, env,
          EndOf(turns[0]), turns[1..]))
  }

  lemma StillDistinct(rows: seq<Row>, rows': seq<Row>)
    requires DistinctRows(rows) && Evolved(rows, rows', |rows|)
    ensures DistinctRows(rows')
  {
  }

  /** Any run of selections and settlements stays in lock step if and only if every turn is agreeable:
      until the first transport error of a non-stream request, overflowed cooldown, closing by a stale
      status, check of a key opened meanwhile, stream failure that reaches the threshold, or fan-out
      beyond the concurrency. */
  lemma {:induction false} RunsAgreeIff(s: State, g: GoState, cfg: Config, env: Env, t0: real, turns: seq<Turn>)
    requires WellTimed(g, cfg, env, t0, turns) && DistinctRows(g.rows) && Match(s, g, env, t0)
    ensures InLockStep(s, g, cfg, env, t0, turns) <==> AllAgreeable(s, g, cfg, env, t0, turns)
    decreases |turns|
  {
    if turns != [] {
      var turn := turns[0];
      var k, go := KernelSide(s, g, cfg, env, turn), GoTurn(g, cfg, env, turn);
      hide Match, DistinctRows, Evolved, KernelSide, GoTurn, Agreeable;
      MatchLater(s, g, env, t0, turn.clock.t);
      TurnAgreesIff(s, g, cfg, env, turn);
      StillDistinct(g.rows, go.0.rows);
      if Agreeable(s, g, cfg, env, turn) {
        RunsAgreeIff(k.0, go.0, cfg, env, EndOf(turn), turns[1..]);
      }
    }
  }

  function GoRun(g: GoState, cfg: Config, env: Env, t0: real, turns: seq<Turn>): seq<seq<int>>
    requires WellTimed(g, cfg, env, t0, turns)
    decreases |turns|
  {
    if turns == [] then []
    else
      var go := GoTurn(g, cfg, env, turns[0]);
      [go.1] + GoRun(go.0, cfg, env, EndOf(turns[0]), turns[1..])
  }

  function KernelRun(s: State, g: GoState, cfg: Config, env: Env, t0: real, turns: seq<Turn>): seq<seq<int>>
    requires WellTimed(g, cfg, env, t0, turns)
    decreases |turns|
  {
    if turns == [] then []
    else
      var k, go := KernelSide(s, g, cfg, env, turns[0]), GoTurn(g, cfg, env, turns[0]);
      [k.1] + KernelRun(k.0, go.0, cfg, env, EndOf(turns[0]), turns[1..])
  }

  lemma {:induction false} LockStepOutputs(s: State, g: GoState, cfg: Config, env: Env, t0: real, turns: seq<Turn>)
    requires WellTimed(g, cfg, env, t0, turns) && InLockStep(s, g, cfg, env, t0, turns)
    ensures GoRun(g, cfg, env, t0, turns) == KernelRun(s, g, cfg, env, t0, turns)
    decreases |turns|
  {
    if turns != [] {
      var k, go := KernelSide(s, g, cfg, env, turns[0]), GoTurn(g, cfg, env, turns[0]);
      hide KernelSide, GoTurn, Match, WellFormed;
      LockStepOutputs(k.0, go.0, cfg, env, EndOf(turns[0]), turns[1..]);
    }
  }

  /** So agreeable runs hand out the same keys in the same order throughout. */
  lemma RunsAgree(s: State, g: GoState, cfg: Config, env: Env, t0: real, turns: seq<Turn>)
    requires WellTimed(g, cfg, env, t0, turns) && DistinctRows(g.rows) && Match(s, g, env, t0)
    requires AllAgreeable(s, g, cfg, env, t0, turns)
    ensures GoRun(g, cfg, env, t0, turns) == KernelRun(s, g, cfg, env, t0, turns)
  {
    RunsAgreeIff(s, g, cfg, env, t0, turns);
    LockStepOutputs(s, g, cfg, env, t0, turns);
    hide *;
  }

  // ---- One request after the other --------------------------------------------

  /** A key that is not open has failed less often than the threshold. */
  predicate Below(g: GoState, cfg: Config) {
    forall i :: 0 <= i < |g.rows| && g.rows[i].enabled && g.rows[i].breaker.status != Open ==>
      HW.FailsOf(g.consec, g.rows[i].id) < cfg.threshold
  }

  /** A request of `DispatchCap` that is settled before the next one is selected, without a transport
      error: replies from keys it has selected, with the status they were selected with. */
  predicate Prompt(g: GoState, cfg: Config, env: Env, sel: Turn, settle: Turn) {
    && sel.Select? && settle.Settle? && WellFormed(g, cfg, env, sel)
    && var keys := GoSelect(g, sel.clock, EnvOf(env, sel), sel.draws).1;
       var rows := GoTurn(g, cfg, env, sel).0.rows;
       && WideEnough(g.active, sel.concurrency, |keys|)
       && !settle.d.stream && OneEach(settle.d.answers) && Sensible(cfg, settle.frac, env)
       && (forall r :: r in settle.d.selected ==> r < |rows| && rows[r].id in keys)
       && forall k :: 0 <= k < |settle.d.answers| ==> Timely(settle.d.answers[k], rows, settle.d.selected)
  }

  predicate Timely(a: Answer, rows: seq<Row>, selected: seq<nat>) {
    a.row in selected && a.row < |rows| && a.reply.Http? && (a.halfOpen <==> rows[a.row].breaker.status == HalfOpen)
  }

  lemma GoTurnBelow(q: GoScan, i: nat, clock: Clock, env: Env, cfg: Config)
    requires i < |q.st.rows| && DistinctRows(q.st.rows) && Below(q.st, cfg) && cfg.threshold >= 1
    ensures var q' := GoConsider(q, i, clock, env);
            Below(q'.st, cfg) && Evolved(q.st.rows, q'.st.rows, |q.st.rows|)
  {
    hide TB.Refill, TB.Admits, GoFresh;
  }

  lemma {:induction false} ScanBelow(g: GoState, n: nat, clock: Clock, env: Env, cfg: Config)
    requires n <= |g.rows| && DistinctRows(g.rows) && Below(g, cfg) && cfg.threshold >= 1
    ensures var q := GoScanTo(g, n, clock, env);
            Below(q.st, cfg) && Evolved(g.rows, q.st.rows, |g.rows|)
  {
    if n > 0 {
      ScanBelow(g, n - 1, clock, env, cfg);
      var q := GoScanTo(g, n - 1, clock, env);
      StillDistinct(g.rows, q.st.rows);
      GoTurnBelow(q, n - 1, clock, env, cfg);
      SameRows(g.rows, q.st.rows, GoScanTo(g, n, clock, env).st.rows);
      hide Below, Evolved, GoConsider, DistinctRows;
    }
  }

  lemma SelectBelow(g: GoState, concurrency: int, clock: Clock, t2: real, env: Env, draws: seq<real>, cfg: Config)
    requires |draws| >= |g.rows| && DistinctRows(g.rows) && Below(g, cfg) && cfg.threshold >= 1
    ensures Below(GoReserve(g, concurrency, clock, t2, env, draws).0, cfg)
  {
    ScanBelow(g, |g.rows|, clock, env, cfg);
    hide GoScanTo, Items, Order, Spend, DistinctRows;
  }

  lemma PromptAnswer(answers: seq<Answer>, rows: seq<Row>, selected: seq<nat>, i: nat)
    requires forall k :: 0 <= k < |answers| ==> Timely(answers[k], rows, selected)
    ensures var a := AnswerOf(answers, i);
            a.Some? ==> Timely(a.value, rows, selected) && a.value.row == i
    decreases |answers|
  {
    if answers != [] {
      PromptAnswer(answers[..|answers| - 1], rows, selected, i);
    }
  }

  /** A selected key follows, whatever its reply over HTTP: its first opening cannot overflow. */
  lemma SelectedFollows(v: GoKey, a: Option<Answer>, rpm: int, cfg: Config, now: int, frac: int, env: Env)
    requires Sensible(cfg, frac, env) && cfg.base * NS < TWO_63 && v.breaker.status != Open && v.fails < cfg.threshold
    requires a.Some? ==> a.value.reply.Http? && (a.value.halfOpen <==> v.breaker.status == HalfOpen)
    ensures Follows(v, a, false, true, true, rpm, cfg, now, frac)
  {
    assert Pow2(0) == 1;
    hide Pow2, GoDelay, Cooldown;
  }

  lemma PromptFollows(
      s: State, g: GoState, keys: seq<int>, d: Settlement, cfg: Config, now: int, frac: int, env: Env, i: nat)
    requires Sensible(cfg, frac, env) && cfg.base * NS < TWO_63 && DistinctRows(g.rows) && Below(g, cfg)
    requires i < |g.rows| && !d.stream
    requires forall r :: r in d.selected ==> r < |g.rows| && g.rows[r].id in keys
    requires forall k :: 0 <= k < |d.answers| ==> Timely(d.answers[k], g.rows, d.selected)
    requires forall id :: id in keys ==> Earlier(g.rows, |g.rows|, id) && id in s.buckets
    ensures FollowsAt(s, g, d, cfg, now, frac, env, i)
  {
    PromptAnswer(d.answers, g.rows, d.selected, i);
    hide AnswerOf, OneEach;
    if i in d.selected {
      var id := g.rows[i].id;
      assert Earlier(g.rows, |g.rows|, id);
      var j :| 0 <= j < |g.rows| && g.rows[j].id == id && g.rows[j].enabled && g.rows[j].breaker.status != Open;
      assert i == j;
      SelectedFollows(GoView(g, i), AnswerOf(d.answers, i), KeyRPM(g.rows[i], env), cfg, now, frac, env);
      hide Follows;
    }
  }

  lemma SettleBelow(g: GoState, d: Settlement, cfg: Config, clock: Clock, frac: int, env: Env)
    requires DistinctRows(g.rows) && OneEach(d.answers) && Below(g, cfg) && !d.stream
    requires forall k :: 0 <= k < |d.answers| ==> Timely(d.answers[k], g.rows, d.selected)
    ensures Below(Settled(g, d, cfg, clock, frac, env), cfg)
  {
    var g' := Settled(g, d, cfg, clock, frac, env);
    SettleEvolves(g, d, cfg, clock, frac, env);
    forall i | 0 <= i < |g'.rows| && g'.rows[i].enabled && g'.rows[i].breaker.status != Open
      ensures HW.FailsOf(g'.consec, g'.rows[i].id) < cfg.threshold
    {
      GoSettles(g, d, cfg, clock, frac, env, i);
      PromptAnswer(d.answers, g.rows, d.selected, i);
      assert GoView(g', i).fails == HW.FailsOf(g'.consec, g'.rows[i].id);
      hide Settled, GoDelay, AnswerOf, HW.Recorded, TB.Calibrated;
    }
  }

  /** A prompt request is agreeable in both its turns, and leaves every key that is not open below the
      threshold again. */
  lemma PromptAgrees(s: State, g: GoState, cfg: Config, env: Env, sel: Turn, settle: Turn)
    requires Prompt(g, cfg, env, sel, settle) && cfg.base * NS < TWO_63 && EndOf(sel) <= settle.clock.t
    requires DistinctRows(g.rows) && Below(g, cfg) && Match(s, g, env, sel.clock.t)
    ensures var k1, go1 := KernelSide(s, g, cfg, env, sel).0, GoTurn(g, cfg, env, sel).0;
            && Agreeable(s, g, cfg, env, sel) && WellFormed(go1, cfg, env, settle)
              && Agreeable(k1, go1, cfg, env, settle)
            && Below(GoTurn(go1, cfg, env, settle).0, cfg)
  {
    var k1, go1 := KernelSide(s, g, cfg, env, sel).0, GoTurn(g, cfg, env, sel).0;
    var keys := GoSelect(g, sel.clock, EnvOf(env, sel), sel.draws).1;
    TurnAgreesIff(s, g, cfg, env, sel);
    StillDistinct(g.rows, go1.rows);
    SelectBelow(g, sel.concurrency, sel.clock, sel.t2, EnvOf(env, sel), sel.draws, cfg);
    MatchIgnoresLoad(s, g, env, sel.boost, sel.inflight, sel.clock.t);
    hide GoReserve, Reserve, GoSelect, Offers, Match, Below, Evolved, FollowsAt, DistinctRows, Earlier, Sensible;
    forall id | id in keys ensures Earlier(go1.rows, |go1.rows|, id) && id in k1.buckets {
      SelectedAreReady(s, g, sel.concurrency, sel.clock, sel.t2, EnvOf(env, sel), sel.draws, id);
    }
    forall i | 0 <= i < |go1.rows| && go1.rows[i].enabled
      ensures FollowsAt(k1, go1, settle.d, cfg, settle.clock.now, settle.frac, env, i)
    {
      PromptFollows(k1, go1, keys, settle.d, cfg, settle.clock.now, settle.frac, env, i);
    }
    SettleBelow(go1, settle.d, cfg, settle.clock, settle.frac, env);
  }

  /** Requests that follow one another: select, settle, select, settle. */
  predicate PromptRun(g: GoState, cfg: Config, env: Env, t0: real, turns: seq<Turn>)
    decreases |turns|
  {
    turns == []
    || (|turns| >= 2 && t0 <= turns[0].clock.t && Prompt(g, cfg, env, turns[0], turns[1])
        && EndOf(turns[0]) <= turns[1].clock.t
        && var go1 := GoTurn(g, cfg, env, turns[0]).0;
           WellFormed(go1, cfg, env, turns[1])
           && PromptRun(GoTurn(go1, cfg, env, turns[1]).0, cfg, env, EndOf(turns[1]), turns[2..]))
  }

  lemma TwoTurns(s: State, g: GoState, cfg: Config, env: Env, t0: real, turns: seq<Turn>)
    requires |turns| >= 2 && t0 <= turns[0].clock.t && EndOf(turns[0]) <= turns[1].clock.t
    requires WellFormed(g, cfg, env, turns[0]) && WellFormed(GoTurn(g, cfg, env, turns[0]).0, cfg, env, turns[1])
    requires var k1, go1 := KernelSide(s, g, cfg, env, turns[0]).0, GoTurn(g, cfg, env, turns[0]).0;
             && Agreeable(s, g, cfg, env, turns[0]) && Agreeable(k1, go1, cfg, env, turns[1])
             && var k2, go2 := KernelSide(k1, go1, cfg, env, turns[1]).0, GoTurn(go1, cfg, env, turns[1]).0;
                WellTimed(go2, cfg, env, EndOf(turns[1]), turns[2..])
                && AllAgreeable(k2, go2, cfg, env, EndOf(turns[1]), turns[2..])
    ensures WellTimed(g, cfg, env, t0, turns) && AllAgreeable(s, g, cfg, env, t0, turns)
  {
    assert turns[1..][1..] == turns[2..] && turns[1..][0] == turns[1];
    hide KernelSide, GoTurn, Agreeable, WellFormed;
  }

  /** Requests of `DispatchCap` one after the other agree for as long as no reply is a transport error:
      no cooldown can overflow, because a key is opened by its first failure at the threshold and not
      selected again before it is promoted. */
  lemma {:induction false} RequestsAgree(s: State, g: GoState, cfg: Config, env: Env, t0: real, turns: seq<Turn>)
    requires PromptRun(g, cfg, env, t0, turns) && cfg.base * NS < TWO_63
    requires DistinctRows(g.rows) && Below(g, cfg) && Match(s, g, env, t0)
    ensures WellTimed(g, cfg, env, t0, turns)
    ensures AllAgreeable(s, g, cfg, env, t0, turns)
    ensures GoRun(g, cfg, env, t0, turns) == KernelRun(s, g, cfg, env, t0, turns)
    decreases |turns|
  {
    if turns != [] {
      var sel, settle := turns[0], turns[1];
      MatchLater(s, g, env, t0, sel.clock.t);
      PromptAgrees(s, g, cfg, env, sel, settle);
      var k1, go1 := KernelSide(s, g, cfg, env, sel).0, GoTurn(g, cfg, env, sel).0;
      TurnAgreesIff(s, g, cfg, env, sel);
      StillDistinct(g.rows, go1.rows);
      MatchLater(k1, go1, env, EndOf(sel), settle.clock.t);
      TurnAgreesIff(k1, go1, cfg, env, settle);
      var k2, go2 := KernelSide(k1, go1, cfg, env, settle).0, GoTurn(go1, cfg, env, settle).0;
      StillDistinct(go1.rows, go2.rows);
      hide Match, DistinctRows, Below, KernelSide, GoTurn, Agreeable, Evolved;
      RequestsAgree(k2, go2, cfg, env, EndOf(settle), turns[2..]);
      TwoTurns(s, g, cfg, env, t0, turns);
    }
    RunsAgree(s, g, cfg, env, t0, turns);
  }
}
