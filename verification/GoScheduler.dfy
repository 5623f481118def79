/** The Go degrade path of internal/scheduler/scheduler.go (`selectKeysGo`, `selectByStrategy` and the
    prefix `DispatchCap` takes), and its agreement with the kernel. */
module GoScheduler {
  import opened Backoff
  import opened Options
  import TB = TokenBuckets
  import HW = HealthWindows
  import opened Selection
  import opened Kernel

  /** A row of upstream_keys. */
  datatype Row = Row(id: int, enabled: bool, rpmOverride: int, breaker: Breaker)

  datatype GoState = GoState(
    rows: seq<Row>, buckets: map<int, TB.Bucket>, windows: map<int, seq<HW.Entry>>,
    consec: map<int, nat>, rr: nat, active: Strategy)

  /** What stays fixed while keys are selected: the default RPM, the statistics window, the weight
      boosts of the Auto-Pilot and the per-key in-flight counts. */
  datatype Env = Env(defaultRPM: int, span: real, boost: map<int, real>, inflight: map<int, int>)

  function BoostOf(env: Env, id: int): real {
    if id in env.boost then env.boost[id] else 1.0
  }

  function InflightOf(env: Env, id: int): int {
    if id in env.inflight then env.inflight[id] else 0
  }

  /** tokenbucket.go `NewTokenBucket`, which does not clamp the rate. */
  function GoFresh(rpm: int, t: real): TB.Bucket {
    TB.Bucket(rpm as real, rpm as real, rpm as real / 60.0, t)
  }

  function GoBucketOf(m: map<int, TB.Bucket>, id: int, env: Env, t: real): TB.Bucket {
    if id in m then m[id] else GoFresh(env.defaultRPM, t)
  }

  /** tokenbucket.go `KeyRPM`. */
  function KeyRPM(row: Row, env: Env): int {
    if row.rpmOverride > 0 then row.rpmOverride else env.defaultRPM
  }

  /** The buckets `registerKeys` sets up at start. */
  function Registered(rows: seq<Row>, env: Env, t: real): map<int, TB.Bucket> {
    if rows == [] then map[]
    else
      var row := rows[|rows| - 1];
      Registered(rows[..|rows| - 1], env, t)[row.id := GoFresh(KeyRPM(row, env), t)]
  }

  // ---- Selection --------------------------------------------------------------

  datatype GoScan = GoScan(st: GoState, picked: seq<int>, probes: int)

  predicate Offerable(row: Row, now: int) {
    row.enabled && !(row.breaker.status == Open && row.breaker.until > now)
  }

  /** An expired row becomes half-open and its consecutive failures are forgotten. */
  function GoAdvance(g: GoState, i: nat, now: int): GoState
    requires i < |g.rows|
  {
    var k := g.rows[i];
    if Expired(k.breaker, now) then
      g.(rows := g.rows[i := k.(breaker := Promote(k.breaker, now))], consec := g.consec[k.id := 0])
    else g
  }

  function GoAdmit(p: GoScan, id: int, t: real, env: Env): GoScan {
    var bucket := GoBucketOf(p.st.buckets, id, env, t);
    p.(st := p.st.(buckets := p.st.buckets[id := TB.Refill(bucket, t)]),
       picked := if TB.Admits(bucket, t, p.st.active.headroom) then p.picked + [id] else p.picked)
  }

  /** One row of the candidate loop. */
  function GoConsider(p: GoScan, i: nat, clock: Clock, env: Env): GoScan
    requires i < |p.st.rows|
  {
    if !Offerable(p.st.rows[i], clock.now) then p
    else
      var p1 := p.(st := GoAdvance(p.st, i, clock.now));
      var k := p1.st.rows[i];
      if k.breaker.status == HalfOpen && p.probes <= 0 then p1
      else if k.breaker.status == HalfOpen then GoAdmit(p1.(probes := p.probes - 1), k.id, clock.t, env)
      else GoAdmit(p1, k.id, clock.t, env)
  }

  function GoScanTo(g: GoState, n: nat, clock: Clock, env: Env): (p: GoScan)
    requires n <= |g.rows|
    ensures |p.st.rows| == |g.rows| && |p.picked| <= n
  {
    if n == 0 then GoScan(g, [], 1) else GoConsider(GoScanTo(g, n - 1, clock, env), n - 1, clock, env)
  }

  /** `keyScore`: the window is trimmed, then rate times penalty times boost, at least 1. */
  function KeyScore(g: GoState, id: int, t: real, env: Env): real {
    WeightedScore(HW.Rate(HW.Evict(HW.WindowOf(g.windows, id), t - env.span)), HW.FailsOf(g.consec, id),
      BoostOf(env, id))
  }

  function Items(g: GoState, ids: seq<int>, t: real, env: Env): (items: seq<Viable>)
    ensures |items| == |ids|
    ensures forall i :: 0 <= i < |ids| ==>
      items[i] == Viable(ids[i], KeyScore(g, ids[i], t, env), InflightOf(env, ids[i]))
  {
    seq(|ids|, i requires 0 <= i < |ids| => Viable(ids[i], KeyScore(g, ids[i], t, env), InflightOf(env, ids[i])))
  }

  function Trimmed(windows: map<int, seq<HW.Entry>>, ids: seq<int>, cutoff: real): map<int, seq<HW.Entry>> {
    if ids == [] then windows
    else
      var m, id := Trimmed(windows, ids[..|ids| - 1], cutoff), ids[|ids| - 1];
      m[id := HW.Evict(HW.WindowOf(m, id), cutoff)]
  }

  function SortIds(ids: seq<int>): (r: seq<int>)
    ensures |r| == |ids|
  {
    if ids == [] then [] else InsertId(ids[0], SortIds(ids[1..]))
  }

  function InsertId(x: int, ys: seq<int>): (r: seq<int>)
    ensures |r| == |ys| + 1
  {
    if ys != [] && ys[0] < x then [ys[0]] + InsertId(x, ys[1..]) else [x] + ys
  }

  function RotatedIds(ids: seq<int>, rr: nat): (r: seq<int>)
    ensures |r| == |ids|
  {
    if ids == [] then [] else ids[rr % |ids|..] + ids[..rr % |ids|]
  }

  /** `selectByStrategy`. Round robin never looks at a score. */
  function GoOrder(g: GoState, ids: seq<int>, t: real, env: Env, draws: seq<real>): (r: (GoState, seq<int>))
    requires |draws| >= |ids|
  {
    if g.active.selection == RoundRobin then
      (if ids == [] then g else g.(rr := g.rr + 1), RotatedIds(SortIds(ids), g.rr))
    else
      var items := Items(g, ids, t, env);
      (g.(windows := Trimmed(g.windows, ids, t - env.span)), Ids(Order(g.active.selection, items, g.rr, draws)))
  }

  function GoSelect(g: GoState, clock: Clock, env: Env, draws: seq<real>): (GoState, seq<int>)
    requires |draws| >= |g.rows|
  {
    var p := GoScanTo(g, |g.rows|, clock, env);
    if p.picked == [] then (p.st, []) else GoOrder(p.st, p.picked, clock.t, env, draws)
  }

  /** The prefix really dispatched: the effective concurrency, capped by the strategy's fan-out. */
  function GoWidth(active: Strategy, concurrency: int, n: nat): int {
    var m := Min(n, concurrency);
    if active.fanout > 0 && active.fanout < m then active.fanout else m
  }

  /** Select, take the prefix and consume one token for each key of it. */
  function GoReserve(
      g: GoState, concurrency: int, clock: Clock, t2: real, env: Env, draws: seq<real>): (r: (GoState, seq<int>))
    requires |draws| >= |g.rows|
  {
    var sel := GoSelect(g, clock, env, draws);
    var n := Max(0, GoWidth(g.active, concurrency, |sel.1|));
    (sel.0.(buckets := Spend(sel.0.buckets, sel.1[..n], t2)), sel.1[..n])
  }

  // ---- Feedback ---------------------------------------------------------------

  /** An upstream reply as the collector receives it. A remaining count that is missing, unreadable or
      negative is none. */
  datatype Reply = Http(success: bool, remaining: Option<nat>) | TransportError

  /** One reply of a dispatch: the row of the key, whether the key was half-open when it was selected,
      and the reply. */
  datatype Answer = Answer(row: nat, halfOpen: bool, reply: Reply)

  /** The end of a dispatch: what was received, in order, and the rows of all keys selected for it. */
  datatype Settlement = Settlement(stream: bool, answers: seq<Answer>, selected: seq<nat>)

  /** Calibration (not for streams), health record and, on success, the closing of a key that was
      half-open when selected, whatever its row says now. A transport error reaches none of them. */
  function Observe(g: GoState, a: Answer, stream: bool, env: Env, t: real): (g': GoState)
    ensures |g'.rows| == |g.rows|
  {
    if a.row >= |g.rows| || a.reply.TransportError? then g
    else
      var id, success, remaining := g.rows[a.row].id, a.reply.success, a.reply.remaining;
      g.(
        buckets :=
          if remaining.Some? && !stream
          then g.buckets[id := TB.Calibrated(GoBucketOf(g.buckets, id, env, t), t, remaining.value)]
          else g.buckets,
        windows := g.windows[id := HW.Recorded(HW.WindowOf(g.windows, id), env.span, t, success)],
        consec := g.consec[id := if success then 0 else HW.FailsOf(g.consec, id) + 1],
        rows :=
          if success && a.halfOpen then g.rows[a.row := g.rows[a.row].(breaker := Breaker(Active, 0, 0))] else g.rows)
  }

  /** `checkCircuitBreaker`, which looks at the tracker's count and not at the row. `frac` is the part of
      the clock below a second. */
  function CheckBreaker(g: GoState, i: nat, cfg: Config, now: int, frac: int): (g': GoState)
    ensures |g'.rows| == |g.rows|
  {
    if i >= |g.rows| || HW.FailsOf(g.consec, g.rows[i].id) < cfg.threshold then g
    else
      var consec := HW.FailsOf(g.consec, g.rows[i].id);
      var until := now + GoDelay(cfg.base, consec - cfg.threshold, frac);
      g.(rows := g.rows[i := g.rows[i].(breaker := Breaker(Open, consec, until))])
  }

  function ObserveAll(g: GoState, answers: seq<Answer>, stream: bool, env: Env, t: real): (g': GoState)
    ensures |g'.rows| == |g.rows|
  {
    if answers == [] then g
    else Observe(ObserveAll(g, answers[..|answers| - 1], stream, env, t), answers[|answers| - 1], stream, env, t)
  }

  function CheckAll(g: GoState, selected: seq<nat>, cfg: Config, now: int, frac: int): (g': GoState)
    ensures |g'.rows| == |g.rows|
  {
    if selected == [] then g
    else CheckBreaker(CheckAll(g, selected[..|selected| - 1], cfg, now, frac), selected[|selected| - 1], cfg, now, frac)
  }

  /** `DispatchCap` checks the breaker of every key it selected, `DispatchStream` of none. */
  function Settled(g: GoState, d: Settlement, cfg: Config, clock: Clock, frac: int, env: Env): GoState {
    var observed := ObserveAll(g, d.answers, d.stream, env, clock.t);
    if d.stream then observed else CheckAll(observed, d.selected, cfg, clock.now, frac)
  }

  // ---- The scheduler object ---------------------------------------------------

  class Scheduler {
    const env: Env
    var rows: seq<Row>
    var buckets: map<int, TB.Bucket>
    var windows: map<int, seq<HW.Entry>>
    var consec: map<int, nat>
    var rrCounter: nat
    var strategy: Strategy

    ghost function View(): GoState
      reads this
    {
      GoState(rows, buckets, windows, consec, rrCounter, strategy)
    }

    /** Start-up: every stored key gets a full bucket. */
    constructor (env: Env, rows: seq<Row>, strategy: Strategy, t: real)
      ensures View() == GoState(rows, Registered(rows, env, t), map[], map[], 0, strategy) && this.env == env
    {
      this.env, this.rows, this.strategy := env, rows, strategy;
      buckets, windows, consec, rrCounter := map[], map[], map[], 0;
      new;
      for i := 0 to |rows|
        invariant View() == GoState(rows, Registered(rows[..i], env, t), map[], map[], 0, strategy)
      {
        assert rows[..i + 1][..i] == rows[..i];
        var rpm := rows[i].rpmOverride;
        if rpm <= 0 {
          rpm := env.defaultRPM;
        }
        buckets := buckets[rows[i].id := GoFresh(rpm, t)];
      }
      assert rows[..|rows|] == rows;
    }

    method SelectKeysGo(clock: Clock, draws: seq<real>) returns (keys: seq<int>)
      requires |draws| >= |rows|
      modifies this
      ensures (View(), keys) == GoSelect(old(View()), clock, env, draws)
    {
      hide GoConsider;
      var picked: seq<int>, halfOpenAllowed := [], 1;
      var i := 0;
      while i < |rows|
        invariant 0 <= i <= |rows| == |old(rows)|
        invariant GoScan(View(), picked, halfOpenAllowed) == GoScanTo(old(View()), i, clock, env)
      {
        picked, halfOpenAllowed := Examine(i, clock, picked, halfOpenAllowed);
        i := i + 1;
      }
      if picked == [] {
        return [];
      }
      keys := SelectByStrategy(picked, clock.t, draws);
    }

    /** One pass of the candidate loop; `return` is the source's `continue`. */
    method Examine(
        i: nat, clock: Clock, picked0: seq<int>, allowed0: int) returns (picked: seq<int>, halfOpenAllowed: int)
      requires i < |rows|
      modifies this`rows, this`buckets, this`consec
      ensures GoScan(View(), picked, halfOpenAllowed)
        == GoConsider(GoScan(old(View()), picked0, allowed0), i, clock, env)
      ensures |rows| == |old(rows)|
    {
      hide TB.Refill, TB.Admits, GoFresh;
      picked, halfOpenAllowed := picked0, allowed0;
      var k := rows[i];
      if !k.enabled {
        return;
      }
      if k.breaker.status == Open {
        if k.breaker.until > clock.now {
          return;
        }
        k := k.(breaker := Breaker(HalfOpen, 0, 0));
        rows := rows[i := k];
        consec := consec[k.id := 0];
      }
      if k.breaker.status == HalfOpen {
        if halfOpenAllowed <= 0 {
          return;
        }
        halfOpenAllowed := halfOpenAllowed - 1;
      }
      if k.id !in buckets {
        buckets := buckets[k.id := GoFresh(env.defaultRPM, clock.t)];
      }
      var admitted := TB.Admits(buckets[k.id], clock.t, strategy.headroom);
      buckets := buckets[k.id := TB.Refill(buckets[k.id], clock.t)];
      assert buckets == old(buckets)[k.id := TB.Refill(GoBucketOf(old(buckets), k.id, env, clock.t), clock.t)];
      if admitted {
        picked := picked + [k.id];
      }
    }

    /** Scores are computed once per key here; the source recomputes them in every comparison, at the
        same instant and with the same result. */
    method SelectByStrategy(ids: seq<int>, t: real, draws: seq<real>) returns (ordered: seq<int>)
      requires |draws| >= |ids| > 0
      modifies this`windows, this`rrCounter
      ensures (View(), ordered) == GoOrder(old(View()), ids, t, env, draws)
    {
      if strategy.selection == RoundRobin {
        var keys := new int[|ids|](i requires 0 <= i < |ids| => ids[i]);
        assert keys[..] == ids;
        RoundRobinSelect(keys);
        return keys[..];
      }
      var items := ScoreAll(ids, t);
      hide Items, KeyScore, Trimmed;
      var sorted: seq<Viable>;
      if strategy.selection == WeightedRandom {
        sorted := WeightedShuffle(items, draws);
      } else {
        sorted := StableSort(strategy.selection, items);
      }
      OrderCases(strategy.selection, items, rrCounter, draws);
      ordered := Ids(sorted);
    }

    method ScoreAll(ids: seq<int>, t: real) returns (items: seq<Viable>)
      modifies this`windows
      ensures items == Items(old(View()), ids, t, env)
      ensures windows == Trimmed(old(windows), ids, t - env.span)
    {
      ghost var was := View();
      items := [];
      var i := 0;
      while i < |ids|
        invariant 0 <= i <= |ids| == |Items(was, ids, t, env)| && |items| == i
        invariant forall j :: 0 <= j < i ==> items[j] == Items(was, ids, t, env)[j]
        invariant View() == was.(windows := Trimmed(was.windows, ids[..i], t - env.span))
      {
        hide KeyScore, Trimmed, Items;
        assert ids[..i + 1] == ids[..i] + [ids[i]];
        var item := ScoreNext(ids[i], t, was, ids[..i]);
        items := items + [item];
        i := i + 1;
      }
      assert ids[..i] == ids;
    }

    /** `keyScore`, which trims the key's window on the way. `was` is the state before the keys
        `done` were scored; trimming their windows has not changed any score. */
    method ScoreNext(id: int, t: real, ghost was: GoState, ghost done: seq<int>) returns (item: Viable)
      requires View() == was.(windows := Trimmed(was.windows, done, t - env.span))
      modifies this`windows
      ensures View() == was.(windows := Trimmed(was.windows, done + [id], t - env.span))
      ensures item == Viable(id, KeyScore(was, id, t, env), InflightOf(env, id))
    {
      TrimmedStill(was.windows, done, id, t - env.span);
      assert (done + [id])[..|done|] == done;
      hide HW.Evict, HW.Rate, WeightedScore;
      windows := windows[id := HW.Evict(HW.WindowOf(windows, id), t - env.span)];
      var score := WeightedScore(HW.Rate(windows[id]), HW.FailsOf(consec, id), BoostOf(env, id));
      item := Viable(id, score, InflightOf(env, id));
    }

    /** `roundRobinSelect`: sort in place, then rotate through a copy. */
    method RoundRobinSelect(keys: array<int>)
      modifies keys, this`rrCounter
      ensures keys[..] == RotatedIds(SortIds(old(keys[..])), old(rrCounter))
      ensures rrCounter == if keys.Length == 0 then old(rrCounter) else old(rrCounter) + 1
    {
      ghost var was := keys[..];
      var sorted := SortIds(keys[..]);
      forall i | 0 <= i < keys.Length {
        keys[i] := sorted[i];
      }
      assert keys[..] == sorted == SortIds(was);
      hide SortIds;
      var n := keys.Length;
      if n == 0 {
        return;
      }
      var rot := rrCounter % n;
      if rot > 0 {
        RotateInPlace(keys, rot);
      }
      assert keys[..] == sorted[rot..] + sorted[..rot];
      rrCounter := rrCounter + 1;
    }

    /** The collector's treatment of one reply, with `markHealthy` inlined. */
    method ObserveReply(a: Answer, stream: bool, t: real)
      requires a.row < |rows|
      modifies this`rows, this`buckets, this`windows, this`consec
      ensures View() == Observe(old(View()), a, stream, env, t)
    {
      hide HW.Recorded, TB.Calibrated, GoFresh;
      if a.reply.TransportError? {
        return;
      }
      var row := rows[a.row];
      if a.reply.remaining.Some? && !stream {
        if row.id !in buckets {
          buckets := buckets[row.id := GoFresh(env.defaultRPM, t)];
        }
        buckets := buckets[row.id := TB.Calibrated(buckets[row.id], t, a.reply.remaining.value)];
        assert buckets == old(buckets)[row.id := TB.Calibrated(GoBucketOf(old(buckets), row.id, env, t), t,
          a.reply.remaining.value)];
      }
      windows := windows[row.id := HW.Recorded(HW.WindowOf(windows, row.id), env.span, t, a.reply.success)];
      if a.reply.success {
        consec := consec[row.id := 0];
        if a.halfOpen {
          rows := rows[a.row := row.(breaker := Breaker(Active, 0, 0))];
        }
      } else {
        consec := consec[row.id := HW.FailsOf(consec, row.id) + 1];
      }
    }

    method CheckCircuitBreaker(i: nat, cfg: Config, now: int, frac: int)
      requires i < |rows| && -TWO_63 <= cfg.base * NS < TWO_63
      modifies this`rows
      ensures View() == CheckBreaker(old(View()), i, cfg, now, frac)
    {
      var fails := HW.FailsOf(consec, rows[i].id);
      if fails >= cfg.threshold {
        var cooldown := GoBackoff(cfg.base * NS, fails - cfg.threshold);
        rows := rows[i := rows[i].(breaker := Breaker(Open, fails, now + (frac + cooldown) / NS))];
      }
    }

    /** The replies of one dispatch, and the check that follows them in `DispatchCap`. */
    method Settle(d: Settlement, cfg: Config, clock: Clock, frac: int)
      requires -TWO_63 <= cfg.base * NS < TWO_63
      requires forall k :: 0 <= k < |d.answers| ==> d.answers[k].row < |rows|
      requires forall k :: 0 <= k < |d.selected| ==> d.selected[k] < |rows|
      modifies this
      ensures View() == Settled(old(View()), d, cfg, clock, frac, env)
    {
      hide Observe, CheckBreaker;
      for k := 0 to |d.answers|
        invariant View() == ObserveAll(old(View()), d.answers[..k], d.stream, env, clock.t)
        invariant |rows| == |old(rows)|
      {
        assert d.answers[..k + 1][..k] == d.answers[..k];
        ObserveReply(d.answers[k], d.stream, clock.t);
      }
      assert d.answers[..|d.answers|] == d.answers;
      if d.stream {
        return;
      }
      ghost var observed := View();
      for k := 0 to |d.selected|
        invariant View() == CheckAll(observed, d.selected[..k], cfg, clock.now, frac)
        invariant |rows| == |old(rows)|
      {
        assert d.selected[..k + 1][..k] == d.selected[..k];
        CheckCircuitBreaker(d.selected[k], cfg, clock.now, frac);
      }
      assert d.selected[..|d.selected|] == d.selected;
    }

    /** The dispatch prefix of `DispatchCap` and `DispatchStream` when no kernel is attached. */
    method Dispatchable(concurrency: int, clock: Clock, t2: real, draws: seq<real>) returns (taken: seq<int>)
      requires |draws| >= |rows|
      modifies this
      ensures (View(), taken) == GoReserve(old(View()), concurrency, clock, t2, env, draws)
    {
      hide GoSelect, TB.Take;
      GoSelectKeepsActive(View(), clock, env, draws);
      var keys := SelectKeysGo(clock, draws);
      var n := Min(|keys|, concurrency);
      if strategy.fanout > 0 && strategy.fanout < n {
        n := strategy.fanout;
      }
      taken := keys[..Max(0, n)];
      ghost var before := buckets;
      ghost var rest := View();
      var i := 0;
      while i < n
        invariant 0 <= i <= |taken| && buckets == Spend(before, taken[..i], t2)
        invariant View() == rest.(buckets := buckets)
      {
        assert taken[..i + 1][..i] == taken[..i];
        if taken[i] in buckets {
          buckets := buckets[taken[i] := TB.Take(buckets[taken[i]], t2, 1)];
        }
        i := i + 1;
      }
      assert taken[..i] == taken;
    }
  }

  method RotateInPlace(keys: array<int>, rot: nat)
    requires 0 < rot < keys.Length
    modifies keys
    ensures keys[..] == old(keys[rot..]) + old(keys[..rot])
  {
    var n := keys.Length;
    var rotated := new int[n];
    var i := 0;
    while i < n
      invariant 0 <= i <= n && keys[..] == old(keys[..])
      invariant forall j :: 0 <= j < i ==> rotated[j] == keys[if j + rot < n then j + rot else j + rot - n]
    {
      ModOf(i + rot, n, if i + rot < n then i + rot else i + rot - n, if i + rot < n then 0 else 1);
      rotated[i] := keys[(i + rot) % n];
      i := i + 1;
    }
    forall j | 0 <= j < n {
      keys[j] := rotated[j];
    }
  }

  lemma GoSelectKeepsActive(g: GoState, clock: Clock, env: Env, draws: seq<real>)
    requires |draws| >= |g.rows|
    ensures GoSelect(g, clock, env, draws).0.active == g.active
  {
    GoScanKeepsActive(g, |g.rows|, clock, env);
    hide GoScanTo;
  }

  lemma {:induction false} GoScanKeepsActive(g: GoState, n: nat, clock: Clock, env: Env)
    requires n <= |g.rows|
    ensures GoScanTo(g, n, clock, env).st.active == g.active && GoScanTo(g, n, clock, env).st.rr == g.rr
    ensures GoScanTo(g, n, clock, env).st.windows == g.windows
  {
    if n > 0 {
      GoScanKeepsActive(g, n - 1, clock, env);
      hide TB.Refill, TB.Admits, GoFresh;
    }
  }

  lemma OrderCases(algo: Algo, items: seq<Viable>, rr: nat, draws: seq<real>)
    requires |draws| >= |items|
    ensures algo == WeightedRandom ==> Order(algo, items, rr, draws) == Shuffled(items, draws)
    ensures algo == LeastInflight || algo == StrictPriority ==> Order(algo, items, rr, draws) == StableSort(algo, items)
  {
  }

  lemma SameScore(g: GoState, g': GoState, id: int, t: real, env: Env)
    requires HW.Evict(HW.WindowOf(g.windows, id), t - env.span) == HW.Evict(HW.WindowOf(g'.windows, id), t - env.span)
    requires HW.FailsOf(g.consec, id) == HW.FailsOf(g'.consec, id)
    ensures KeyScore(g, id, t, env) == KeyScore(g', id, t, env)
  {
    hide HW.Evict;
  }

  // ---- Trimming windows -------------------------------------------------------

  lemma {:induction false} EvictTwice(entries: seq<HW.Entry>, c1: real, c2: real)
    requires c1 <= c2
    ensures HW.Evict(HW.Evict(entries, c1), c2) == HW.Evict(entries, c2)
  {
    if entries != [] && entries[0].ts < c1 {
      EvictTwice(entries[1..], c1, c2);
    }
  }

  /** Trimming some windows is invisible to anyone who trims at the same time or later. */
  lemma {:induction false} TrimmedStill(windows: map<int, seq<HW.Entry>>, ids: seq<int>, id: int, cutoff: real)
    ensures HW.Evict(HW.WindowOf(Trimmed(windows, ids, cutoff), id), cutoff)
      == HW.Evict(HW.WindowOf(windows, id), cutoff)
  {
    if ids != [] {
      TrimmedStill(windows, ids[..|ids| - 1], id, cutoff);
      EvictTwice(HW.WindowOf(Trimmed(windows, ids[..|ids| - 1], cutoff), id), cutoff, cutoff);
      hide HW.Evict;
    }
  }
}
