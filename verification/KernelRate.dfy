/** Buckets over whole runs of the kernel: every reserve is accounted for, and no key is handed out
    faster than its rate. */
module KernelRate {
  import opened Backoff
  import opened Options
  import TB = TokenBuckets
  import HW = HealthWindows
  import opened Selection
  import opened Kernel
  import opened KernelSafety
  import opened KernelAccounting

  // ---- Buckets stay ready -----------------------------------------------------

  /** What the callers of the handlers guarantee: enough random draws, the clock read before the tokens
      are consumed, distinct candidates, no negative remaining count, and a headroom in (0,1]. */
  ghost predicate Orderly(e: Event) {
    && Enough(e)
    && match e
       case ReserveEv(clock, t2, req, _) => clock.t <= t2 && DistinctIds(req.candidates)
       case ReportEv(_, items) => forall i :: 0 <= i < |items| && items[i].remaining.Some? ==>
         items[i].remaining.value >= 0
       case StrategyEv(_, strategy) => 0.0 < strategy.headroom <= 1.0
       case RestartEv(_) => true
  }

  function EndOf(e: Event): real {
    if e.ReserveEv? then e.t2 else e.clock.t
  }

  /** A run from time `t0` on, with a monotone clock. */
  ghost predicate Timed(t0: real, es: seq<Event>)
    decreases |es|
  {
    es == [] || (t0 <= es[0].clock.t && Orderly(es[0]) && Timed(EndOf(es[0]), es[1..]))
  }

  function EndTime(t0: real, es: seq<Event>): real
    decreases |es|
  {
    if es == [] then t0 else EndTime(EndOf(es[0]), es[1..])
  }

  /** Any state a run can start from or pass through at time `t`. */
  ghost predicate Ready(s: State, t: real) {
    BucketsReady(s, t) && 0.0 < s.active.headroom <= 1.0
  }

  predicate ReadyBucket(b: TB.Bucket, t: real) {
    TB.Valid(b) && b.last <= t
  }

  lemma RefillReady(b: TB.Bucket, t: real)
    requires ReadyBucket(b, t)
    ensures ReadyBucket(TB.Refill(b, t), t)
  {
    TB.RefillValid(b, t);
    hide TB.Refill;
  }

  lemma {:induction false} ScanReady(s: State, cands: seq<Candidate>, clock: Clock, span: real)
    requires BucketsReady(s, clock.t)
    ensures BucketsReady(ScanAll(s, cands, clock, span).st, clock.t)
  {
    if cands != [] {
      var pre, c := cands[..|cands| - 1], cands[|cands| - 1];
      ScanReady(s, pre, clock, span);
      var p := ScanAll(s, pre, clock, span);
      ConsiderCases(p, c, clock, span);
      assert ReadyBucket(Found(p.st, c, clock.t), clock.t);
      RefillReady(Found(p.st, c, clock.t), clock.t);
      hide Consider, TB.Refill, Entered, Found;
    }
  }

  lemma {:induction false} SpendReady(buckets: map<int, TB.Bucket>, ids: seq<int>, t1: real, t2: real)
    requires t1 <= t2 && forall id :: id in buckets ==> ReadyBucket(buckets[id], t1)
    ensures forall id :: id in Spend(buckets, ids, t2) ==> ReadyBucket(Spend(buckets, ids, t2)[id], t2)
  {
    if ids != [] {
      var m, id := Spend(buckets, ids[..|ids| - 1], t2), ids[|ids| - 1];
      SpendReady(buckets, ids[..|ids| - 1], t1, t2);
      if id in m {
        TB.ApplyValid(m[id], TB.At(t2, TB.Allow(1)));
      }
      hide TB.Take, TB.CanTake;
    }
  }

  lemma {:induction false} FeedReady(s: State, items: seq<ReportItem>, cfg: Config, clock: Clock)
    requires BucketsReady(s, clock.t)
    requires forall i :: 0 <= i < |items| && items[i].remaining.Some? ==> items[i].remaining.value >= 0
    ensures BucketsReady(FeedAll(s, items, cfg, clock).st, clock.t)
  {
    if items != [] {
      var r := items[|items| - 1];
      FeedReady(s, items[..|items| - 1], cfg, clock);
      var p := FeedAll(s, items[..|items| - 1], cfg, clock);
      FeedBuckets(p, r, cfg, clock);
      if r.remaining.Some? {
        var b := BucketOf(p.st.buckets, r.id, 500, clock.t);
        assert ReadyBucket(b, clock.t);
        TB.ApplyValid(b, TB.At(clock.t, TB.Calibrate(r.remaining.value)));
      }
      hide Feed, TB.Calibrated, BucketOf;
    }
  }

  lemma FeedBuckets(p: Fed, r: ReportItem, cfg: Config, clock: Clock)
    ensures Feed(p, r, cfg, clock).st.buckets
         == if r.remaining.None? then p.st.buckets
            else p.st.buckets[r.id := TB.Calibrated(BucketOf(p.st.buckets, r.id, 500, clock.t), clock.t,
              r.remaining.value)]
  {
    hide HW.Recorded, TB.Calibrated, BucketOf, Feedback;
  }

  lemma StepKeepsReady(cfg: Config, s: State, e: Event)
    requires Orderly(e) && Ready(s, e.clock.t)
    ensures Ready(Step(cfg, s, e), EndOf(e))
  {
    match e
    case ReserveEv(clock, t2, req, draws) =>
      ScanReady(s, req.candidates, clock, cfg.span);
      ScanCell(s, req.candidates, clock, cfg.span, 0);
      var p := ScanAll(s, req.candidates, clock, cfg.span);
      assert forall id :: id in p.st.buckets ==> ReadyBucket(p.st.buckets[id], clock.t);
      SpendReady(p.st.buckets, if p.viable == [] then [] else Taken(p, req.concurrency, draws), clock.t, t2);
      hide ScanAll, Taken, TB.Valid;
    case ReportEv(clock, items) =>
      FeedReady(s, items, cfg, clock);
      ReportCell(s, items, cfg, clock, 0);
    case _ =>
  }

  lemma ReadyLater(s: State, t1: real, t2: real)
    requires Ready(s, t1) && t1 <= t2
    ensures Ready(s, t2)
  {
  }

  /** Every reserve of the run is accounted for. */
  ghost predicate AllAccounted(cfg: Config, s: State, t0: real, es: seq<Event>)
    requires Timed(t0, es)
    decreases |es|
  {
    es == [] || (ReserveAccounted(cfg, s, es[0]) && AllAccounted(cfg, Step(cfg, s, es[0]), EndOf(es[0]), es[1..]))
  }

  ghost predicate ReserveAccounted(cfg: Config, s: State, e: Event)
    requires Enough(e)
  {
    e.ReserveEv? ==> Accounted(s, e.req, e.clock, e.t2, Reserve(s, e.req, e.clock, e.t2, e.draws, cfg.span))
  }

  /** In any run, whatever the reports, restarts and strategies in between, every reserve is accounted
      for: the buckets are always in the state `ReserveAccounting` asks for. */
  lemma {:induction false} AccountingOverRun(cfg: Config, s: State, t0: real, es: seq<Event>)
    requires Timed(t0, es) && Ready(s, t0)
    ensures AllAccounted(cfg, s, t0, es)
    decreases |es|
  {
    if es != [] {
      var e := es[0];
      ReadyLater(s, t0, e.clock.t);
      StepKeepsReady(cfg, s, e);
      if e.ReserveEv? {
        ReserveAccounting(s, e.req, e.clock, e.t2, e.draws, cfg.span);
      }
      hide Step, Reserve, ScanAll, Accounted, Ready;
      AccountingOverRun(cfg, Step(cfg, s, e), EndOf(e), es[1..]);
    }
  }

  // ---- The rate of one key ----------------------------------------------------

  /** The tokens a bucket holds at time `t`. */
  function Level(b: TB.Bucket, t: real): real {
    TB.Refill(b, t).tokens
  }

  predicate SameMeter(a: TB.Bucket, b: TB.Bucket) {
    a.capacity == b.capacity && a.rate == b.rate
  }

  /** From time `t1` to `t2` a bucket has gone from `b` to `b'`, giving out `n` tokens. */
  predicate Flow(b: TB.Bucket, t1: real, b': TB.Bucket, t2: real, n: int) {
    SameMeter(b, b') && n as real + Level(b', t2) <= Level(b, t1) + b.rate * (t2 - t1)
  }

  lemma LevelGrows(b: TB.Bucket, t1: real, t2: real)
    requires ReadyBucket(b, t1) && t1 <= t2
    ensures Level(b, t2) <= Level(b, t1) + b.rate * (t2 - t1)
    ensures 0.0 <= Level(b, t1) <= b.capacity
  {
    TB.RefillTwice(b, t1, t2);
    TB.RefillValid(b, t1);
    TB.RefillValid(TB.Refill(b, t1), t2);
    hide TB.Refill;
  }

  lemma FlowChain(a: TB.Bucket, t1: real, b: TB.Bucket, t2: real, c: TB.Bucket, t3: real, n: int, m: int)
    requires t1 <= t2 <= t3 && a.rate >= 0.0 && Flow(a, t1, b, t2, n) && Flow(b, t2, c, t3, m)
    ensures Flow(a, t1, c, t3, n + m)
  {
    TB.DripFacts(a.rate, t1, t2, t3);
    hide Level;
  }

  lemma FlowIdle(b: TB.Bucket, t1: real, t2: real)
    requires ReadyBucket(b, t1) && t1 <= t2
    ensures Flow(b, t1, b, t2, 0)
  {
    LevelGrows(b, t1, t2);
    hide Level;
  }

  function Served(cfg: Config, s: State, e: Event, id: int): nat {
    if Enough(e) && id in ReservedBy(cfg, s, e) then 1 else 0
  }

  function Next(cfg: Config, s: State, e: Event): State {
    if Enough(e) then Step(cfg, s, e) else s
  }

  lemma ReserveFlow(s: State, req: ReserveReq, clock: Clock, t2: real, draws: seq<real>, span: real, id: int)
    requires DistinctIds(req.candidates) && |draws| >= |req.candidates| && clock.t <= t2
    requires BucketsReady(s, clock.t) && 0.0 < s.active.headroom <= 1.0 && id in s.buckets
    ensures var out := Reserve(s, req, clock, t2, draws, span);
            var n := if id in out.1.reserved then 1 else 0;
            id in out.0.buckets && Flow(s.buckets[id], clock.t, out.0.buckets[id], t2, n)
  {
    ReserveAccounting(s, req, clock, t2, draws, span);
    var out := Reserve(s, req, clock, t2, draws, span);
    var b := s.buckets[id];
    assert ReadyBucket(b, clock.t);
    hide Reserve, ScanAll, TB.Valid;
    LevelGrows(b, clock.t, t2);
    if id in out.1.reserved {
      var i :| 0 <= i < |out.1.reserved| && out.1.reserved[i] == id;
      assert Charged(out.0, s, req.candidates, id, clock.t, t2);
      SpentFlow(b, clock.t, out.0.buckets[id], t2);
    } else {
      UnspentFlow(b, clock.t, out.0.buckets[id], t2);
    }
  }

  lemma SpentFlow(b: TB.Bucket, t1: real, b': TB.Bucket, t2: real)
    requires ReadyBucket(b, t1) && t1 <= t2
    requires b' == TB.Refill(b, t2).(tokens := TB.Refill(b, t2).tokens - 1.0)
    ensures Flow(b, t1, b', t2, 1)
  {
    LevelGrows(b, t1, t2);
    TB.RefillValid(b, t2);
    assert b'.last == t2;
    assert Level(b', t2) == b'.tokens;
    hide TB.Refill;
  }

  lemma UnspentFlow(b: TB.Bucket, t1: real, b': TB.Bucket, t2: real)
    requires ReadyBucket(b, t1) && t1 <= t2 && (b' == b || b' == TB.Refill(b, t1))
    ensures Flow(b, t1, b', t2, 0)
  {
    LevelGrows(b, t1, t2);
    TB.RefillTwice(b, t1, t2);
    TB.RefillValid(b, t1);
    hide TB.Refill;
  }

  lemma {:induction false} ReportFlow(s: State, items: seq<ReportItem>, cfg: Config, clock: Clock, id: int)
    requires BucketsReady(s, clock.t) && id in s.buckets
    requires forall i :: 0 <= i < |items| && items[i].remaining.Some? ==> items[i].remaining.value >= 0
    ensures var st := FeedAll(s, items, cfg, clock).st;
            id in st.buckets && Flow(s.buckets[id], clock.t, st.buckets[id], clock.t, 0)
  {
    assert ReadyBucket(s.buckets[id], clock.t);
    if items == [] {
      FlowIdle(s.buckets[id], clock.t, clock.t);
    } else {
      var r := items[|items| - 1];
      var p := FeedAll(s, items[..|items| - 1], cfg, clock);
      ReportFlow(s, items[..|items| - 1], cfg, clock, id);
      FeedReady(s, items[..|items| - 1], cfg, clock);
      assert ReadyBucket(p.st.buckets[id], clock.t);
      FeedBuckets(p, r, cfg, clock);
      var b, b' := p.st.buckets[id], FeedAll(s, items, cfg, clock).st.buckets[id];
      hide Feed, FeedAll, TB.Calibrated;
      if b' == b {
        FlowIdle(b, clock.t, clock.t);
      } else {
        CalibrateFlow(b, clock.t, r.remaining.value);
      }
      FlowChain(s.buckets[id], clock.t, b, clock.t, b', clock.t, 0, 0);
    }
  }

  lemma CalibrateFlow(b: TB.Bucket, t: real, remaining: int)
    requires ReadyBucket(b, t) && remaining >= 0
    ensures Flow(b, t, TB.Calibrated(b, t, remaining), t, 0)
  {
    LevelGrows(b, t, t);
    TB.RefillValid(b, t);
    TB.RefillTwice(b, t, t);
    assert TB.Calibrated(b, t, remaining).last == t;
  }

  /** One event other than a restart, one key that has a bucket. */
  lemma StepFlow(cfg: Config, s: State, e: Event, id: int)
    requires Orderly(e) && Ready(s, e.clock.t) && id in s.buckets && !e.RestartEv?
    ensures id in Step(cfg, s, e).buckets
    ensures Flow(s.buckets[id], e.clock.t, Step(cfg, s, e).buckets[id], EndOf(e), Served(cfg, s, e, id))
  {
    hide Reserve, FeedAll, Flow;
    match e
    case ReserveEv(clock, t2, req, draws) => ReserveFlow(s, req, clock, t2, draws, cfg.span, id);
    case ReportEv(clock, items) => ReportFlow(s, items, cfg, clock, id);
    case StrategyEv(clock, _) => FlowIdle(s.buckets[id], clock.t, clock.t);
    case _ =>
  }

  /** How often a run hands out the key. */
  function TimesServed(cfg: Config, s: State, es: seq<Event>, id: int): nat
    decreases |es|
  {
    if es == [] then 0 else Served(cfg, s, es[0], id) + TimesServed(cfg, Next(cfg, s, es[0]), es[1..], id)
  }

  function AfterRun(cfg: Config, s: State, es: seq<Event>): State
    decreases |es|
  {
    if es == [] then s else AfterRun(cfg, Next(cfg, s, es[0]), es[1..])
  }

  predicate NoRestart(es: seq<Event>)
    decreases |es|
  {
    es == [] || (!es[0].RestartEv? && NoRestart(es[1..]))
  }

  lemma {:induction false} EndsLater(t0: real, es: seq<Event>)
    requires Timed(t0, es)
    ensures t0 <= EndTime(t0, es)
    decreases |es|
  {
    if es != [] {
      EndsLater(EndOf(es[0]), es[1..]);
    }
  }

  // ---- One key's bucket, from its creation on ---------------------------------

  function MeterOf(s: State, id: int): Option<TB.Bucket> {
    if id in s.buckets then Some(s.buckets[id]) else None
  }

  /** One step of the key's bucket from time `t0` to `t1`, handing the key out `n` times. A step that
      finds no bucket and creates one leaves at most a full bucket less what it handed out. */
  predicate Moved(b: Option<TB.Bucket>, t0: real, b': Option<TB.Bucket>, t1: real, n: nat) {
    match b
    case Some(x) => ReadyBucket(x, t0) && b'.Some? && Flow(x, t0, b'.value, t1, n)
    case None =>
      if b'.None? then n == 0
      else ReadyBucket(b'.value, t1) && n as real + Level(b'.value, t1) <= b'.value.capacity
  }

  /** A run from time `t0` to `t1` that hands out the key `n` times. */
  predicate Kept(b: Option<TB.Bucket>, t0: real, b': Option<TB.Bucket>, t1: real, n: nat) {
    match b
    case Some(x) =>
      b'.Some? && SameMeter(x, b'.value) && n as real <= Level(x, t0) + x.rate * (t1 - t0)
    case None =>
      if b'.None? then n == 0
      else b'.value.rate >= 0.0 && n as real <= b'.value.capacity + b'.value.rate * (t1 - t0)
  }

  lemma MovedThenKept(
    a: Option<TB.Bucket>, t0: real, b: Option<TB.Bucket>, t1: real, c: Option<TB.Bucket>, t2: real, n: nat, m: nat)
    requires t0 <= t1 <= t2 && Moved(a, t0, b, t1, n) && Kept(b, t1, c, t2, m)
    ensures Kept(a, t0, c, t2, n + m)
  {
    var rate := if a.Some? then a.value.rate else if c.Some? then c.value.rate else 0.0;
    TB.DripFacts(rate, t0, t1, t2);
    hide Level, TB.Refill;
  }

  lemma NothingKept(s: State, t: real, id: int)
    requires Ready(s, t)
    ensures Kept(MeterOf(s, id), t, MeterOf(s, id), t, 0)
    ensures MeterOf(s, id).Some? ==>
              Level(MeterOf(s, id).value, t) <= MeterOf(s, id).value.capacity && MeterOf(s, id).value.rate >= 0.0
  {
    if id in s.buckets {
      assert ReadyBucket(s.buckets[id], t);
      LevelGrows(s.buckets[id], t, t);
        hide Level;
    }
  }

  /** Between two events a bucket only fills up. */
  lemma GapFlow(s: State, id: int, t1: real, t2: real)
    requires Ready(s, t1) && t1 <= t2 && id in s.buckets
    ensures Flow(s.buckets[id], t1, s.buckets[id], t2, 0) && ReadyBucket(s.buckets[id], t1)
  {
    FlowIdle(s.buckets[id], t1, t2);
    hide Flow;
  }

  /** One event, preceded by any time in which nothing happens. */
  lemma EventMoves(cfg: Config, s: State, t0: real, e: Event, id: int)
    requires t0 <= e.clock.t && Orderly(e) && !e.RestartEv? && Ready(s, t0)
    ensures Moved(MeterOf(s, id), t0, MeterOf(Next(cfg, s, e), id), EndOf(e), Served(cfg, s, e, id))
    ensures Ready(Next(cfg, s, e), EndOf(e)) && t0 <= EndOf(e)
  {
    ReadyLater(s, t0, e.clock.t);
    StepKeepsReady(cfg, s, e);
    var s' := Step(cfg, s, e);
    hide Step, Flow, Level;
    if id in s.buckets {
      StepFlow(cfg, s, e, id);
      GapFlow(s, id, t0, e.clock.t);
      FlowChain(s.buckets[id], t0, s.buckets[id], e.clock.t, s'.buckets[id], EndOf(e), 0, Served(cfg, s, e, id));
    } else {
      FirstBucket(cfg, s, e, id);
      assert id in s'.buckets ==> ReadyBucket(s'.buckets[id], EndOf(e));
    }
  }

  /** An event that finds no bucket: the key is handed out only if the event creates one. */
  lemma FirstBucket(cfg: Config, s: State, e: Event, id: int)
    requires Orderly(e) && Ready(s, e.clock.t) && id !in s.buckets
    ensures var s', n := Step(cfg, s, e), Served(cfg, s, e, id);
            && (id !in s'.buckets ==> n == 0)
            && (id in s'.buckets ==> n as real + Level(s'.buckets[id], EndOf(e)) <= s'.buckets[id].capacity)
  {
    StepKeepsReady(cfg, s, e);
    var s' := Step(cfg, s, e);
    if e.ReserveEv? && id in ReservedBy(cfg, s, e) {
      CreatedAndServed(s, e.req, e.clock, e.t2, e.draws, cfg.span, id);
    } else if id in s'.buckets {
      hide Step, Level, ReservedBy;
      assert ReadyBucket(s'.buckets[id], EndOf(e));
      LevelGrows(s'.buckets[id], EndOf(e), EndOf(e));
    }
  }

  lemma CreatedAndServed(s: State, req: ReserveReq, clock: Clock, t2: real, draws: seq<real>, span: real, id: int)
    requires DistinctIds(req.candidates) && |draws| >= |req.candidates| && clock.t <= t2
    requires BucketsReady(s, clock.t) && 0.0 < s.active.headroom <= 1.0
    requires id in Reserve(s, req, clock, t2, draws, span).1.reserved
    ensures var b := Reserve(s, req, clock, t2, draws, span).0.buckets;
            id in b && 1.0 + Level(b[id], t2) <= b[id].capacity
  {
    ReserveAccounting(s, req, clock, t2, draws, span);
    var out := Reserve(s, req, clock, t2, draws, span);
    hide Reserve, ScanAll, TB.Valid;
    var i :| 0 <= i < |out.1.reserved| && out.1.reserved[i] == id;
    assert Charged(out.0, s, req.candidates, id, clock.t, t2);
    var m :| 0 <= m < |req.candidates| && req.candidates[m].id == id
             && SpentOne(out.0, s, req.candidates[m], clock.t, t2);
    var b := Found(s, req.candidates[m], clock.t);
    assert ReadyBucket(b, clock.t) by {
      FoundReady(s, req.candidates[m], clock.t);
    }
    LevelGrows(b, t2, t2);
    TB.RefillValid(b, t2);
    hide TB.Refill;
    SettledLevel(out.0.buckets[id], t2);
  }

  lemma FoundReady(s: State, c: Candidate, t: real)
    requires BucketsReady(s, t)
    ensures ReadyBucket(Found(s, c, t), t)
  {
  }

  lemma SettledLevel(b: TB.Bucket, t: real)
    requires b.last == t
    ensures Level(b, t) == b.tokens
  {
  }

  lemma {:induction false} RunKept(cfg: Config, s: State, t0: real, es: seq<Event>, id: int)
    requires Timed(t0, es) && NoRestart(es) && Ready(s, t0)
    ensures Kept(MeterOf(s, id), t0, MeterOf(AfterRun(cfg, s, es), id), EndTime(t0, es), TimesServed(cfg, s, es, id))
    decreases |es|
  {
    hide Orderly, Ready, MeterOf, Kept, Moved, Next, Served;
    if es == [] {
      NothingKept(s, t0, id);
    } else {
      var e, s', rest := es[0], Next(cfg, s, es[0]), es[1..];
      EventMoves(cfg, s, t0, e, id);
      RunKept(cfg, s', EndOf(e), rest, id);
      EndsLater(EndOf(e), rest);
      MovedThenKept(
        MeterOf(s, id), t0, MeterOf(s', id), EndOf(e), MeterOf(AfterRun(cfg, s, es), id), EndTime(t0, es),
        Served(cfg, s, e, id), TimesServed(cfg, s', rest, id));
    }
  }

  /** The kernel as a whole keeps the rate, from its own start or from any state on: over any run without
      a restart, whatever the strategies, reports and breakers do, a key is handed out at most as often
      as one full bucket plus its rate times the elapsed time allows; never, if it has no bucket yet. */
  lemma KernelKeepsRate(cfg: Config, s: State, t0: real, es: seq<Event>, id: int)
    requires Timed(t0, es) && NoRestart(es) && Ready(s, t0)
    ensures var n, end := TimesServed(cfg, s, es, id), MeterOf(AfterRun(cfg, s, es), id);
            match end
            case None => n == 0
            case Some(b) => n as real <= b.capacity + b.rate * (EndTime(t0, es) - t0)
  {
    hide *;
    RunKept(cfg, s, t0, es, id);
    NothingKept(s, t0, id);
    KeptMeans(
      MeterOf(s, id), t0, MeterOf(AfterRun(cfg, s, es), id), EndTime(t0, es), TimesServed(cfg, s, es, id));
  }

  lemma KeptMeans(b: Option<TB.Bucket>, t0: real, b': Option<TB.Bucket>, t1: real, n: nat)
    requires Kept(b, t0, b', t1, n) && (b.Some? ==> Level(b.value, t0) <= b.value.capacity)
    ensures match b'
            case None => n == 0
            case Some(x) => n as real <= x.capacity + x.rate * (t1 - t0)
  {
    hide Level;
    if b.Some? {
      assert b.value.rate * (t1 - t0) == b'.value.rate * (t1 - t0);
    }
  }

  // ---- The rate in requests per minute ----------------------------------------

  /** A bucket of at most `limit` tokens, refilled in a minute. */
  predicate Metered(b: Option<TB.Bucket>, limit: int) {
    b.Some? ==> b.value.rate * 60.0 == b.value.capacity && b.value.capacity <= limit as real
  }

  /** The event offers the key with at most `limit` requests a minute. A calibration that finds no bucket
      builds one of 500. */
  predicate LimitedTo(e: Event, id: int, limit: int) {
    match e
    case ReserveEv(_, _, req, _) =>
      forall m :: 0 <= m < |req.candidates| && req.candidates[m].id == id ==> req.candidates[m].rpm <= limit
    case ReportEv(_, items) => Calibrates(items, id) ==> 500 <= limit
    case _ => true
  }

  predicate Calibrates(items: seq<ReportItem>, id: int) {
    exists i :: 0 <= i < |items| && items[i].id == id && items[i].remaining.Some?
  }

  lemma SameMeters(b: TB.Bucket, t: real, n: int)
    ensures SameMeter(b, TB.Refill(b, t)) && SameMeter(b, TB.Take(b, t, n)) && SameMeter(b, TB.Calibrated(b, t, n))
  {
  }

  lemma {:induction false} ScanMetered(s: State, cands: seq<Candidate>, clock: Clock, span: real, id: int, limit: int)
    requires limit >= 1 && Metered(MeterOf(s, id), limit)
    requires forall m :: 0 <= m < |cands| && cands[m].id == id ==> cands[m].rpm <= limit
    ensures Metered(MeterOf(ScanAll(s, cands, clock, span).st, id), limit)
  {
    if cands != [] {
      var pre, c := cands[..|cands| - 1], cands[|cands| - 1];
      ScanMetered(s, pre, clock, span, id, limit);
      var p := ScanAll(s, pre, clock, span);
      ConsiderCases(p, c, clock, span);
      if c.id == id {
        SameMeters(Found(p.st, c, clock.t), clock.t, 0);
      }
      hide Consider, TB.Refill, Entered, TB.Take, TB.Calibrated;
    }
  }

  lemma {:induction false} SpendMetered(buckets: map<int, TB.Bucket>, ids: seq<int>, t: real, id: int)
    ensures id in Spend(buckets, ids, t) <==> id in buckets
    ensures id in buckets ==> SameMeter(buckets[id], Spend(buckets, ids, t)[id])
  {
    if ids != [] {
      var m, last := Spend(buckets, ids[..|ids| - 1], t), ids[|ids| - 1];
      SpendMetered(buckets, ids[..|ids| - 1], t, id);
      if last in m {
        SameMeters(m[last], t, 1);
      }
      hide TB.Take, TB.Refill, TB.Calibrated;
    }
  }

  lemma {:induction false} FeedMetered(s: State, items: seq<ReportItem>, cfg: Config, clock: Clock, id: int, limit: int)
    requires Metered(MeterOf(s, id), limit) && (Calibrates(items, id) ==> 500 <= limit)
    ensures Metered(MeterOf(FeedAll(s, items, cfg, clock).st, id), limit)
  {
    if items != [] {
      var pre, r := items[..|items| - 1], items[|items| - 1];
      assert Calibrates(pre, id) ==> Calibrates(items, id);
      FeedMetered(s, pre, cfg, clock, id, limit);
      var p := FeedAll(s, pre, cfg, clock);
      FeedBuckets(p, r, cfg, clock);
      if r.id == id && r.remaining.Some? {
        assert items[|items| - 1].id == id;
        SameMeters(BucketOf(p.st.buckets, id, 500, clock.t), clock.t, r.remaining.value);
      }
      hide Feed, TB.Calibrated, TB.Take, TB.Refill;
    }
  }

  lemma EventMetered(cfg: Config, s: State, e: Event, id: int, limit: int)
    requires limit >= 1 && Enough(e) && Metered(MeterOf(s, id), limit) && LimitedTo(e, id, limit)
    ensures Metered(MeterOf(Step(cfg, s, e), id), limit)
  {
    match e
    case ReserveEv(clock, t2, req, draws) =>
      ScanMetered(s, req.candidates, clock, cfg.span, id, limit);
      var p := ScanAll(s, req.candidates, clock, cfg.span);
      SpendMetered(p.st.buckets, if p.viable == [] then [] else Taken(p, req.concurrency, draws), t2, id);
      hide ScanAll, Taken, Spend;
    case ReportEv(clock, items) => FeedMetered(s, items, cfg, clock, id, limit); hide FeedAll;
    case _ =>
  }

  lemma {:induction false} RunMetered(cfg: Config, s: State, t0: real, es: seq<Event>, id: int, limit: int)
    requires Timed(t0, es) && limit >= 1 && Metered(MeterOf(s, id), limit)
    requires forall i :: 0 <= i < |es| ==> LimitedTo(es[i], id, limit)
    ensures Metered(MeterOf(AfterRun(cfg, s, es), id), limit)
    decreases |es|
  {
    if es != [] {
      EventMetered(cfg, s, es[0], id, limit);
      hide Step, Metered, LimitedTo;
      assert forall i :: 0 <= i < |es[1..]| ==> es[1..][i] == es[i + 1];
      RunMetered(cfg, Next(cfg, s, es[0]), EndOf(es[0]), es[1..], id, limit);
    }
  }

  /** The rate a key is configured with, in requests a minute, holds over any run without a restart: in
      `elapsed` seconds a key offered with at most `limit` is handed out at most `limit` times at once and
      `limit` times more for each minute. */
  lemma KernelKeepsLimit(cfg: Config, s: State, t0: real, es: seq<Event>, id: int, limit: int)
    requires Timed(t0, es) && NoRestart(es) && Ready(s, t0) && limit >= 1 && Metered(MeterOf(s, id), limit)
    requires forall i :: 0 <= i < |es| ==> LimitedTo(es[i], id, limit)
    ensures TimesServed(cfg, s, es, id) as real * 60.0 <= limit as real * (60.0 + (EndTime(t0, es) - t0))
  {
    hide *;
    KernelKeepsRate(cfg, s, t0, es, id);
    RunMetered(cfg, s, t0, es, id, limit);
    EndsLater(t0, es);
    InMinutes(MeterOf(AfterRun(cfg, s, es), id), limit, TimesServed(cfg, s, es, id), EndTime(t0, es) - t0);
  }

  lemma InMinutes(b: Option<TB.Bucket>, limit: int, n: nat, elapsed: real)
    requires limit >= 1 && elapsed >= 0.0 && Metered(b, limit)
    requires match b
             case None => n == 0
             case Some(x) => n as real <= x.capacity + x.rate * elapsed
    ensures n as real * 60.0 <= limit as real * (60.0 + elapsed)
  {
    if b.Some? {
      var cap, rate, top := b.value.capacity, b.value.rate, limit as real;
      assert (rate * elapsed) * 60.0 == cap * elapsed;
      assert (top - cap) * (60.0 + elapsed) >= 0.0;
    } else {
      assert limit as real * (60.0 + elapsed) >= 0.0;
    }
  }

  // ---- Calibration ------------------------------------------------------------

  /** After a report the key can give `n` tokens if and only if it could before and no result of the report
      said that fewer are left; a key without a bucket counts as having a full one of 500. */
  lemma {:induction false} ReportedLevel(
    s: State, items: seq<ReportItem>, cfg: Config, clock: Clock, id: int, n: int)
    requires BucketsReady(s, clock.t) && Calibrates(items, id)
    requires forall i :: 0 <= i < |items| && items[i].remaining.Some? ==> items[i].remaining.value >= 0
    ensures var b, st := BucketOf(s.buckets, id, 500, clock.t), FeedAll(s, items, cfg, clock).st;
            && id in st.buckets
            && (TB.CanTake(st.buckets[id], clock.t, n) <==> TB.CanTake(b, clock.t, n) && LeftFor(items, id, n))
  {
    var pre, r := items[..|items| - 1], items[|items| - 1];
    var p := FeedAll(s, pre, cfg, clock);
    FeedReady(s, pre, cfg, clock);
    FeedBuckets(p, r, cfg, clock);
    LeftForLast(items, id, n);
    hide Feed, TB.Calibrated, TB.CanTake, LeftFor;
    if Calibrates(pre, id) {
      ReportedLevel(s, pre, cfg, clock, id, n);
    } else {
      NotCalibrated(s, pre, cfg, clock, id);
      NoneReported(pre, id, n);
    }
    if r.id == id && r.remaining.Some? {
      var b := BucketOf(p.st.buckets, id, 500, clock.t);
      assert ReadyBucket(b, clock.t);
      TB.CalibratedExactly(b, clock.t, r.remaining.value, n);
    }
  }

  /** Every remaining count reported for the key is `n` or more. */
  predicate LeftFor(items: seq<ReportItem>, id: int, n: int) {
    forall i :: 0 <= i < |items| && items[i].id == id && items[i].remaining.Some? ==> n <= items[i].remaining.value
  }

  lemma LeftForLast(items: seq<ReportItem>, id: int, n: int)
    requires items != []
    ensures var pre, r := items[..|items| - 1], items[|items| - 1];
            && (LeftFor(items, id, n) <==>
                  LeftFor(pre, id, n) && (r.id == id && r.remaining.Some? ==> n <= r.remaining.value))
            && (Calibrates(items, id) <==> Calibrates(pre, id) || (r.id == id && r.remaining.Some?))
  {
    assert items == items[..|items| - 1] + [items[|items| - 1]];
  }

  lemma NoneReported(items: seq<ReportItem>, id: int, n: int)
    requires !Calibrates(items, id)
    ensures LeftFor(items, id, n)
  {
  }

  lemma {:induction false} NotCalibrated(s: State, items: seq<ReportItem>, cfg: Config, clock: Clock, id: int)
    requires !Calibrates(items, id)
    ensures MeterOf(FeedAll(s, items, cfg, clock).st, id) == MeterOf(s, id)
  {
    if items != [] {
      LeftForLast(items, id, 0);
      NotCalibrated(s, items[..|items| - 1], cfg, clock, id);
      FeedBuckets(FeedAll(s, items[..|items| - 1], cfg, clock), items[|items| - 1], cfg, clock);
      hide Feed, TB.Calibrated, Calibrates;
    }
  }

  /** The kernel's own start is such a state. */
  lemma StartIsReady(store: map<int, Breaker>, active: Strategy, t: real)
    requires 0.0 < active.headroom <= 1.0
    ensures Ready(State(store, map[], map[], store, 0, active), t)
  {
  }
}
