/** Circuit breakers over whole runs of the kernel: any interleaving of reserves, reports, restarts
    and strategy switches, with a clock that never runs backwards and fixed breaker settings. */
module KernelSafety {
  import opened Backoff
  import opened Options
  import TB = TokenBuckets
  import HW = HealthWindows
  import opened Selection
  import opened Kernel

  /** One key's breaker in memory and its row in the persisted table. */
  datatype Cell = Cell(mem: Breaker, disk: Breaker)

  function CellOf(s: State, id: int): Cell {
    Cell(BreakerOf(s.brk, id), BreakerOf(s.store, id))
  }

  // ---- What each handler does to one key --------------------------------------

  function Promoted(c: Cell, now: int): Cell {
    if Expired(c.mem, now) then Cell(Promote(c.mem, now), Promote(c.mem, now)) else c
  }

  function FedCell(c: Cell, r: ReportItem, id: int, cfg: Config, now: int): Cell {
    if r.id != id then c
    else
      var kb := Feedback(c.mem, r.success, cfg, now);
      Cell(kb, if kb.status != c.mem.status then kb else c.disk)
  }

  function FedCells(c: Cell, items: seq<ReportItem>, id: int, cfg: Config, now: int): Cell {
    if items == [] then c
    else FedCell(FedCells(c, items[..|items| - 1], id, cfg, now), items[|items| - 1], id, cfg, now)
  }

  ghost predicate Names(cands: seq<Candidate>, id: int) {
    exists i :: 0 <= i < |cands| && cands[i].id == id
  }

  lemma {:induction false} ScanCell(s: State, cands: seq<Candidate>, clock: Clock, span: real, id: int)
    ensures var p := ScanAll(s, cands, clock, span);
            && p.st.active == s.active && p.st.rr == s.rr
            && CellOf(p.st, id) == if Names(cands, id) then Promoted(CellOf(s, id), clock.now) else CellOf(s, id)
  {
    if cands != [] {
      var pre, c := cands[..|cands| - 1], cands[|cands| - 1];
      ScanCell(s, pre, clock, span, id);
      NamesLast(cands, id);
      ConsiderCell(ScanAll(s, pre, clock, span), c, clock, span, id);
    }
  }

  lemma NamesLast(cands: seq<Candidate>, id: int)
    requires cands != []
    ensures Names(cands, id) <==> cands[|cands| - 1].id == id || Names(cands[..|cands| - 1], id)
  {
    var pre := cands[..|cands| - 1];
    if Names(pre, id) {
      var i :| 0 <= i < |pre| && pre[i].id == id;
      assert cands[i].id == id;
    }
    if Names(cands, id) && cands[|cands| - 1].id != id {
      var i :| 0 <= i < |cands| && cands[i].id == id;
      assert pre[i].id == id;
    }
  }

  lemma ConsiderCell(p: Scan, c: Candidate, clock: Clock, span: real, id: int)
    ensures var q := Consider(p, c, clock, span);
            && q.st.active == p.st.active && q.st.rr == p.st.rr
            && CellOf(q.st, id) == if c.id == id then Promoted(CellOf(p.st, id), clock.now) else CellOf(p.st, id)
  {
    var p1 := Advance(p, c.id, clock.now);
    var kb := p1.st.brk[c.id];
    AdmitKeeps(p1, c, kb.fails, clock.t, span);
    AdmitKeeps(p1.(probes := p.probes - 1), c, kb.fails, clock.t, span);
    hide Admit;
  }

  lemma AdmitKeeps(p: Scan, c: Candidate, fails: nat, t: real, span: real)
    ensures var q := Admit(p, c, fails, t, span).st;
            q.active == p.st.active && q.rr == p.st.rr && q.brk == p.st.brk && q.store == p.st.store
  {
    hide TB.Refill, TB.Admits, TB.Fresh, HW.Evict, HW.Rate, WeightedScore;
  }

  lemma ReserveCell(s: State, req: ReserveReq, clock: Clock, t2: real, draws: seq<real>, span: real, id: int)
    requires |draws| >= |req.candidates|
    ensures CellOf(Reserve(s, req, clock, t2, draws, span).0, id)
         == if Names(req.candidates, id) then Promoted(CellOf(s, id), clock.now) else CellOf(s, id)
  {
    hide ScanAll, Taken, Spend;
    ScanCell(s, req.candidates, clock, span, id);
  }

  /** A reserve gives a fresh start to exactly the offered keys that are open and whose deadline has passed,
      in memory and in the table, and changes no other breaker. */
  lemma PromotesExactly(
    s: State, req: ReserveReq, clock: Clock, t2: real, draws: seq<real>, span: real, id: int)
    requires |draws| >= |req.candidates|
    ensures var b, st := BreakerOf(s.brk, id), Reserve(s, req, clock, t2, draws, span).0;
            if Names(req.candidates, id) && b.status == Open && b.until <= clock.now
            then BreakerOf(st.brk, id) == BreakerOf(st.store, id) == Breaker(HalfOpen, 0, 0)
            else BreakerOf(st.brk, id) == b && BreakerOf(st.store, id) == BreakerOf(s.store, id)
  {
    ReserveCell(s, req, clock, t2, draws, span, id);
    hide Reserve, Names;
  }

  lemma {:induction false} ReportCell(s: State, items: seq<ReportItem>, cfg: Config, clock: Clock, id: int)
    ensures CellOf(FeedAll(s, items, cfg, clock).st, id) == FedCells(CellOf(s, id), items, id, cfg, clock.now)
    ensures FeedAll(s, items, cfg, clock).st.active == s.active
  {
    if items != [] {
      hide Cooldown;
      ReportCell(s, items[..|items| - 1], cfg, clock, id);
    }
  }

  /** Only keys that are not open after promotion can be reserved. */
  lemma {:induction false} ViableNotOpen(s: State, cands: seq<Candidate>, clock: Clock, span: real, id: int)
    ensures id in Ids(ScanAll(s, cands, clock, span).viable) ==>
      Names(cands, id) && !(BreakerOf(s.brk, id).status == Open && BreakerOf(s.brk, id).until > clock.now)
  {
    if cands != [] {
      var pre, c := cands[..|cands| - 1], cands[|cands| - 1];
      var p := ScanAll(s, pre, clock, span);
      ViableNotOpen(s, pre, clock, span, id);
      NamesLast(cands, id);
      if c.id == id {
        ScanCell(s, pre, clock, span, id);
        if BreakerOf(s.brk, id).status == Open && BreakerOf(s.brk, id).until > clock.now {
          SkipsOpen(p, c, clock, span);
        }
      } else {
        AddsOnly(p, c, clock, span, id);
      }
    }
  }

  lemma SkipsOpen(p: Scan, c: Candidate, clock: Clock, span: real)
    requires BreakerOf(p.st.brk, c.id).status == Open && BreakerOf(p.st.brk, c.id).until > clock.now
    ensures Consider(p, c, clock, span).viable == p.viable
  {
  }

  lemma AddsOnly(p: Scan, c: Candidate, clock: Clock, span: real, id: int)
    requires c.id != id
    ensures id in Ids(Consider(p, c, clock, span).viable) ==> id in Ids(p.viable)
  {
    var before, after := p.viable, Consider(p, c, clock, span).viable;
    assert after == before || (|after| == |before| + 1 && after[..|before|] == before && after[|before|].id == c.id);
    if id in Ids(after) {
      var i :| 0 <= i < |after| && Ids(after)[i] == id;
      assert after[i].id == id;
      assert Ids(before)[i] == id;
    }
  }

  lemma ReservedAreViable(s: State, req: ReserveReq, clock: Clock, t2: real, draws: seq<real>, span: real, id: int)
    requires |draws| >= |req.candidates|
    ensures id in Reserve(s, req, clock, t2, draws, span).1.reserved
        ==> id in Ids(ScanAll(s, req.candidates, clock, span).viable)
  {
    var p := ScanAll(s, req.candidates, clock, span);
    hide ScanAll, Spend;
    if p.viable != [] {
      var ordered := Order(p.st.active.selection, p.viable, p.st.rr, draws);
      OrderIsPermutation(p.st.active.selection, p.viable, p.st.rr, draws);
      var ids := Taken(p, req.concurrency, draws);
      if id in ids {
        var i :| 0 <= i < |ids| && ids[i] == id;
        assert ordered[i] in multiset(ordered);
        assert ordered[i] in p.viable;
        var j :| 0 <= j < |p.viable| && p.viable[j] == ordered[i];
        assert Ids(p.viable)[j] == id;
      }
    }
  }

  // ---- Runs -------------------------------------------------------------------

  datatype Event =
    | ReserveEv(clock: Clock, t2: real, req: ReserveReq, draws: seq<real>)
    | ReportEv(clock: Clock, items: seq<ReportItem>)
    | RestartEv(clock: Clock)
    | StrategyEv(clock: Clock, strategy: Strategy)

  predicate Enough(e: Event) {
    e.ReserveEv? ==> |e.draws| >= |e.req.candidates|
  }

  /** A restart reloads the breakers from the table; buckets, windows and the pointer start over. */
  function Step(cfg: Config, s: State, e: Event): State
    requires Enough(e)
  {
    match e
    case ReserveEv(clock, t2, req, draws) => Reserve(s, req, clock, t2, draws, cfg.span).0
    case ReportEv(clock, items) => FeedAll(s, items, cfg, clock).st
    case RestartEv(_) => State(s.store, map[], map[], s.store, 0, s.active)
    case StrategyEv(_, strategy) => s.(active := strategy)
  }

  function ReservedBy(cfg: Config, s: State, e: Event): seq<int>
    requires Enough(e)
  {
    match e
    case ReserveEv(clock, t2, req, draws) => Reserve(s, req, clock, t2, draws, cfg.span).1.reserved
    case _ => []
  }

  predicate Run(es: seq<Event>) {
    && (forall i :: 0 <= i < |es| ==> Enough(es[i]))
    && (forall i, j :: 0 <= i < j < |es| ==> es[i].clock.now <= es[j].clock.now)
  }

  /** The state before the i-th event. */
  function At(cfg: Config, s0: State, es: seq<Event>, i: nat): State
    requires Run(es) && i <= |es|
  {
    if i == 0 then s0 else Step(cfg, At(cfg, s0, es, i - 1), es[i - 1])
  }

  function StepCell(cfg: Config, c: Cell, e: Event, id: int): Cell
  {
    match e
    case ReserveEv(clock, _, _, _) => Promoted(c, clock.now)
    case ReportEv(clock, items) => FedCells(c, items, id, cfg, clock.now)
    case RestartEv(_) => Cell(c.disk, c.disk)
    case StrategyEv(_, _) => c
  }

  /** The kernel is, key by key, this small machine; a reserve leaves keys it was not offered alone. */
  lemma StepIsPerKey(cfg: Config, s: State, e: Event, id: int)
    requires Enough(e)
    ensures CellOf(Step(cfg, s, e), id)
         == if e.ReserveEv? && !Names(e.req.candidates, id) then CellOf(s, id) else StepCell(cfg, CellOf(s, id), e, id)
  {
    hide Reserve, FeedAll, FedCells, Promoted;
    match e
    case ReserveEv(clock, t2, req, draws) => ReserveCell(s, req, clock, t2, draws, cfg.span, id);
    case ReportEv(clock, items) => ReportCell(s, items, cfg, clock, id);
    case _ =>
  }

  // ---- Invariant and edges ----------------------------------------------------

  predicate Sane(cfg: Config) {
    cfg.threshold >= 1 && cfg.base >= 0
  }

  /** Memory and table agree on the status; a breaker that is not open is below the threshold; the
      table holds the count and deadline of the opening itself; and a deadline was computed from a
      count still held, at a time not after `now`. */
  predicate SafeCell(c: Cell, cfg: Config, now: int) {
    && c.mem.status == c.disk.status
    && (c.mem.status != Open ==> c.mem.fails < cfg.threshold && c.disk.fails < cfg.threshold)
    && (c.disk.status == Open ==> c.disk.fails == cfg.threshold && c.disk.until <= now + Cooldown(cfg.base, 0))
    && (c.mem.status == Open && c.mem.fails >= cfg.threshold ==>
          c.mem.until <= now + Cooldown(cfg.base, c.mem.fails - cfg.threshold))
  }

  predicate Edge(a: Status, b: Status) {
    || a == b
    || (a == Active && b == Open)
    || (a == HalfOpen && b == Open)
    || (a == HalfOpen && b == Active)
    || (a == Open && b == HalfOpen)
  }

  lemma SafeLater(c: Cell, cfg: Config, now: int, later: int)
    requires SafeCell(c, cfg, now) && now <= later
    ensures SafeCell(c, cfg, later)
  {
    hide Cooldown;
  }

  lemma {:induction false} FedCellsSafe(c: Cell, items: seq<ReportItem>, id: int, cfg: Config, now: int)
    requires Sane(cfg) && SafeCell(c, cfg, now)
    ensures var d := FedCells(c, items, id, cfg, now);
            && SafeCell(d, cfg, now)
            && (c.mem.status == Open ==> d.mem.status == Open && d.disk == c.disk)
            && (c.mem.status == Active ==> d.mem.status != HalfOpen)
            && (c.mem.status != Open && d.mem.status == Open ==>
                  d.disk.until == now + Cooldown(cfg.base, 0) <= d.mem.until)
  {
    if items != [] {
      hide Cooldown;
      var d := FedCells(c, items[..|items| - 1], id, cfg, now);
      FedCellsSafe(c, items[..|items| - 1], id, cfg, now);
      var k := d.mem.fails + 1 - cfg.threshold;
      if k >= 0 {
        CooldownMonotone(cfg.base, 0, k);
      }
    }
  }

  /** One event, one key: the invariant is kept, the status moves only along the four edges, the
      half-open promotion happens only in a reserve after the deadline, the others only in a report. */
  lemma EventSafe(cfg: Config, s: State, e: Event, id: int)
    requires Sane(cfg) && Enough(e) && SafeCell(CellOf(s, id), cfg, e.clock.now)
    ensures var c, d := CellOf(s, id), CellOf(Step(cfg, s, e), id);
            && SafeCell(d, cfg, e.clock.now)
            && Edge(c.mem.status, d.mem.status)
            && (c.mem.status == Open && d.mem.status != Open ==> e.ReserveEv? && c.mem.until <= e.clock.now)
            && (c.mem.status != Open && d.mem.status != c.mem.status ==> e.ReportEv?)
  {
    StepIsPerKey(cfg, s, e, id);
    hide Step, Cooldown, FedCells;
    if e.ReportEv? {
      FedCellsSafe(CellOf(s, id), e.items, id, cfg, e.clock.now);
    }
  }

  ghost predicate SafeState(s: State, cfg: Config, now: int) {
    forall id :: SafeCell(CellOf(s, id), cfg, now)
  }

  /** Breaker safety over whole runs, from any safe state (a first start is one). */
  lemma {:induction false} RunSafe(cfg: Config, s0: State, es: seq<Event>, i: nat, id: int)
    requires Sane(cfg) && Run(es) && i < |es| && SafeCell(CellOf(s0, id), cfg, es[0].clock.now)
    ensures SafeCell(CellOf(At(cfg, s0, es, i), id), cfg, es[i].clock.now)
    ensures Edge(BreakerOf(At(cfg, s0, es, i).brk, id).status, BreakerOf(At(cfg, s0, es, i + 1).brk, id).status)
  {
    hide Step;
    if i > 0 {
      RunSafe(cfg, s0, es, i - 1, id);
      EventSafe(cfg, At(cfg, s0, es, i - 1), es[i - 1], id);
      SafeLater(CellOf(At(cfg, s0, es, i), id), cfg, es[i - 1].clock.now, es[i].clock.now);
    }
    EventSafe(cfg, At(cfg, s0, es, i), es[i], id);
  }

  lemma FirstStartSafe(cfg: Config, active: Strategy, now: int)
    requires Sane(cfg)
    ensures SafeState(State(map[], map[], map[], map[], 0, active), cfg, now)
  {
  }

  // ---- Deadlines --------------------------------------------------------------

  predicate Guarded(c: Cell, d: int) {
    c.mem.status == Open && c.mem.until >= d && c.disk.status == Open && c.disk.until >= d
  }

  lemma {:induction false} FedCellsGuarded(c: Cell, items: seq<ReportItem>, id: int, cfg: Config, now: int, d: int)
    requires Sane(cfg) && Guarded(c, d) && d <= now + Cooldown(cfg.base, 0)
    ensures Guarded(FedCells(c, items, id, cfg, now), d)
  {
    if items != [] {
      hide Cooldown;
      var b := FedCells(c, items[..|items| - 1], id, cfg, now);
      FedCellsGuarded(c, items[..|items| - 1], id, cfg, now, d);
      var k := b.mem.fails + 1 - cfg.threshold;
      if k >= 0 {
        CooldownMonotone(cfg.base, 0, k);
      }
    }
  }

  lemma EventGuarded(cfg: Config, s: State, e: Event, id: int, d: int)
    requires Sane(cfg) && Enough(e) && Guarded(CellOf(s, id), d)
    requires e.clock.now < d <= e.clock.now + Cooldown(cfg.base, 0)
    ensures Guarded(CellOf(Step(cfg, s, e), id), d)
    ensures id !in ReservedBy(cfg, s, e)
  {
    StepIsPerKey(cfg, s, e, id);
    hide Step, Cooldown, FedCells, Reserve;
    match e
    case ReserveEv(clock, t2, req, draws) =>
      ReservedAreViable(s, req, clock, t2, draws, cfg.span, id);
      ViableNotOpen(s, req.candidates, clock, cfg.span, id);
    case ReportEv(clock, items) =>
      FedCellsGuarded(CellOf(s, id), items, id, cfg, clock.now, d);
    case _ =>
  }

  /** A key whose breaker opens in event `i` is not reserved by any later event before the deadline
      persisted by that opening, whatever happens in between: failures, late successes, restarts. */
  lemma OpeningDeadlineHolds(cfg: Config, s0: State, es: seq<Event>, i: nat, j: nat, id: int)
    requires Sane(cfg) && Run(es) && i < j < |es| && SafeCell(CellOf(s0, id), cfg, es[0].clock.now)
    requires BreakerOf(At(cfg, s0, es, i).brk, id).status != Open
    requires BreakerOf(At(cfg, s0, es, i + 1).brk, id).status == Open
    ensures var d := BreakerOf(At(cfg, s0, es, i + 1).store, id).until;
            && d == es[i].clock.now + Cooldown(cfg.base, 0)
            && (id in ReservedBy(cfg, At(cfg, s0, es, j), es[j]) ==> es[j].clock.now >= d)
  {
    hide Step, Cooldown, ReservedBy;
    OpensGuarded(cfg, s0, es, i, id);
    var d := BreakerOf(At(cfg, s0, es, i + 1).store, id).until;
    if es[j].clock.now < d {
      StaysGuarded(cfg, s0, es, i, j, id, d);
      EventGuarded(cfg, At(cfg, s0, es, j), es[j], id, d);
    }
  }

  lemma OpensGuarded(cfg: Config, s0: State, es: seq<Event>, i: nat, id: int)
    requires Sane(cfg) && Run(es) && i < |es| && SafeCell(CellOf(s0, id), cfg, es[0].clock.now)
    requires BreakerOf(At(cfg, s0, es, i).brk, id).status != Open
    requires BreakerOf(At(cfg, s0, es, i + 1).brk, id).status == Open
    ensures Guarded(CellOf(At(cfg, s0, es, i + 1), id), es[i].clock.now + Cooldown(cfg.base, 0))
    ensures BreakerOf(At(cfg, s0, es, i + 1).store, id).until == es[i].clock.now + Cooldown(cfg.base, 0)
  {
    hide Step, Cooldown, FedCells;
    var s := At(cfg, s0, es, i);
    RunSafe(cfg, s0, es, i, id);
    EventSafe(cfg, s, es[i], id);
    StepIsPerKey(cfg, s, es[i], id);
    FedCellsSafe(CellOf(s, id), es[i].items, id, cfg, es[i].clock.now);
  }

  lemma {:induction false} StaysGuarded(cfg: Config, s0: State, es: seq<Event>, i: nat, j: nat, id: int, d: int)
    requires Sane(cfg) && Run(es) && i < j < |es|
    requires Guarded(CellOf(At(cfg, s0, es, i + 1), id), d)
    requires es[j].clock.now < d == es[i].clock.now + Cooldown(cfg.base, 0)
    ensures Guarded(CellOf(At(cfg, s0, es, j), id), d)
    decreases j
  {
    hide Step, Cooldown;
    if j > i + 1 {
      StaysGuarded(cfg, s0, es, i, j - 1, id, d);
      EventGuarded(cfg, At(cfg, s0, es, j - 1), es[j - 1], id, d);
    }
  }

  // ---- Deadline extensions ----------------------------------------------------

  /** The breaker is open until `d` or later. */
  predicate Holds(c: Cell, d: int) {
    c.mem.status == Open && c.mem.until >= d
  }

  /** The failure that brings an open key's deadline forward: the one that takes a count, zeroed by a
      late success or by the restart, to the threshold again, and only if the base cooldown from now on
      ends before `d`. */
  predicate Reopens(b: Breaker, r: ReportItem, id: int, cfg: Config, now: int, d: int) {
    r.id == id && !r.success && b.fails == cfg.threshold - 1 && now + Cooldown(cfg.base, 0) < d
  }

  /** The exact law for one result: nothing else moves a deadline to before `d`. */
  lemma ResultForgetsIff(c: Cell, r: ReportItem, id: int, cfg: Config, now: int, d: int)
    requires Sane(cfg) && SafeCell(c, cfg, now) && Holds(c, d)
    ensures !Holds(FedCell(c, r, id, cfg, now), d) <==> Reopens(c.mem, r, id, cfg, now, d)
    ensures FedCell(c, r, id, cfg, now).mem.until < c.mem.until <==> Reopens(c.mem, r, id, cfg, now, c.mem.until)
  {
    hide Cooldown;
    var k := c.mem.fails - cfg.threshold;
    if k >= 0 {
      CooldownMonotone(cfg.base, k, k + 1);
    }
  }

  /** The exact law for a restart: the persisted deadline is that of the opening. */
  lemma RestartForgetsIff(c: Cell, cfg: Config, now: int, d: int)
    requires SafeCell(c, cfg, now) && Holds(c, d)
    ensures var after := StepCell(cfg, c, RestartEv(Clock(now, 0.0)), 0);
            (!Holds(after, d) <==> c.disk.until < d)
            && (after.mem.until < c.mem.until <==> c.disk.until < c.mem.until)
  {
  }

  /** The deadline holds after each single result of an event, and after the event. */
  ghost predicate HeldThrough(cfg: Config, c: Cell, e: Event, id: int, d: int) {
    match e
    case ReportEv(clock, items) =>
      forall k :: 0 <= k <= |items| ==> Holds(FedCells(c, items[..k], id, cfg, clock.now), d)
    case _ => Holds(StepCell(cfg, c, e, id), d)
  }

  ghost predicate Forgets(cfg: Config, c: Cell, e: Event, id: int, d: int) {
    match e
    case ReportEv(clock, items) =>
      exists k :: 0 <= k < |items|
        && Reopens(FedCells(c, items[..k], id, cfg, clock.now).mem, items[k], id, cfg, clock.now, d)
    case RestartEv(_) => c.disk.until < d
    case _ => false
  }

  lemma FedNext(c: Cell, items: seq<ReportItem>, k: nat, id: int, cfg: Config, now: int)
    requires k < |items|
    ensures FedCells(c, items[..k + 1], id, cfg, now)
      == FedCell(FedCells(c, items[..k], id, cfg, now), items[k], id, cfg, now)
  {
    assert items[..k + 1][..k] == items[..k];
  }

  lemma {:induction false} ReportHolds(c: Cell, items: seq<ReportItem>, k: nat, id: int, cfg: Config, now: int, d: int)
    requires Sane(cfg) && SafeCell(c, cfg, now) && Holds(c, d) && k <= |items|
    requires forall m :: 0 <= m < k ==> !Reopens(FedCells(c, items[..m], id, cfg, now).mem, items[m], id, cfg, now, d)
    ensures Holds(FedCells(c, items[..k], id, cfg, now), d)
  {
    if k > 0 {
      ReportHolds(c, items, k - 1, id, cfg, now, d);
      FedCellsSafe(c, items[..k - 1], id, cfg, now);
      FedNext(c, items, k - 1, id, cfg, now);
      hide FedCells, FedCell, SafeCell, Reopens;
      ResultForgetsIff(FedCells(c, items[..k - 1], id, cfg, now), items[k - 1], id, cfg, now, d);
    }
  }

  /** One event before the deadline keeps it, result by result, exactly when it does not forget it. */
  lemma EventHoldsIff(cfg: Config, c: Cell, e: Event, id: int, d: int)
    requires Sane(cfg) && SafeCell(c, cfg, e.clock.now) && Holds(c, d) && e.clock.now < d
    ensures HeldThrough(cfg, c, e, id, d) <==> !Forgets(cfg, c, e, id, d)
  {
    hide Cooldown;
    if e.ReportEv? {
      var items, now := e.items, e.clock.now;
      if HeldThrough(cfg, c, e, id, d) {
        forall k | 0 <= k < |items|
          ensures !Reopens(FedCells(c, items[..k], id, cfg, now).mem, items[k], id, cfg, now, d) {
          FedCellsSafe(c, items[..k], id, cfg, now);
          FedNext(c, items, k, id, cfg, now);
          ResultForgetsIff(FedCells(c, items[..k], id, cfg, now), items[k], id, cfg, now, d);
        }
      }
      if !Forgets(cfg, c, e, id, d) {
        forall k | 0 <= k <= |items| ensures Holds(FedCells(c, items[..k], id, cfg, now), d) {
          ReportHolds(c, items, k, id, cfg, now, d);
        }
      }
    }
  }

  lemma HeldAfter(cfg: Config, s: State, e: Event, id: int, d: int)
    requires Enough(e) && Holds(CellOf(s, id), d) && HeldThrough(cfg, CellOf(s, id), e, id, d)
    ensures Holds(CellOf(Step(cfg, s, e), id), d)
  {
    StepIsPerKey(cfg, s, e, id);
    hide Step, FedCells;
    if e.ReportEv? {
      assert e.items[..|e.items|] == e.items;
    }
  }

  /** The cell of the key before the m-th event. */
  function CellAt(cfg: Config, s0: State, es: seq<Event>, m: nat, id: int): Cell
    requires Run(es) && m <= |es|
  {
    CellOf(At(cfg, s0, es, m), id)
  }

  lemma {:induction false} HoldsUntil(cfg: Config, s0: State, es: seq<Event>, i: nat, j: nat, id: int, d: int)
    requires Sane(cfg) && Run(es) && i <= j < |es| && SafeCell(CellAt(cfg, s0, es, 0, id), cfg, es[0].clock.now)
    requires Holds(CellAt(cfg, s0, es, i, id), d) && HeldFrom(cfg, s0, es, i, j, id, d)
    ensures Holds(CellAt(cfg, s0, es, j, id), d) && SafeCell(CellAt(cfg, s0, es, j, id), cfg, es[j].clock.now)
    decreases j
  {
    hide Step, Holds, HeldThrough, SafeCell;
    RunSafe(cfg, s0, es, j, id);
    if j > i {
      HoldsUntil(cfg, s0, es, i, j - 1, id, d);
      HeldAfter(cfg, At(cfg, s0, es, j - 1), es[j - 1], id, d);
    }
  }

  /** The deadline holds through every event from `i` up to `j`. */
  ghost predicate HeldFrom(cfg: Config, s0: State, es: seq<Event>, i: nat, j: nat, id: int, d: int)
    requires Run(es) && j <= |es|
  {
    forall m :: i <= m < j ==> HeldThrough(cfg, CellAt(cfg, s0, es, m, id), es[m], id, d)
  }

  ghost predicate ForgottenFrom(cfg: Config, s0: State, es: seq<Event>, i: nat, j: nat, id: int, d: int)
    requires Run(es) && j <= |es|
  {
    exists m :: i <= m < j && Forgets(cfg, CellAt(cfg, s0, es, m, id), es[m], id, d)
  }

  lemma OneMore(cfg: Config, s0: State, es: seq<Event>, i: nat, j: nat, id: int, d: int)
    requires Run(es) && i < j <= |es|
    ensures var c, e := CellAt(cfg, s0, es, j - 1, id), es[j - 1];
            && (HeldFrom(cfg, s0, es, i, j, id, d) <==>
                  HeldFrom(cfg, s0, es, i, j - 1, id, d) && HeldThrough(cfg, c, e, id, d))
            && (ForgottenFrom(cfg, s0, es, i, j, id, d) <==>
                  ForgottenFrom(cfg, s0, es, i, j - 1, id, d) || Forgets(cfg, c, e, id, d))
  {
    hide CellAt, HeldThrough, Forgets;
  }

  /** The exact law over runs: up to a time before `d`, a deadline of `d` or later holds through every
      event and every single result if and only if no event forgets it. The opening's own deadline is
      never forgotten (`OpeningDeadlineHolds`); an extended one is, by a restart that finds an earlier
      deadline in the table, or by a failure that finds the count zeroed to just below the threshold. */
  lemma {:induction false} ExtendedDeadlineHoldsIff(
    cfg: Config, s0: State, es: seq<Event>, i: nat, j: nat, id: int, d: int)
    requires Sane(cfg) && Run(es) && i <= j < |es| && SafeCell(CellAt(cfg, s0, es, 0, id), cfg, es[0].clock.now)
    requires Holds(CellAt(cfg, s0, es, i, id), d) && es[j].clock.now < d
    ensures HeldFrom(cfg, s0, es, i, j, id, d) <==> !ForgottenFrom(cfg, s0, es, i, j, id, d)
    decreases j
  {
    hide *;
    if i == j {
      NoneYet(cfg, s0, es, i, id, d);
    } else {
      var c := CellAt(cfg, s0, es, j - 1, id);
      ClockOrder(es, j - 1, j);
      OneMore(cfg, s0, es, i, j, id, d);
      ExtendedDeadlineHoldsIff(cfg, s0, es, i, j - 1, id, d);
      if HeldFrom(cfg, s0, es, i, j - 1, id, d) {
        HoldsUntil(cfg, s0, es, i, j - 1, id, d);
        EventHoldsIff(cfg, c, es[j - 1], id, d);
      }
    }
  }

  lemma NoneYet(cfg: Config, s0: State, es: seq<Event>, i: nat, id: int, d: int)
    requires Run(es) && i <= |es|
    ensures HeldFrom(cfg, s0, es, i, i, id, d) && !ForgottenFrom(cfg, s0, es, i, i, id, d)
  {
  }

  lemma ClockOrder(es: seq<Event>, i: nat, j: nat)
    requires Run(es) && i < j < |es|
    ensures es[i].clock.now <= es[j].clock.now
  {
  }

  /** While it holds the key is not handed out: an extended deadline is kept as long as no event forgets
      it. */
  lemma ExtendedDeadlineHolds(cfg: Config, s0: State, es: seq<Event>, i: nat, j: nat, id: int)
    requires Sane(cfg) && Run(es) && i <= j < |es| && SafeCell(CellAt(cfg, s0, es, 0, id), cfg, es[0].clock.now)
    requires CellAt(cfg, s0, es, i, id).mem.status == Open
    requires !ForgottenFrom(cfg, s0, es, i, j, id, CellAt(cfg, s0, es, i, id).mem.until)
    ensures id in ReservedBy(cfg, At(cfg, s0, es, j), es[j]) ==> es[j].clock.now >= CellAt(cfg, s0, es, i, id).mem.until
  {
    hide Step, Reserve, HeldThrough, Forgets, SafeCell;
    var d, s := CellAt(cfg, s0, es, i, id).mem.until, At(cfg, s0, es, j);
    if es[j].clock.now < d && es[j].ReserveEv? {
      ExtendedDeadlineHoldsIff(cfg, s0, es, i, j, id, d);
      HoldsUntil(cfg, s0, es, i, j, id, d);
      ReservedAreViable(s, es[j].req, es[j].clock, es[j].t2, es[j].draws, cfg.span, id);
      ViableNotOpen(s, es[j].req.candidates, es[j].clock, cfg.span, id);
    }
  }

  /** Two failures at time 0 with threshold 1 extend the deadline from 30 to 60. A restart, or a failure
      after a late success, brings the reopening forward again to before 60; the success alone does not. */
  lemma ExtensionsAreForgotten()
    ensures var cfg, c := Config(1, 30, 120.0), Cell(DEFAULT_BREAKER, DEFAULT_BREAKER);
            var fail, ok, z := ReportItem(7, false, None), ReportItem(7, true, None), Clock(0, 0.0);
            var extended := StepCell(cfg, c, ReportEv(z, [fail, fail]), 7);
            && extended.mem == Breaker(Open, 2, 60) && extended.disk == Breaker(Open, 1, 30)
            && StepCell(cfg, extended, RestartEv(z), 7).mem.until == 30
            && StepCell(cfg, extended, ReportEv(Clock(1, 1.0), [ok]), 7).mem == Breaker(Open, 0, 60)
            && StepCell(cfg, extended, ReportEv(Clock(1, 1.0), [ok, fail]), 7).mem == Breaker(Open, 1, 31)
  {
    var cfg, c := Config(1, 30, 120.0), Cell(DEFAULT_BREAKER, DEFAULT_BREAKER);
    var fail, ok := ReportItem(7, false, None), ReportItem(7, true, None);
    assert Cooldown(30, 0) == 30 && Cooldown(30, 1) == 60 by {
      assert Pow2(0) == 1 && Pow2(1) == 2;
    }
    hide Cooldown, FedCells;
    PairFed(c, fail, fail, 7, cfg, 0);
    var extended := FedCells(c, [fail, fail], 7, cfg, 0);
    OneFed(extended, ok, 7, cfg, 1);
    PairFed(extended, ok, fail, 7, cfg, 1);
  }

  lemma OneFed(c: Cell, a: ReportItem, id: int, cfg: Config, now: int)
    ensures FedCells(c, [a], id, cfg, now) == FedCell(c, a, id, cfg, now)
  {
    assert [a][..0] == [];
    assert FedCells(c, [], id, cfg, now) == c;
    hide FedCell;
  }

  lemma PairFed(c: Cell, a: ReportItem, b: ReportItem, id: int, cfg: Config, now: int)
    ensures FedCells(c, [a, b], id, cfg, now) == FedCell(FedCell(c, a, id, cfg, now), b, id, cfg, now)
  {
    assert [a, b][..1] == [a] && [a][..0] == [];
    assert FedCells(c, [a], id, cfg, now) == FedCell(FedCells(c, [], id, cfg, now), a, id, cfg, now);
  }
}
