/** What the kernel's scores are made of, over whole runs between two restarts: a key's score at a
    reserve is a function of its reported results inside the window, of its failures since the last
    success or promotion, and of its boost. Nothing the kernel evicts, creates lazily or recomputes in
    between can be seen. */
module KernelHistory {
  import opened Backoff
  import opened Options
  import TB = TokenBuckets
  import HW = HealthWindows
  import opened Selection
  import opened Kernel
  import opened KernelSafety
  import opened Scores

  // ---- A key's history --------------------------------------------------------

  /** The key's results in one report, stamped with the report's time. */
  function Results(items: seq<ReportItem>, id: int, t: real): seq<HW.Entry> {
    if items == [] then []
    else
      var before, r := Results(items[..|items| - 1], id, t), items[|items| - 1];
      if r.id == id then before + [HW.Entry(t, r.success)] else before
  }

  function EventResults(e: Event, id: int): seq<HW.Entry> {
    if e.ReportEv? then Results(e.items, id, e.clock.t) else []
  }

  /** Everything reported for the key before event `k`. */
  function History(es: seq<Event>, k: nat, id: int): seq<HW.Entry>
    requires k <= |es|
  {
    if k == 0 then [] else History(es, k - 1, id) + EventResults(es[k - 1], id)
  }

  function Reported(items: seq<ReportItem>, id: int): seq<HW.Outcome> {
    if items == [] then []
    else
      var before, r := Reported(items[..|items| - 1], id), items[|items| - 1];
      if r.id == id then before + [if r.success then HW.Success else HW.Failure] else before
  }

  /** The reserve is offered the key when its deadline has passed, and gives it a fresh start. */
  ghost predicate PromotedBy(s: State, e: Event, id: int) {
    e.ReserveEv? && Names(e.req.candidates, id) && Expired(BreakerOf(s.brk, id), e.clock.now)
  }

  ghost function EventOutcomes(s: State, e: Event, id: int): seq<HW.Outcome> {
    if e.ReportEv? then Reported(e.items, id) else if PromotedBy(s, e, id) then [HW.Reset] else []
  }

  /** The key's results and promotions in the first `k` events. */
  ghost function Outcomes(cfg: Config, s0: State, es: seq<Event>, k: nat, id: int): seq<HW.Outcome>
    requires Run(es) && k <= |es|
  {
    if k == 0 then [] else Outcomes(cfg, s0, es, k - 1, id) + EventOutcomes(At(cfg, s0, es, k - 1), es[k - 1], id)
  }

  /** The counter after some outcomes, from `initial` on. */
  function FailsAfter(initial: nat, outcomes: seq<HW.Outcome>): nat {
    if outcomes == [] then initial
    else if outcomes[|outcomes| - 1].Failure? then FailsAfter(initial, outcomes[..|outcomes| - 1]) + 1
    else 0
  }

  /** It is the length of the failing suffix; what the table held at the start counts only as long as
      every outcome is a failure. */
  lemma {:induction false} FailsAfterIsSuffix(initial: nat, outcomes: seq<HW.Outcome>)
    ensures var n := HW.Count(outcomes);
            FailsAfter(initial, outcomes) == if n == |outcomes| then initial + n else n
    ensures HW.Count(outcomes) <= |outcomes|
  {
    if outcomes != [] {
      FailsAfterIsSuffix(initial, outcomes[..|outcomes| - 1]);
    }
  }

  lemma {:induction false} FailsAfterConcat(initial: nat, a: seq<HW.Outcome>, b: seq<HW.Outcome>)
    ensures FailsAfter(initial, a + b) == FailsAfter(FailsAfter(initial, a), b)
  {
    if b == [] {
      assert a + b == a;
    } else {
      assert (a + b)[..|a + b| - 1] == a + b[..|b| - 1];
      FailsAfterConcat(initial, a, b[..|b| - 1]);
    }
  }

  // ---- The counter ------------------------------------------------------------

  lemma {:induction false} FedFails(c: Cell, items: seq<ReportItem>, id: int, cfg: Config, now: int)
    ensures FedCells(c, items, id, cfg, now).mem.fails == FailsAfter(c.mem.fails, Reported(items, id))
  {
    if items != [] {
      hide Cooldown;
      FedFails(c, items[..|items| - 1], id, cfg, now);
    }
  }

  ghost predicate NoRestart(es: seq<Event>) {
    forall i :: 0 <= i < |es| ==> !es[i].RestartEv?
  }

  lemma EventFails(cfg: Config, s: State, e: Event, id: int)
    requires Enough(e) && !e.RestartEv?
    ensures BreakerOf(Step(cfg, s, e).brk, id).fails == FailsAfter(BreakerOf(s.brk, id).fails, EventOutcomes(s, e, id))
  {
    StepIsPerKey(cfg, s, e, id);
    hide Step, Names, FedCells, Reported;
    if e.ReportEv? {
      FedFails(CellOf(s, id), e.items, id, cfg, e.clock.now);
    }
  }

  lemma {:induction false} CounterIsHistory(cfg: Config, s0: State, es: seq<Event>, k: nat, id: int)
    requires Run(es) && NoRestart(es) && k <= |es|
    ensures BreakerOf(At(cfg, s0, es, k).brk, id).fails
         == FailsAfter(BreakerOf(s0.brk, id).fails, Outcomes(cfg, s0, es, k, id))
  {
    hide Step, EventOutcomes;
    if k > 0 {
      var s, e := At(cfg, s0, es, k - 1), es[k - 1];
      CounterIsHistory(cfg, s0, es, k - 1, id);
      EventFails(cfg, s, e, id);
      FailsAfterConcat(BreakerOf(s0.brk, id).fails, Outcomes(cfg, s0, es, k - 1, id), EventOutcomes(s, e, id));
    }
  }

  // ---- What a result does -----------------------------------------------------

  /** One result for the key, given the count of failures after it: the breaker's status and deadline. A
      success closes a half-open key and moves no deadline; a failure opens the key, or sets its deadline
      anew, once the count has reached the threshold, for the base cooldown doubled for each failure
      beyond, ten minutes at most; below the threshold nothing moves. */
  predicate Moves(before: Breaker, after: Breaker, success: bool, n: nat, cfg: Config, now: int) {
    && after.fails == n
    && if success then
         if before.status == HalfOpen then after.status == Active && after.until == 0
         else after.status == before.status && after.until == before.until
       else if n >= cfg.threshold then
         var delay := cfg.base * Pow2(n - cfg.threshold);
         after.status == Open && after.until == now + if delay < 600 then delay else 600
       else after.status == before.status && after.until == before.until
  }

  lemma FeedbackMoves(b: Breaker, success: bool, cfg: Config, now: int)
    ensures Moves(b, Feedback(b, success, cfg, now), success, if success then 0 else b.fails + 1, cfg, now)
  {
    hide Pow2;
  }

  /** Over any run between restarts, every single result moves its key's breaker as the key's history says:
      `n` is the number of failures since the last success or promotion, this result included. */
  lemma ResultsMove(cfg: Config, s0: State, es: seq<Event>, k: nat, j: nat)
    requires Run(es) && NoRestart(es) && k < |es| && es[k].ReportEv? && j < |es[k].items|
    ensures var s, items, clock, id := At(cfg, s0, es, k), es[k].items, es[k].clock, es[k].items[j].id;
            var results := Outcomes(cfg, s0, es, k, id) + Reported(items[..j + 1], id);
            var n := FailsAfter(BreakerOf(s0.brk, id).fails, results);
            Moves(BreakerOf(FeedAll(s, items[..j], cfg, clock).st.brk, id),
                  BreakerOf(FeedAll(s, items[..j + 1], cfg, clock).st.brk, id), items[j].success, n, cfg, clock.now)
  {
    var s, items, clock, id := At(cfg, s0, es, k), es[k].items, es[k].clock, es[k].items[j].id;
    var past, more := Outcomes(cfg, s0, es, k, id), items[..j + 1];
    CounterIsHistory(cfg, s0, es, k, id);
    FailsAfterConcat(BreakerOf(s0.brk, id).fails, past, Reported(more, id));
    ReportCell(s, items[..j], cfg, clock, id);
    ReportCell(s, more, cfg, clock, id);
    FedFails(CellOf(s, id), more, id, cfg, clock.now);
    FedNext(CellOf(s, id), items, j, id, cfg, clock.now);
    hide Step, FedCells, FeedAll, Outcomes, FailsAfter, Moves;
    FeedbackMoves(FedCells(CellOf(s, id), items[..j], id, cfg, clock.now).mem, items[j].success, cfg, clock.now);
    hide Feedback;
    SameMoves(cfg, clock.now, items[j].success,
      FedCells(CellOf(s, id), items[..j], id, cfg, clock.now).mem,
      FedCells(CellOf(s, id), more, id, cfg, clock.now).mem);
  }

  lemma SameMoves(cfg: Config, now: int, success: bool, before: Breaker, after: Breaker)
    requires Moves(before, after, success, if success then 0 else before.fails + 1, cfg, now)
    ensures Moves(before, after, success, after.fails, cfg, now)
  {
  }

  // ---- The window -------------------------------------------------------------

  /** The window holds the part of the history since some time not after `cutoff`. */
  ghost predicate Tracks(window: seq<HW.Entry>, history: seq<HW.Entry>, cutoff: real) {
    exists c :: c <= cutoff && window == HW.Since(history, c)
  }

  predicate Past(history: seq<HW.Entry>, t: real) {
    HW.Sorted(history) && forall e :: e in history ==> e.ts <= t
  }

  lemma TrackedEvict(w: seq<HW.Entry>, h: seq<HW.Entry>, span: real, t: real)
    requires span >= 0.0 && Past(h, t) && Tracks(w, h, t - span)
    ensures HW.Evict(w, t - span) == HW.Since(h, t - span) && Tracks(HW.Evict(w, t - span), h, t - span)
  {
    var c :| c <= t - span && w == HW.Since(h, c);
    HW.StepKeepsRecent(h, span, HW.Stat(t), c);
    hide HW.Evict, HW.Since;
  }

  lemma TrackedRecord(w: seq<HW.Entry>, h: seq<HW.Entry>, span: real, t: real, ok: bool)
    requires span >= 0.0 && Past(h, t) && Tracks(w, h, t - span)
    ensures Tracks(HW.Recorded(w, span, t, ok), h + [HW.Entry(t, ok)], t - span) && Past(h + [HW.Entry(t, ok)], t)
  {
    var c :| c <= t - span && w == HW.Since(h, c);
    HW.StepKeepsRecent(h, span, HW.Record(t, ok), c);
    hide HW.Recorded, HW.Since;
  }

  lemma TrackedLater(w: seq<HW.Entry>, h: seq<HW.Entry>, span: real, t: real, later: real)
    requires t <= later && Past(h, t) && Tracks(w, h, t - span)
    ensures Past(h, later) && Tracks(w, h, later - span)
  {
    hide HW.Since;
  }

  lemma AdmitWindow(p: Scan, c: Candidate, fails: nat, t: real, span: real, id: int)
    ensures var q := Admit(p, c, fails, t, span);
            var w := HW.WindowOf(p.st.windows, id);
            HW.WindowOf(q.st.windows, id) == w || HW.WindowOf(q.st.windows, id) == HW.Evict(w, t - span)
    ensures var q := Admit(p, c, fails, t, span);
            var rate := HW.Rate(HW.Evict(HW.WindowOf(p.st.windows, c.id), t - span));
            || q.viable == p.viable
            || q.viable == p.viable + [Viable(c.id, WeightedScore(rate, fails, c.boost), c.inflight)]
  {
    hide TB.Refill, TB.Admits, TB.Fresh, HW.Evict, HW.Rate, WeightedScore;
  }

  lemma ConsiderWindow(p: Scan, c: Candidate, clock: Clock, span: real, id: int)
    ensures var q := Consider(p, c, clock, span);
            var w, cutoff := HW.WindowOf(p.st.windows, id), clock.t - span;
            HW.WindowOf(q.st.windows, id) == w || HW.WindowOf(q.st.windows, id) == HW.Evict(w, cutoff)
    ensures var q := Consider(p, c, clock, span);
            var rate := HW.Rate(HW.Evict(HW.WindowOf(p.st.windows, c.id), clock.t - span));
            var fails := Promoted(CellOf(p.st, c.id), clock.now).mem.fails;
            || q.viable == p.viable
            || q.viable == p.viable + [Viable(c.id, WeightedScore(rate, fails, c.boost), c.inflight)]
  {
    hide TB.Refill, TB.Admits, TB.Fresh, HW.Evict, HW.Rate, WeightedScore;
    var p1 := Advance(p, c.id, clock.now);
    var kb := p1.st.brk[c.id];
    AdmitWindow(p1, c, kb.fails, clock.t, span, id);
    AdmitWindow(p1.(probes := p.probes - 1), c, kb.fails, clock.t, span, id);
    hide Admit;
  }

  lemma ConsiderTracks(p: Scan, c: Candidate, clock: Clock, span: real, id: int, h: seq<HW.Entry>)
    requires span >= 0.0 && Past(h, clock.t) && Tracks(HW.WindowOf(p.st.windows, id), h, clock.t - span)
    ensures Tracks(HW.WindowOf(Consider(p, c, clock, span).st.windows, id), h, clock.t - span)
  {
    ConsiderWindow(p, c, clock, span, id);
    hide *;
    TrackedEvict(HW.WindowOf(p.st.windows, id), h, span, clock.t);
  }

  lemma {:induction false} ScanWindow(
    s: State, cands: seq<Candidate>, clock: Clock, span: real, id: int, h: seq<HW.Entry>)
    requires span >= 0.0 && Past(h, clock.t) && Tracks(HW.WindowOf(s.windows, id), h, clock.t - span)
    ensures Tracks(HW.WindowOf(ScanAll(s, cands, clock, span).st.windows, id), h, clock.t - span)
  {
    hide Consider, Tracks, Past;
    if cands != [] {
      var pre, c := cands[..|cands| - 1], cands[|cands| - 1];
      ScanWindow(s, pre, clock, span, id, h);
      ConsiderTracks(ScanAll(s, pre, clock, span), c, clock, span, id, h);
    }
  }

  lemma FeedTracks(p: Fed, r: ReportItem, cfg: Config, clock: Clock, id: int, h: seq<HW.Entry>)
    requires cfg.span >= 0.0 && Past(h, clock.t) && Tracks(HW.WindowOf(p.st.windows, id), h, clock.t - cfg.span)
    ensures var after := if r.id == id then h + [HW.Entry(clock.t, r.success)] else h;
            && Tracks(HW.WindowOf(Feed(p, r, cfg, clock).st.windows, id), after, clock.t - cfg.span)
            && Past(after, clock.t)
  {
    hide Tracks, Past, HW.Recorded, Feedback, TB.Calibrated;
    if r.id == id {
      TrackedRecord(HW.WindowOf(p.st.windows, id), h, cfg.span, clock.t, r.success);
    }
  }

  lemma {:induction false} FeedWindow(
    s: State, items: seq<ReportItem>, cfg: Config, clock: Clock, id: int, h: seq<HW.Entry>)
    requires cfg.span >= 0.0 && Past(h, clock.t) && Tracks(HW.WindowOf(s.windows, id), h, clock.t - cfg.span)
    ensures var after := h + Results(items, id, clock.t);
            && Tracks(HW.WindowOf(FeedAll(s, items, cfg, clock).st.windows, id), after, clock.t - cfg.span)
            && Past(after, clock.t)
  {
    hide Feed, Tracks, Past;
    if items == [] {
      assert h + [] == h;
    } else {
      var pre, r := items[..|items| - 1], items[|items| - 1];
      var mid := h + Results(pre, id, clock.t);
      FeedWindow(s, pre, cfg, clock, id, h);
      FeedTracks(FeedAll(s, pre, cfg, clock), r, cfg, clock, id, mid);
      assert h + Results(items, id, clock.t) == if r.id == id then mid + [HW.Entry(clock.t, r.success)] else mid;
    }
  }

  /** The monotone clock does not run backwards either. */
  ghost predicate Clocked(es: seq<Event>) {
    forall i, j :: 0 <= i < j < |es| ==> es[i].clock.t <= es[j].clock.t
  }

  lemma ReserveWindows(s: State, req: ReserveReq, clock: Clock, t2: real, draws: seq<real>, span: real)
    requires |draws| >= |req.candidates|
    ensures Reserve(s, req, clock, t2, draws, span).0.windows == ScanAll(s, req.candidates, clock, span).st.windows
  {
    hide ScanAll, Taken, Spend;
  }

  lemma EventTracks(cfg: Config, s: State, e: Event, id: int, h: seq<HW.Entry>)
    requires Enough(e) && !e.RestartEv? && cfg.span >= 0.0
    requires Past(h, e.clock.t) && Tracks(HW.WindowOf(s.windows, id), h, e.clock.t - cfg.span)
    ensures var after := h + EventResults(e, id);
            Past(after, e.clock.t) && Tracks(HW.WindowOf(Step(cfg, s, e).windows, id), after, e.clock.t - cfg.span)
  {
    hide Tracks, Past, FeedAll, Reserve, ScanAll, Results;
    assert h + [] == h;
    match e {
      case ReserveEv(clock, t2, req, draws) =>
        ReserveWindows(s, req, clock, t2, draws, cfg.span);
        ScanWindow(s, req.candidates, clock, cfg.span, id, h);
      case ReportEv(clock, items) => FeedWindow(s, items, cfg, clock, id, h);
      case _ =>
    }
  }

  /** A window stays as good as the full history, through every event. */
  lemma {:induction false} WindowTracks(cfg: Config, s0: State, es: seq<Event>, k: nat, id: int)
    requires Run(es) && Clocked(es) && NoRestart(es) && k < |es| && cfg.span >= 0.0 && s0.windows == map[]
    ensures var h, t := History(es, k, id), es[k].clock.t;
            Past(h, t) && Tracks(HW.WindowOf(At(cfg, s0, es, k).windows, id), h, t - cfg.span)
  {
    hide Tracks, Past, Step, EventResults, HW.WindowOf;
    if k == 0 {
      NothingTracked(es[0].clock.t, cfg.span, id);
    } else {
      var s, e, later := At(cfg, s0, es, k - 1), es[k - 1], es[k].clock.t;
      WindowTracks(cfg, s0, es, k - 1, id);
      EventTracks(cfg, s, e, id, History(es, k - 1, id));
      assert e.clock.t <= later;
      TrackedLater(HW.WindowOf(At(cfg, s0, es, k).windows, id), History(es, k, id), cfg.span, e.clock.t, later);
    }
  }

  lemma NothingTracked(t: real, span: real, id: int)
    ensures Past([], t) && Tracks(HW.WindowOf(map[], id), [], t - span)
  {
    HW.SinceNothing(t - span);
  }

  // ---- The score --------------------------------------------------------------

  predicate ScoredAs(v: Viable, c: Candidate, history: seq<HW.Entry>, cutoff: real, fails: nat) {
    && c.id == v.id && c.inflight == v.inflight
    && v.score == WeightedScore(HW.Rate(HW.Since(history, cutoff)), fails, c.boost)
  }

  /** The percentage of successes among the results since `cutoff`, 0 without any. */
  ghost function Percent(history: seq<HW.Entry>, cutoff: real): real {
    if HW.AllSince(history, cutoff) == 0 then 0.0
    else 100.0 * HW.OkSince(history, cutoff) as real / HW.AllSince(history, cutoff) as real
  }

  /** The key's score, exactly: the percentage of successes among its results since `cutoff`, times the
      boost it was offered with, halved for each of its `fails` failures, but at least one. */
  ghost predicate ScoredBy(v: Viable, c: Candidate, history: seq<HW.Entry>, cutoff: real, fails: nat) {
    var earned, halvings := Percent(history, cutoff) * c.boost, Pow2(fails) as real;
    && c.id == v.id && c.inflight == v.inflight
    && v.score * halvings == if earned < halvings then halvings else earned
  }

  lemma ScoreInNumbers(v: Viable, c: Candidate, history: seq<HW.Entry>, cutoff: real, fails: nat)
    requires ScoredAs(v, c, history, cutoff, fails)
    ensures ScoredBy(v, c, history, cutoff, fails)
  {
    HW.RateIsFraction(history, cutoff);
    var rate := HW.Rate(HW.Since(history, cutoff));
    ScoreExact(rate, fails, c.boost);
    hide HW.Rate, HW.Since, HW.OkSince, HW.AllSince, WeightedScore, Pow2;
    PercentIs(rate, HW.OkSince(history, cutoff), HW.AllSince(history, cutoff));
  }

  lemma PercentIs(rate: real, ok: nat, all: nat)
    requires all == 0 ==> rate == 0.0
    requires all > 0 ==> rate * all as real == 100.0 * ok as real
    ensures rate == if all == 0 then 0.0 else 100.0 * ok as real / all as real
  {
  }

  /** A viable key's score, from what the reserve found before its candidate loop. */
  lemma {:induction false} ViableScore(
    s: State, cands: seq<Candidate>, clock: Clock, span: real, i: nat, h: seq<HW.Entry>) returns (m: nat)
    requires span >= 0.0 && i < |ScanAll(s, cands, clock, span).viable|
    requires var id := ScanAll(s, cands, clock, span).viable[i].id;
             Past(h, clock.t) && Tracks(HW.WindowOf(s.windows, id), h, clock.t - span)
    ensures var v := ScanAll(s, cands, clock, span).viable[i];
            && m < |cands| && cands[m].id == v.id
            && ScoredAs(v, cands[m], h, clock.t - span, Promoted(CellOf(s, v.id), clock.now).mem.fails)
  {
    var pre, c := cands[..|cands| - 1], cands[|cands| - 1];
    var p, v := ScanAll(s, pre, clock, span), ScanAll(s, cands, clock, span).viable[i];
    ConsiderWindow(p, c, clock, span, c.id);
    hide Consider, Tracks, Past, Promoted, HW.Since, HW.Evict, HW.Rate, WeightedScore;
    if i < |p.viable| {
      assert p.viable[i] == v;
      m := ViableScore(s, pre, clock, span, i, h);
      assert pre[m] == cands[m];
    } else {
      m := |cands| - 1;
      LastScored(s, pre, c, clock, span, h);
    }
  }

  /** When the loop comes to a candidate, its window and count are still as good as at the start. */
  lemma LastScored(s: State, pre: seq<Candidate>, c: Candidate, clock: Clock, span: real, h: seq<HW.Entry>)
    requires span >= 0.0 && Past(h, clock.t) && Tracks(HW.WindowOf(s.windows, c.id), h, clock.t - span)
    ensures var p := ScanAll(s, pre, clock, span);
            && HW.Evict(HW.WindowOf(p.st.windows, c.id), clock.t - span) == HW.Since(h, clock.t - span)
            && Promoted(CellOf(p.st, c.id), clock.now).mem.fails == Promoted(CellOf(s, c.id), clock.now).mem.fails
  {
    hide ScanAll, Tracks, Past, Names, HW.Since, HW.Evict;
    ScanWindow(s, pre, clock, span, c.id, h);
    TrackedEvict(HW.WindowOf(ScanAll(s, pre, clock, span).st.windows, c.id), h, span, clock.t);
    ScanCell(s, pre, clock, span, c.id);
  }

  /** The counter a reserve scores a key with is the one after its own promotions. */
  lemma PromotedFails(cfg: Config, s0: State, es: seq<Event>, k: nat, id: int)
    requires Run(es) && NoRestart(es) && k < |es| && es[k].ReserveEv? && Names(es[k].req.candidates, id)
    ensures Promoted(CellOf(At(cfg, s0, es, k), id), es[k].clock.now).mem.fails
         == FailsAfter(BreakerOf(s0.brk, id).fails, Outcomes(cfg, s0, es, k + 1, id))
  {
    CounterIsHistory(cfg, s0, es, k + 1, id);
    StepIsPerKey(cfg, At(cfg, s0, es, k), es[k], id);
    hide Step, Outcomes, FailsAfter, Promoted;
  }

  /** Over any run between restarts, whatever was reported, evicted, selected or promoted in between: the
      score a reserve gives a key is the percentage of successes among the key's reported results inside the
      window, times the boost it was offered with, halved for each failure since its last success or
      promotion (this reserve's own included), and at least one. */
  lemma ScoreIsHistory(cfg: Config, s0: State, es: seq<Event>, k: nat, i: nat) returns (m: nat)
    requires Run(es) && Clocked(es) && NoRestart(es) && cfg.span >= 0.0 && s0.windows == map[]
    requires k < |es| && es[k].ReserveEv?
    requires i < |ScanAll(At(cfg, s0, es, k), es[k].req.candidates, es[k].clock, cfg.span).viable|
    ensures var e := es[k];
            var v := ScanAll(At(cfg, s0, es, k), e.req.candidates, e.clock, cfg.span).viable[i];
            && m < |e.req.candidates|
            && ScoredBy(v, e.req.candidates[m], History(es, k, v.id), e.clock.t - cfg.span,
                 FailsAfter(BreakerOf(s0.brk, v.id).fails, Outcomes(cfg, s0, es, k + 1, v.id)))
  {
    hide *;
    var s, e := At(cfg, s0, es, k), es[k];
    var id := ScanAll(s, e.req.candidates, e.clock, cfg.span).viable[i].id;
    WindowTracks(cfg, s0, es, k, id);
    m := ViableScore(s, e.req.candidates, e.clock, cfg.span, i, History(es, k, id));
    IsNamed(e.req.candidates, m, id);
    PromotedFails(cfg, s0, es, k, id);
    ScoreInNumbers(
      ScanAll(s, e.req.candidates, e.clock, cfg.span).viable[i], e.req.candidates[m], History(es, k, id),
      e.clock.t - cfg.span, FailsAfter(BreakerOf(s0.brk, id).fails, Outcomes(cfg, s0, es, k + 1, id)));
  }

  lemma IsNamed(cands: seq<Candidate>, m: nat, id: int)
    requires m < |cands| && cands[m].id == id
    ensures Names(cands, id)
  {
  }
}
