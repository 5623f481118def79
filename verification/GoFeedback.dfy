/** How results feed back into the breakers without a kernel (`DispatchCap`, `DispatchStream`,
    `markHealthy` and `checkCircuitBreaker` of scheduler.go), against what `/report` would have done. */
module GoFeedback {
  import opened Backoff
  import opened Options
  import TB = TokenBuckets
  import HW = HealthWindows
  import opened Selection
  import opened Kernel
  import opened GoScheduler
  import opened GoRefinement

  // ---- One key, as each side sees it ------------------------------------------

  datatype KernelKey = KernelKey(breaker: Breaker, bucket: Option<TB.Bucket>, window: seq<HW.Entry>)

  /** `breaker` is the row's; the count that matters is the tracker's, `fails`. */
  datatype GoKey = GoKey(breaker: Breaker, bucket: Option<TB.Bucket>, window: seq<HW.Entry>, fails: nat)

  function Stored(buckets: map<int, TB.Bucket>, id: int): Option<TB.Bucket> {
    if id in buckets then Some(buckets[id]) else None
  }

  function KernelView(s: State, id: int): KernelKey {
    KernelKey(BreakerOf(s.brk, id), Stored(s.buckets, id), HW.WindowOf(s.windows, id))
  }

  function GoView(g: GoState, i: nat): GoKey
    requires i < |g.rows|
  {
    var id := g.rows[i].id;
    GoKey(g.rows[i].breaker, Stored(g.buckets, id), HW.WindowOf(g.windows, id), HW.FailsOf(g.consec, id))
  }

  function OrFresh(b: Option<TB.Bucket>, created: TB.Bucket): TB.Bucket {
    if b.Some? then b.value else created
  }

  /** `KeyMatches`, on the two views. */
  predicate ViewsMatch(k: KernelKey, v: GoKey, rpm: int, env: Env, t: real) {
    && k.breaker.status == v.breaker.status && k.breaker.fails == v.fails
    && (k.breaker.status == Open ==> k.breaker.until == v.breaker.until)
    && SameLevel(OrFresh(k.bucket, TB.Fresh(rpm, t)), OrFresh(v.bucket, GoFresh(env.defaultRPM, t)), t)
    && HW.Evict(k.window, t - env.span) == HW.Evict(v.window, t - env.span)
  }

  lemma ViewsMatchIff(s: State, g: GoState, i: nat, env: Env, t: real)
    requires i < |g.rows|
    ensures KeyMatches(s, g, g.rows[i], env, t)
       <==> ViewsMatch(KernelView(s, g.rows[i].id), GoView(g, i), KeyRPM(g.rows[i], env), env, t)
  {
    hide HW.Evict, SameLevel, TB.Fresh, GoFresh, KeyRPM;
  }

  // ---- What one dispatch does to one key --------------------------------------

  function Remaining(r: Reply, stream: bool): Option<nat> {
    if r.Http? && !stream then r.remaining else None
  }

  /** A reported remaining count calibrates the bucket, or the one created for it. */
  function Calibrated(b: Option<TB.Bucket>, created: TB.Bucket, t: real, remaining: Option<nat>): Option<TB.Bucket> {
    if remaining.Some? then Some(TB.Calibrated(OrFresh(b, created), t, remaining.value)) else b
  }

  function FedKey(k: KernelKey, success: bool, remaining: Option<nat>, cfg: Config, clock: Clock): KernelKey {
    KernelKey(
      Feedback(k.breaker, success, cfg, clock.now),
      Calibrated(k.bucket, TB.Fresh(500, clock.t), clock.t, remaining),
      HW.Recorded(k.window, cfg.span, clock.t, success))
  }

  /** `DispatchCap` reports a transport error as a failure; `DispatchStream` does not report it. */
  function KernelAfter(k: KernelKey, a: Option<Answer>, stream: bool, cfg: Config, clock: Clock): KernelKey {
    match a
    case None => k
    case Some(a) =>
      if a.reply.Http? then FedKey(k, a.reply.success, Remaining(a.reply, stream), cfg, clock)
      else if stream then k
      else FedKey(k, false, None, cfg, clock)
  }

  function ObservedKey(v: GoKey, a: Answer, stream: bool, env: Env, t: real): GoKey {
    if a.reply.TransportError? then v
    else
      var remaining := Remaining(a.reply, stream);
      GoKey(
        if a.reply.success && a.halfOpen then Breaker(Active, 0, 0) else v.breaker,
        Calibrated(v.bucket, GoFresh(env.defaultRPM, t), t, remaining),
        HW.Recorded(v.window, env.span, t, a.reply.success),
        if a.reply.success then 0 else v.fails + 1)
  }

  function CheckedKey(v: GoKey, cfg: Config, now: int, frac: int): GoKey {
    if v.fails < cfg.threshold then v
    else v.(breaker := Breaker(Open, v.fails, now + GoDelay(cfg.base, v.fails - cfg.threshold, frac)))
  }

  function GoAfter(
    v: GoKey, a: Option<Answer>, stream: bool, checked: bool, cfg: Config, clock: Clock, frac: int, env: Env): GoKey
  {
    var observed := if a.Some? then ObservedKey(v, a.value, stream, env, clock.t) else v;
    if checked then CheckedKey(observed, cfg, clock.now, frac) else observed
  }

  // ---- The law for one key ----------------------------------------------------

  /** A success closes the same way on both sides: the row is half-open now exactly if it was when the
      key was selected, or was closed by another dispatch in between. */
  predicate ClosesAlike(status: Status, wasHalfOpen: bool) {
    if wasHalfOpen then status != Open else status != HalfOpen
  }

  /** A failure that reaches the threshold: a checked row gets Go's deadline, which is the kernel's if
      the backoff has not overflowed; an unchecked one keeps whatever it has. */
  predicate OpensAlike(v: GoKey, checked: bool, cfg: Config, now: int, frac: int) {
    || v.fails + 1 < cfg.threshold
    || (if checked then CoolsAlike(cfg.base, v.fails + 1 - cfg.threshold, frac)
        else v.breaker.status == Open
             && v.breaker.until == now + Cooldown(cfg.base, v.fails + 1 - cfg.threshold))
  }

  /** Without a reply the kernel does nothing; Go's check must not move the row either. */
  predicate RestsAlike(v: GoKey, checked: bool, cfg: Config, now: int, frac: int) {
    || !checked || v.fails < cfg.threshold
    || (v.breaker.status == Open && v.breaker.until == now + GoDelay(cfg.base, v.fails - cfg.threshold, frac))
  }

  /** Calibration of a bucket the kernel does not have builds one of 500. */
  predicate MetersAlike(hasBucket: bool, remaining: Option<nat>, rpm: int) {
    remaining.None? || hasBucket || rpm == 500
  }

  /** The exact condition, read off Go's side (and whether the kernel has a bucket). */
  predicate Follows(
    v: GoKey, a: Option<Answer>, stream: bool, checked: bool, hasBucket: bool, rpm: int,
    cfg: Config, now: int, frac: int)
  {
    match a
    case None => RestsAlike(v, checked, cfg, now, frac)
    case Some(a) =>
      if a.reply.TransportError? then stream && RestsAlike(v, checked, cfg, now, frac)
      else
        && MetersAlike(hasBucket, Remaining(a.reply, stream), rpm)
        && if a.reply.success then ClosesAlike(v.breaker.status, a.halfOpen)
           else OpensAlike(v, checked, cfg, now, frac)
  }

  predicate Sensible(cfg: Config, frac: int, env: Env) {
    cfg.threshold >= 1 && cfg.base >= 1 && 0 <= frac < NS && cfg.span == env.span
  }

  lemma {:induction false} EvictAppend(entries: seq<HW.Entry>, e: HW.Entry, cutoff: real)
    ensures HW.Evict(entries + [e], cutoff)
         == if HW.Evict(entries, cutoff) == [] then HW.Evict([e], cutoff) else HW.Evict(entries, cutoff) + [e]
  {
    if entries == [] {
      assert entries + [e] == [e];
    } else if entries[0].ts < cutoff {
      EvictAppend(entries[1..], e, cutoff);
      assert (entries + [e])[1..] == entries[1..] + [e];
    }
  }

  lemma RecordsAlike(a: seq<HW.Entry>, b: seq<HW.Entry>, span: real, t: real, ok: bool)
    requires HW.Evict(a, t - span) == HW.Evict(b, t - span)
    ensures HW.Recorded(a, span, t, ok) == HW.Recorded(b, span, t, ok)
  {
    EvictAppend(a, HW.Entry(t, ok), t - span);
    EvictAppend(b, HW.Entry(t, ok), t - span);
    hide HW.Evict;
  }

  lemma CalibratesAlike(x: TB.Bucket, y: TB.Bucket, t: real, remaining: nat)
    requires SameLevel(x, y, t)
    ensures TB.Calibrated(x, t, remaining) == TB.Calibrated(y, t, remaining)
    ensures SameLevel(TB.Calibrated(x, t, remaining), TB.Calibrated(y, t, remaining), t)
  {
    TB.ApplyValid(x, TB.At(t, TB.Calibrate(remaining)));
    hide TB.Refill;
  }

  /** Calibration keeps the capacity, so a bucket of the wrong size shows. */
  lemma WrongSizeShows(rpm: int, y: TB.Bucket, t: real, remaining: nat)
    requires SameLevel(TB.Fresh(rpm, t), y, t)
    ensures SameLevel(TB.Calibrated(TB.Fresh(500, t), t, remaining), TB.Calibrated(y, t, remaining), t) <==> rpm == 500
  {
    if rpm == 500 {
      CalibratesAlike(TB.Fresh(500, t), y, t, remaining);
    } else {
      FreshLater(rpm, t, t);
      FreshLater(500, t, t);
      SameCapacity(y, t);
      SameCapacity(TB.Calibrated(y, t, remaining), t);
      SameCapacity(TB.Calibrated(TB.Fresh(500, t), t, remaining), t);
      CalibratedCapacity(y, t, remaining);
      CalibratedCapacity(TB.Fresh(500, t), t, remaining);
      hide TB.Refill, TB.Calibrated;
    }
  }

  lemma CalibratedCapacity(b: TB.Bucket, t: real, remaining: nat)
    ensures TB.Calibrated(b, t, remaining).capacity == b.capacity
  {
  }

  /** The buckets' share of the law. */
  lemma MetersAgreeIff(k: KernelKey, v: GoKey, remaining: Option<nat>, rpm: int, env: Env, t: real)
    requires SameLevel(OrFresh(k.bucket, TB.Fresh(rpm, t)), OrFresh(v.bucket, GoFresh(env.defaultRPM, t)), t)
    ensures var x := Calibrated(k.bucket, TB.Fresh(500, t), t, remaining);
            var y := Calibrated(v.bucket, GoFresh(env.defaultRPM, t), t, remaining);
            SameLevel(OrFresh(x, TB.Fresh(rpm, t)), OrFresh(y, GoFresh(env.defaultRPM, t)), t)
            <==> MetersAlike(k.bucket.Some?, remaining, rpm)
  {
    hide TB.Calibrated, TB.Fresh, GoFresh, SameLevel;
    if remaining.Some? {
      var y := OrFresh(v.bucket, GoFresh(env.defaultRPM, t));
      if k.bucket.Some? {
        CalibratesAlike(k.bucket.value, y, t, remaining.value);
      } else {
        WrongSizeShows(rpm, y, t, remaining.value);
      }
    }
  }

  /** The breakers' share. */
  predicate BreakersMatch(b: Breaker, v: Breaker, fails: nat) {
    b.status == v.status && b.fails == fails && (b.status == Open ==> b.until == v.until)
  }

  lemma BreakersAgreeIff(
    k: KernelKey, v: GoKey, a: Option<Answer>, stream: bool, checked: bool, cfg: Config, clock: Clock, frac: int,
      env: Env)
    requires Sensible(cfg, frac, env) && BreakersMatch(k.breaker, v.breaker, v.fails)
    ensures var k', v' := KernelAfter(k, a, stream, cfg, clock), GoAfter(v, a, stream, checked, cfg, clock, frac, env);
            BreakersMatch(k'.breaker, v'.breaker, v'.fails)
            <==> Follows(v, a, stream, checked, true, 500, cfg, clock.now, frac)
  {
    hide HW.Recorded, TB.Calibrated, GoDelay, Cooldown, CoolsAlike;
    if v.fails + 1 >= cfg.threshold {
      DeadlinesAgreeIff(cfg.base, v.fails + 1 - cfg.threshold, frac);
    }
  }

  /** The exact law for one key, in any state and with any count: matching views still match after the
      dispatch if and only if the key follows. In particular a reply over HTTP that fails keeps them
      matching exactly when it stays below the threshold or the backoff has not overflowed, and a
      transport error never does, except on a stream, where neither side hears of it. */
  lemma FeedbackAgreesIff(
    k: KernelKey, v: GoKey, a: Option<Answer>, stream: bool, checked: bool, rpm: int,
    cfg: Config, clock: Clock, frac: int, env: Env)
    requires Sensible(cfg, frac, env) && ViewsMatch(k, v, rpm, env, clock.t)
    ensures ViewsMatch(KernelAfter(k, a, stream, cfg, clock), GoAfter(v, a, stream, checked, cfg, clock, frac, env),
      rpm, env, clock.t)
       <==> Follows(v, a, stream, checked, k.bucket.Some?, rpm, cfg, clock.now, frac)
  {
    var remaining := if a.Some? then Remaining(a.value.reply, stream) else None;
    BreakersAgreeIff(k, v, a, stream, checked, cfg, clock, frac, env);
    MetersAgreeIff(k, v, remaining, rpm, env, clock.t);
    if a.Some? && a.value.reply.Http? {
      RecordsAlike(k.window, v.window, env.span, clock.t, a.value.reply.success);
    }
    hide HW.Recorded, HW.Evict, TB.Calibrated, TB.Fresh, GoFresh, SameLevel, Feedback, GoDelay, Cooldown, CoolsAlike;
    hide ClosesAlike, OpensAlike, RestsAlike;
  }

  // ---- One whole dispatch -----------------------------------------------------

  /** What the kernel is told about the replies of a dispatch. */
  function ItemsOf(rows: seq<Row>, answers: seq<Answer>, stream: bool): seq<ReportItem> {
    if answers == [] then []
    else
      var a := answers[|answers| - 1];
      ItemsOf(rows, answers[..|answers| - 1], stream) + ItemOf(rows, a, stream)
  }

  function ItemOf(rows: seq<Row>, a: Answer, stream: bool): seq<ReportItem> {
    if a.row >= |rows| || (a.reply.TransportError? && stream) then []
    else if a.reply.TransportError? then [ReportItem(rows[a.row].id, false, None)]
    else
      var remaining := Remaining(a.reply, stream);
      [ReportItem(rows[a.row].id, a.reply.success, if remaining.Some? then Some(remaining.value) else None)]
  }

  function AnswerOf(answers: seq<Answer>, i: nat): Option<Answer> {
    if answers == [] then None
    else if answers[|answers| - 1].row == i then Some(answers[|answers| - 1])
    else AnswerOf(answers[..|answers| - 1], i)
  }

  /** Each worker of a dispatch has its own key. */
  predicate OneEach(answers: seq<Answer>) {
    forall i, j :: 0 <= i < j < |answers| ==> answers[i].row != answers[j].row
  }

  lemma {:induction false} NoAnswer(answers: seq<Answer>, i: nat)
    requires forall k :: 0 <= k < |answers| ==> answers[k].row != i
    ensures AnswerOf(answers, i) == None
  {
    if answers != [] {
      NoAnswer(answers[..|answers| - 1], i);
    }
  }

  lemma FeedView(p: Fed, r: ReportItem, cfg: Config, clock: Clock, id: int)
    ensures KernelView(Feed(p, r, cfg, clock).st, id)
         == if r.id != id then KernelView(p.st, id)
            else KernelKey(
              Feedback(BreakerOf(p.st.brk, id), r.success, cfg, clock.now),
              if r.remaining.None? then Stored(p.st.buckets, id)
              else Some(TB.Calibrated(OrFresh(Stored(p.st.buckets, id), TB.Fresh(500, clock.t)), clock.t,
                r.remaining.value)),
              HW.Recorded(HW.WindowOf(p.st.windows, id), cfg.span, clock.t, r.success))
  {
    hide HW.Recorded, TB.Calibrated, TB.Fresh, Feedback;
  }

  /** The report loop on at most one item. */
  function FedOne(p: Fed, items: seq<ReportItem>, cfg: Config, clock: Clock): Fed {
    if items == [] then p else Feed(p, items[0], cfg, clock)
  }

  lemma FeedAllOne(s: State, items: seq<ReportItem>, more: seq<ReportItem>, cfg: Config, clock: Clock)
    requires |more| <= 1
    ensures FeedAll(s, items + more, cfg, clock) == FedOne(FeedAll(s, items, cfg, clock), more, cfg, clock)
  {
    if more == [] {
      assert items + more == items;
    } else {
      assert (items + more)[..|items|] == items;
    }
    hide Feed;
  }

  lemma AnswerView(p: Fed, rows: seq<Row>, a: Answer, stream: bool, cfg: Config, clock: Clock, i: nat)
    requires DistinctRows(rows) && i < |rows|
    ensures KernelView(FedOne(p, ItemOf(rows, a, stream), cfg, clock).st, rows[i].id)
         == if a.row == i then KernelAfter(KernelView(p.st, rows[i].id), Some(a), stream, cfg, clock)
            else KernelView(p.st, rows[i].id)
  {
    var more := ItemOf(rows, a, stream);
    if more != [] {
      FeedView(p, more[0], cfg, clock, rows[i].id);
      assert a.row != i ==> rows[a.row].id != rows[i].id;
    }
    hide HW.Recorded, TB.Calibrated, TB.Fresh, Feedback, Feed;
  }

  lemma {:induction false} KernelSettles(
    s: State, rows: seq<Row>, answers: seq<Answer>, stream: bool, cfg: Config, clock: Clock, i: nat)
    requires DistinctRows(rows) && OneEach(answers) && i < |rows|
    ensures KernelView(FeedAll(s, ItemsOf(rows, answers, stream), cfg, clock).st, rows[i].id)
         == KernelAfter(KernelView(s, rows[i].id), AnswerOf(answers, i), stream, cfg, clock)
  {
    if answers != [] {
      var n := |answers| - 1;
      var pre, a := answers[..n], answers[n];
      KernelSettles(s, rows, pre, stream, cfg, clock, i);
      if a.row == i {
        NoAnswer(pre, i);
      }
      hide FeedAll, KernelView, KernelAfter, ItemOf, FedOne;
      AnswerView(FeedAll(s, ItemsOf(rows, pre, stream), cfg, clock), rows, a, stream, cfg, clock, i);
      AtMostOne(rows, a, stream);
      FeedAllOne(s, ItemsOf(rows, pre, stream), ItemOf(rows, a, stream), cfg, clock);
      NoneIsSame(KernelView(s, rows[i].id), stream, cfg, clock);
    }
  }

  lemma AtMostOne(rows: seq<Row>, a: Answer, stream: bool)
    ensures |ItemOf(rows, a, stream)| <= 1
  {
  }

  lemma NoneIsSame(k: KernelKey, stream: bool, cfg: Config, clock: Clock)
    ensures KernelAfter(k, None, stream, cfg, clock) == k
  {
  }

  lemma ObserveView(g: GoState, a: Answer, stream: bool, env: Env, t: real, i: nat)
    requires DistinctRows(g.rows) && i < |g.rows|
    ensures var g' := Observe(g, a, stream, env, t);
            && Evolved(g.rows, g'.rows, |g.rows|)
            && GoView(g', i) == if a.row == i then ObservedKey(GoView(g, i), a, stream, env, t) else GoView(g, i)
  {
    hide HW.Recorded, TB.Calibrated, GoFresh;
  }

  lemma SameRows(rows: seq<Row>, rows': seq<Row>, rows'': seq<Row>)
    requires Evolved(rows, rows', |rows|) && Evolved(rows', rows'', |rows'|)
    ensures Evolved(rows, rows'', |rows|)
    ensures DistinctRows(rows) ==> DistinctRows(rows')
  {
  }

  lemma {:induction false} GoObserves(g: GoState, answers: seq<Answer>, stream: bool, env: Env, t: real, i: nat)
    requires DistinctRows(g.rows) && OneEach(answers) && i < |g.rows|
    ensures var g' := ObserveAll(g, answers, stream, env, t);
            && Evolved(g.rows, g'.rows, |g.rows|)
            && GoView(g', i) == if AnswerOf(answers, i).Some?
              then ObservedKey(GoView(g, i), AnswerOf(answers, i).value, stream, env, t)
                                else GoView(g, i)
  {
    if answers != [] {
      var n := |answers| - 1;
      GoObserves(g, answers[..n], stream, env, t, i);
      var mid := ObserveAll(g, answers[..n], stream, env, t);
      SameRows(g.rows, mid.rows, mid.rows);
      ObserveView(mid, answers[n], stream, env, t, i);
      SameRows(g.rows, mid.rows, ObserveAll(g, answers, stream, env, t).rows);
      if answers[n].row == i {
        NoAnswer(answers[..n], i);
      }
      hide Observe, ObservedKey, GoView, Evolved;
    }
  }

  lemma CheckView(g: GoState, j: nat, cfg: Config, now: int, frac: int, i: nat)
    requires DistinctRows(g.rows) && i < |g.rows|
    ensures var g' := CheckBreaker(g, j, cfg, now, frac);
            && Evolved(g.rows, g'.rows, |g.rows|)
            && GoView(g', i) == if i == j then CheckedKey(GoView(g, i), cfg, now, frac) else GoView(g, i)
  {
    hide GoDelay;
  }

  lemma {:induction false} GoChecks(g: GoState, selected: seq<nat>, cfg: Config, now: int, frac: int, i: nat)
    requires DistinctRows(g.rows) && i < |g.rows|
    ensures var g' := CheckAll(g, selected, cfg, now, frac);
            && Evolved(g.rows, g'.rows, |g.rows|)
            && GoView(g', i) == if i in selected then CheckedKey(GoView(g, i), cfg, now, frac) else GoView(g, i)
  {
    if selected != [] {
      var n := |selected| - 1;
      assert selected == selected[..n] + [selected[n]];
      GoChecks(g, selected[..n], cfg, now, frac, i);
      var mid := CheckAll(g, selected[..n], cfg, now, frac);
      SameRows(g.rows, mid.rows, mid.rows);
      CheckView(mid, selected[n], cfg, now, frac, i);
      SameRows(g.rows, mid.rows, CheckAll(g, selected, cfg, now, frac).rows);
      hide CheckBreaker, GoView, Evolved, GoDelay;
    }
  }

  lemma GoSettles(g: GoState, d: Settlement, cfg: Config, clock: Clock, frac: int, env: Env, i: nat)
    requires DistinctRows(g.rows) && OneEach(d.answers) && i < |g.rows|
    ensures var g' := Settled(g, d, cfg, clock, frac, env);
            && Evolved(g.rows, g'.rows, |g.rows|)
            && GoView(g', i)
               == GoAfter(
                 GoView(g, i), AnswerOf(d.answers, i), d.stream, !d.stream && i in d.selected, cfg, clock, frac, env)
  {
    GoObserves(g, d.answers, d.stream, env, clock.t, i);
    var mid := ObserveAll(g, d.answers, d.stream, env, clock.t);
    SameRows(g.rows, mid.rows, mid.rows);
    GoChecks(mid, d.selected, cfg, clock.now, frac, i);
    SameRows(g.rows, mid.rows, Settled(g, d, cfg, clock, frac, env).rows);
    hide GoView, ObservedKey, CheckedKey, Evolved, ObserveAll, CheckAll;
  }

  predicate FollowsAt(s: State, g: GoState, d: Settlement, cfg: Config, now: int, frac: int, env: Env, i: nat)
    requires i < |g.rows|
  {
    Follows(GoView(g, i), AnswerOf(d.answers, i), d.stream, !d.stream && i in d.selected,
            g.rows[i].id in s.buckets, KeyRPM(g.rows[i], env), cfg, now, frac)
  }

  lemma SettleKeeps(
      s: State, items: seq<ReportItem>, g: GoState, d: Settlement, cfg: Config, clock: Clock, frac: int, env: Env)
    ensures FeedAll(s, items, cfg, clock).st.rr == s.rr && FeedAll(s, items, cfg, clock).st.active == s.active
    ensures Settled(g, d, cfg, clock, frac, env).rr == g.rr && Settled(g, d, cfg, clock, frac, env).active == g.active
  {
    FeedKeeps(s, items, cfg, clock);
    ObserveKeeps(g, d.answers, d.stream, env, clock.t);
    CheckKeeps(ObserveAll(g, d.answers, d.stream, env, clock.t), d.selected, cfg, clock.now, frac);
  }

  lemma {:induction false} FeedKeeps(s: State, items: seq<ReportItem>, cfg: Config, clock: Clock)
    ensures FeedAll(s, items, cfg, clock).st.rr == s.rr && FeedAll(s, items, cfg, clock).st.active == s.active
  {
    if items != [] {
      hide Feedback, HW.Recorded, TB.Calibrated;
      FeedKeeps(s, items[..|items| - 1], cfg, clock);
    }
  }

  lemma {:induction false} ObserveKeeps(g: GoState, answers: seq<Answer>, stream: bool, env: Env, t: real)
    ensures ObserveAll(g, answers, stream, env, t).rr == g.rr
      && ObserveAll(g, answers, stream, env, t).active == g.active
  {
    if answers != [] {
      hide HW.Recorded, TB.Calibrated, GoFresh;
      ObserveKeeps(g, answers[..|answers| - 1], stream, env, t);
    }
  }

  lemma {:induction false} CheckKeeps(g: GoState, selected: seq<nat>, cfg: Config, now: int, frac: int)
    ensures CheckAll(g, selected, cfg, now, frac).rr == g.rr && CheckAll(g, selected, cfg, now, frac).active == g.active
  {
    if selected != [] {
      hide GoDelay;
      CheckKeeps(g, selected[..|selected| - 1], cfg, now, frac);
    }
  }

  /** The exact law for a whole dispatch: all its replies on the Go side, with the check of every selected
      key that follows, against one report. From matching states they end in matching states if and only
      if every enabled key follows. */
  lemma DispatchAgreesIff(s: State, g: GoState, d: Settlement, cfg: Config, clock: Clock, frac: int, env: Env)
    requires Sensible(cfg, frac, env) && DistinctRows(g.rows) && OneEach(d.answers) && Match(s, g, env, clock.t)
    ensures var s' := FeedAll(s, ItemsOf(g.rows, d.answers, d.stream), cfg, clock).st;
            var g' := Settled(g, d, cfg, clock, frac, env);
            Match(s', g', env, clock.t)
            <==> forall i :: 0 <= i < |g.rows| && g.rows[i].enabled ==> FollowsAt(s, g, d, cfg, clock.now, frac, env, i)
    ensures Evolved(g.rows, Settled(g, d, cfg, clock, frac, env).rows, |g.rows|)
  {
    var s' := FeedAll(s, ItemsOf(g.rows, d.answers, d.stream), cfg, clock).st;
    var g' := Settled(g, d, cfg, clock, frac, env);
    SettleKeeps(s, ItemsOf(g.rows, d.answers, d.stream), g, d, cfg, clock, frac, env);
    SettleEvolves(g, d, cfg, clock, frac, env);
    forall i | 0 <= i < |g.rows| && g.rows[i].enabled
      ensures KeyMatches(s', g', g'.rows[i], env, clock.t) <==> FollowsAt(s, g, d, cfg, clock.now, frac, env, i)
    {
      assert KeyMatches(s, g, g.rows[i], env, clock.t);
      KeySettlesIff(s, g, d, cfg, clock, frac, env, i);
    }
    hide FeedAll, Settled, KeyMatches, FollowsAt, ItemsOf;
  }

  lemma KeySettlesIff(s: State, g: GoState, d: Settlement, cfg: Config, clock: Clock, frac: int, env: Env, i: nat)
    requires Sensible(cfg, frac, env) && DistinctRows(g.rows) && OneEach(d.answers)
    requires i < |g.rows| && KeyMatches(s, g, g.rows[i], env, clock.t)
    ensures var s' := FeedAll(s, ItemsOf(g.rows, d.answers, d.stream), cfg, clock).st;
            var g' := Settled(g, d, cfg, clock, frac, env);
            && Evolved(g.rows, g'.rows, |g.rows|)
            && (KeyMatches(s', g', g'.rows[i], env, clock.t) <==> FollowsAt(s, g, d, cfg, clock.now, frac, env, i))
  {
    var s' := FeedAll(s, ItemsOf(g.rows, d.answers, d.stream), cfg, clock).st;
    var g' := Settled(g, d, cfg, clock, frac, env);
    var rpm, id := KeyRPM(g.rows[i], env), g.rows[i].id;
    KernelSettles(s, g.rows, d.answers, d.stream, cfg, clock, i);
    GoSettles(g, d, cfg, clock, frac, env, i);
    assert g'.rows[i].id == id && KeyRPM(g'.rows[i], env) == rpm;
    assert KernelView(s, id).bucket.Some? <==> id in s.buckets;
    hide *;
    ViewsMatchIff(s, g, i, env, clock.t);
    ViewsMatchIff(s', g', i, env, clock.t);
    FeedbackAgreesIff(
      KernelView(s, id), GoView(g, i), AnswerOf(d.answers, i), d.stream, !d.stream && i in d.selected, rpm,
      cfg, clock, frac, env);
    FollowsAtIs(s, g, d, cfg, clock.now, frac, env, i);
  }

  lemma FollowsAtIs(s: State, g: GoState, d: Settlement, cfg: Config, now: int, frac: int, env: Env, i: nat)
    requires i < |g.rows|
    ensures FollowsAt(s, g, d, cfg, now, frac, env, i)
       <==> Follows(GoView(g, i), AnswerOf(d.answers, i), d.stream, !d.stream && i in d.selected,
                    g.rows[i].id in s.buckets, KeyRPM(g.rows[i], env), cfg, now, frac)
  {
    hide Follows;
  }

  lemma SettleEvolves(g: GoState, d: Settlement, cfg: Config, clock: Clock, frac: int, env: Env)
    requires DistinctRows(g.rows) && OneEach(d.answers)
    ensures Evolved(g.rows, Settled(g, d, cfg, clock, frac, env).rows, |g.rows|)
  {
    if g.rows != [] {
      GoSettles(g, d, cfg, clock, frac, env, 0);
    }
    hide Settled;
  }

  // ---- Where they part --------------------------------------------------------

  /** An open key that fails over HTTP with the default base and 29 doublings due: Go's deadline is in
      the past, the kernel's ten minutes ahead. */
  lemma OverflowParts(v: GoKey, threshold: int, now: int, frac: int)
    requires threshold >= 1 && v.fails == threshold + 28 && 0 <= frac < NS
    ensures !OpensAlike(v, true, Config(threshold, 30, 120.0), now, frac)
  {
    GoBackoffWrapsAt29();
    PowTable();
    hide Pow2;
    assert 30 * NS * 0x2000_0000 >= TWO_63;
  }

  /** A key another dispatch has opened meanwhile, selected for this one but not answered: nothing is
      reported of it, yet the check sets a new deadline, and the sides part unless that is the one it has. */
  lemma CheckRestamps(
      s: State, g: GoState, d: Settlement, cfg: Config, clock: Clock, frac: int, env: Env, i: nat)
    requires Sensible(cfg, frac, env) && DistinctRows(g.rows) && OneEach(d.answers)
    requires i < |g.rows| && KeyMatches(s, g, g.rows[i], env, clock.t) && g.rows[i].breaker.status == Open
    requires !d.stream && i in d.selected && AnswerOf(d.answers, i) == None
    requires HW.FailsOf(g.consec, g.rows[i].id) >= cfg.threshold
    ensures var s' := FeedAll(s, ItemsOf(g.rows, d.answers, d.stream), cfg, clock).st;
            var g' := Settled(g, d, cfg, clock, frac, env);
            var until := clock.now + GoDelay(cfg.base, HW.FailsOf(g.consec, g.rows[i].id) - cfg.threshold, frac);
            && KernelView(s', g.rows[i].id) == KernelView(s, g.rows[i].id)
            && (KeyMatches(s', g', g'.rows[i], env, clock.t) <==> g.rows[i].breaker.until == until)
  {
    KernelSettles(s, g.rows, d.answers, d.stream, cfg, clock, i);
    GoSettles(g, d, cfg, clock, frac, env, i);
    KeySettlesIff(s, g, d, cfg, clock, frac, env, i);
    hide GoDelay, KeyMatches, Settled, FeedAll, ItemsOf, Stored;
    assert GoView(g, i).fails == HW.FailsOf(g.consec, g.rows[i].id);
  }

  /** Without a kernel a stream never opens a breaker, however often it fails: no row becomes open. */
  lemma {:induction false} StreamsNeverOpen(g: GoState, answers: seq<Answer>, env: Env, t: real, i: nat)
    requires i < |g.rows|
    ensures ObserveAll(g, answers, true, env, t).rows[i].breaker.status == Open ==> g.rows[i].breaker.status == Open
  {
    if answers != [] {
      hide HW.Recorded, TB.Calibrated;
      StreamsNeverOpen(g, answers[..|answers| - 1], env, t, i);
    }
  }

  /** The check at the end of a dispatch opens exactly the selected keys whose count has reached the
      threshold, open ones anew, and leaves every other row alone. */
  lemma CheckOpensExactly(g: GoState, selected: seq<nat>, cfg: Config, now: int, frac: int, i: nat)
    requires DistinctRows(g.rows) && i < |g.rows|
    ensures var fails := HW.FailsOf(g.consec, g.rows[i].id);
            CheckAll(g, selected, cfg, now, frac).rows[i]
              == if i in selected && fails >= cfg.threshold
                 then g.rows[i].(breaker := Breaker(Open, fails, now + GoDelay(cfg.base, fails - cfg.threshold, frac)))
                 else g.rows[i]
  {
    GoChecks(g, selected, cfg, now, frac, i);
    hide GoDelay, CheckAll, Stored;
  }
}
