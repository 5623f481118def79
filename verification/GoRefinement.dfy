/** The Go degrade path refines the kernel: from matching states both promote the same breakers, admit
    and order the same keys, dispatch the same prefix and end in matching states. */
module GoRefinement {
  import opened Backoff
  import TB = TokenBuckets
  import HW = HealthWindows
  import opened Selection
  import opened Kernel
  import KS = KernelSafety
  import opened GoScheduler

  function OfferOf(row: Row, env: Env): Candidate {
    Candidate(row.id, KeyRPM(row, env), BoostOf(env, row.id), InflightOf(env, row.id))
  }

  /** The candidates `selectKeysKernel` would send for the same rows. */
  function Offers(rows: seq<Row>, n: nat, env: Env, now: int): (cands: seq<Candidate>)
    requires n <= |rows|
    ensures |cands| <= n
  {
    if n == 0 then []
    else
      var row := rows[n - 1];
      Offers(rows, n - 1, env, now)
      + if Offerable(row, now) then [OfferOf(row, env)] else []
  }

  /** The candidate sent for a row: the key's own limit or the default, the Auto-Pilot's boost or none, and
      the requests in flight. */
  predicate Describes(c: Candidate, row: Row, env: Env) {
    && c.id == row.id
    && c.rpm == (if row.rpmOverride > 0 then row.rpmOverride else env.defaultRPM)
    && c.boost == (if row.id in env.boost then env.boost[row.id] else 1.0)
    && c.inflight == if row.id in env.inflight then env.inflight[row.id] else 0
  }

  /** Exactly the enabled rows that are not open before their deadline are offered, in order. */
  lemma {:induction false} OffersExactly(rows: seq<Row>, n: nat, env: Env, now: int) returns (from: seq<nat>)
    requires n <= |rows|
    ensures |from| == |Offers(rows, n, env, now)|
    ensures forall k :: 0 <= k < |from| ==> from[k] < n && Describes(Offers(rows, n, env, now)[k], rows[from[k]], env)
    ensures forall k, l :: 0 <= k < l < |from| ==> from[k] < from[l]
    ensures forall i: nat :: i < n ==>
              (i in from <==> rows[i].enabled && (rows[i].breaker.status == Open ==> rows[i].breaker.until <= now))
  {
    from := [];
    if n > 0 {
      from := OffersExactly(rows, n - 1, env, now);
      if Offerable(rows[n - 1], now) {
        from := from + [n - 1];
      }
    }
  }

  /** Same status, same consecutive failures, and the same deadline while open. */
  predicate BreakerMatches(brk: map<int, Breaker>, consec: map<int, nat>, row: Row) {
    var b := BreakerOf(brk, row.id);
    && b.status == row.breaker.status
    && b.fails == HW.FailsOf(consec, row.id)
    && (b.status == Open ==> b.until == row.breaker.until)
  }

  predicate Sound(b: TB.Bucket, t: real) {
    TB.Valid(b) && b.last <= t
  }

  /** The same once refilled. A side that has no bucket yet is matched by the one it would create, so a
      kernel that builds buckets lazily matches a scheduler that registered its keys at start. */
  predicate SameLevel(x: TB.Bucket, y: TB.Bucket, t: real) {
    Sound(x, t) && Sound(y, t) && TB.Refill(x, t) == TB.Refill(y, t)
  }

  predicate BucketMatches(a: map<int, TB.Bucket>, b: map<int, TB.Bucket>, row: Row, env: Env, t: real) {
    SameLevel(BucketOf(a, row.id, KeyRPM(row, env), t), GoBucketOf(b, row.id, env, t), t)
  }

  predicate WindowMatches(a: map<int, seq<HW.Entry>>, b: map<int, seq<HW.Entry>>, id: int, cutoff: real) {
    HW.Evict(HW.WindowOf(a, id), cutoff) == HW.Evict(HW.WindowOf(b, id), cutoff)
  }

  /** One key, seen from both sides. Windows may differ by what is already out of date. */
  predicate KeyMatches(s: State, g: GoState, row: Row, env: Env, t: real) {
    && BreakerMatches(s.brk, g.consec, row)
    && BucketMatches(s.buckets, g.buckets, row, env, t)
    && WindowMatches(s.windows, g.windows, row.id, t - env.span)
  }

  predicate Match(s: State, g: GoState, env: Env, t: real) {
    && s.rr == g.rr && s.active == g.active
    && forall i :: 0 <= i < |g.rows| && g.rows[i].enabled ==> KeyMatches(s, g, g.rows[i], env, t)
  }

  predicate DistinctRows(rows: seq<Row>) {
    forall i, j :: 0 <= i < j < |rows| ==> rows[i].id != rows[j].id
  }

  lemma SoundRefill(b: TB.Bucket, t1: real, t2: real)
    requires Sound(b, t1) && t1 <= t2
    ensures Sound(b, t2) && Sound(TB.Refill(b, t1), t1) && TB.Refill(TB.Refill(b, t1), t2) == TB.Refill(b, t2)
  {
    TB.RefillValid(b, t1);
    TB.RefillTwice(b, t1, t2);
    hide TB.Refill;
  }

  /** A bucket that has been full all the time is the one created now. */
  lemma FreshLater(rpm: int, t1: real, t2: real)
    requires t1 <= t2
    ensures TB.Refill(TB.Fresh(rpm, t1), t2) == TB.Fresh(rpm, t2) == TB.Refill(TB.Fresh(rpm, t2), t2)
    ensures rpm >= 0 ==> TB.Refill(GoFresh(rpm, t1), t2) == GoFresh(rpm, t2) == TB.Refill(GoFresh(rpm, t2), t2)
  {
    TB.DripFacts(TB.Fresh(rpm, t1).rate, t1, t2, t2);
    if rpm >= 0 {
      TB.DripFacts(GoFresh(rpm, t1).rate, t1, t2, t2);
    }
    hide TB.Drip;
  }

  lemma BucketLater(a: map<int, TB.Bucket>, b: map<int, TB.Bucket>, row: Row, env: Env, t1: real, t2: real)
    requires BucketMatches(a, b, row, env, t1) && t1 <= t2
    ensures BucketMatches(a, b, row, env, t2)
  {
    var x, y := BucketOf(a, row.id, KeyRPM(row, env), t1), GoBucketOf(b, row.id, env, t1);
    SoundRefill(x, t1, t2);
    SoundRefill(y, t1, t2);
    FreshLater(KeyRPM(row, env), t1, t2);
    FreshLater(env.defaultRPM, t1, t2);
    hide TB.Refill, KeyRPM;
  }

  /** Matching survives the passing of time. */
  lemma MatchLater(s: State, g: GoState, env: Env, t1: real, t2: real)
    requires Match(s, g, env, t1) && t1 <= t2
    ensures Match(s, g, env, t2)
  {
    forall i | 0 <= i < |g.rows| && g.rows[i].enabled ensures KeyMatches(s, g, g.rows[i], env, t2) {
      KeyLater(s, g, g.rows[i], env, t1, t2);
    }
  }

  lemma KeyLater(s: State, g: GoState, row: Row, env: Env, t1: real, t2: real)
    requires KeyMatches(s, g, row, env, t1) && t1 <= t2
    ensures KeyMatches(s, g, row, env, t2)
  {
    EvictTwice(HW.WindowOf(s.windows, row.id), t1 - env.span, t2 - env.span);
    EvictTwice(HW.WindowOf(g.windows, row.id), t1 - env.span, t2 - env.span);
    BucketLater(s.buckets, g.buckets, row, env, t1, t2);
    hide BucketMatches, BreakerMatches, HW.Evict;
  }

  /** A kernel that has just started matches a scheduler that has just registered its keys, if the
      breaker rows were kept in step. */
  lemma ColdStartMatches(s: State, g: GoState, env: Env, t0: real, t: real)
    requires s.buckets == map[] && s.windows == map[] && s.rr == 0 && s.active == g.active
    requires g.buckets == Registered(g.rows, env, t0) && g.windows == map[] && g.rr == 0 && t0 <= t
    requires forall i :: 0 <= i < |g.rows| ==> BreakerMatches(s.brk, g.consec, g.rows[i])
    requires DistinctRows(g.rows) && env.defaultRPM >= 1
    ensures Match(s, g, env, t)
  {
    forall i | 0 <= i < |g.rows| && g.rows[i].enabled ensures KeyMatches(s, g, g.rows[i], env, t) {
      RegisteredRow(g.rows, env, t0, i);
      FreshLater(KeyRPM(g.rows[i], env), t0, t);
      hide BreakerMatches, TB.Refill;
    }
  }

  lemma {:induction false} RegisteredRow(rows: seq<Row>, env: Env, t: real, i: nat)
    requires i < |rows| && DistinctRows(rows)
    ensures var m := Registered(rows, env, t);
            rows[i].id in m && m[rows[i].id] == GoFresh(KeyRPM(rows[i], env), t)
    ensures var b := Registered(rows, env, t)[rows[i].id];
            && b.capacity == (if rows[i].rpmOverride > 0 then rows[i].rpmOverride else env.defaultRPM) as real
            && b.tokens == b.capacity && b.rate * 60.0 == b.capacity && b.last == t
  {
    if i < |rows| - 1 {
      RegisteredRow(rows[..|rows| - 1], env, t, i);
      assert rows[..|rows| - 1][i] == rows[i];
    }
  }

  // ---- The candidate loops ----------------------------------------------------

  /** The two loops, after the same rows. */
  predicate InStep(p: Scan, q: GoScan, env: Env, t: real) {
    Match(p.st, q.st, env, t) && p.probes == q.probes && p.viable == Items(q.st, q.picked, t, env)
  }

  function KernelTurn(p: Scan, row: Row, clock: Clock, env: Env): Scan {
    if Offerable(row, clock.now) then
      Consider(p, OfferOf(row, env), clock, env.span)
    else p
  }

  lemma AdvancesMatch(p: Scan, g: GoState, i: nat, clock: Clock, env: Env)
    requires i < |g.rows| && KeyMatches(p.st, g, g.rows[i], env, clock.t) && Offerable(g.rows[i], clock.now)
    ensures var id := g.rows[i].id;
            var p', g' := Advance(p, id, clock.now), GoAdvance(g, i, clock.now);
            && KeyMatches(p'.st, g', g'.rows[i], env, clock.t)
            && p'.probes == p.probes && p'.viable == p.viable && p'.st.active == p.st.active && g'.active == g.active
            && p'.st.brk[id].status == g'.rows[i].breaker.status != Open
              && p'.st.brk[id].fails == HW.FailsOf(g'.consec, id)
            && g'.rows[i] == g.rows[i].(breaker := g'.rows[i].breaker)
  {
    hide HW.Evict;
  }

  lemma AdmitsMatch(p: Scan, q: GoScan, row: Row, clock: Clock, env: Env)
    requires KeyMatches(p.st, q.st, row, env, clock.t) && p.st.active == q.st.active
    ensures var fails := HW.FailsOf(q.st.consec, row.id);
            var p', q' := Admit(p, OfferOf(row, env), fails, clock.t, env.span), GoAdmit(q, row.id, clock.t, env);
            && p'.probes == p.probes && q'.probes == q.probes
            && p'.st.brk == p.st.brk && q'.st.rows == q.st.rows && q'.st.consec == q.st.consec
              && q'.st.windows == q.st.windows
            && KeyMatches(p'.st, q'.st, row, env, clock.t)
            && ((p'.viable == p.viable && q'.picked == q.picked)
                || (q'.picked == q.picked + [row.id]
                    && p'.viable == p.viable
                      + [Viable(row.id, KeyScore(q.st, row.id, clock.t, env), InflightOf(env, row.id))]))
  {
    var entries := HW.Evict(HW.WindowOf(p.st.windows, row.id), clock.t - env.span);
    assert KeyScore(q.st, row.id, clock.t, env)
      == WeightedScore(HW.Rate(entries), HW.FailsOf(q.st.consec, row.id), BoostOf(env, row.id));
    EvictTwice(HW.WindowOf(p.st.windows, row.id), clock.t - env.span, clock.t - env.span);
    BucketsMatch(p.st, q.st, row, env, clock.t);
    hide HW.Evict, TB.Refill, TB.Admits, TB.Fresh, GoFresh, HW.Rate, WeightedScore, KeyScore, BreakerMatches, SameLevel;
  }

  /** What one turn does to the key it is about: the same on both sides. */
  lemma TurnMatchesKey(p: Scan, q: GoScan, i: nat, clock: Clock, env: Env)
    requires i < |q.st.rows| && InStep(p, q, env, clock.t) && Offerable(q.st.rows[i], clock.now)
    ensures var row := q.st.rows[i];
            var p', q' := KernelTurn(p, row, clock, env), GoConsider(q, i, clock, env);
            && |q'.st.rows| == |q.st.rows|
            && KeyMatches(p'.st, q'.st, q'.st.rows[i], env, clock.t)
            && p'.probes == q'.probes && q'.st.rows[i] == row.(breaker := q'.st.rows[i].breaker)
            && ((p'.viable == p.viable && q'.picked == q.picked)
                || (q'.picked == q.picked + [row.id] && q'.st.rows[i].breaker.status != Open
                    && p'.viable == p.viable
                      + [Viable(row.id, KeyScore(q'.st, row.id, clock.t, env), InflightOf(env, row.id))]))
  {
    var row := q.st.rows[i];
    assert KeyMatches(p.st, q.st, row, env, clock.t);
    AdvancesMatch(p, q.st, i, clock, env);
    var p1, g1 := Advance(p, row.id, clock.now), GoAdvance(q.st, i, clock.now);
    var left := if g1.rows[i].breaker.status == HalfOpen then p.probes - 1 else p.probes;
    assert OfferOf(row, env) == OfferOf(g1.rows[i], env);
    AdmitsMatch(p1.(probes := left), GoScan(g1, q.picked, left), g1.rows[i], clock, env);
    SameScore(g1, GoAdmit(GoScan(g1, q.picked, left), row.id, clock.t, env).st, row.id, clock.t, env);
    hide Advance, GoAdvance, Admit, GoAdmit, KeyMatches, KeyScore, Items;
  }

  lemma BucketsMatch(s: State, g: GoState, row: Row, env: Env, t: real)
    requires KeyMatches(s, g, row, env, t)
    ensures var x, y := BucketOf(s.buckets, row.id, KeyRPM(row, env), t), GoBucketOf(g.buckets, row.id, env, t);
            && TB.Refill(x, t) == TB.Refill(y, t) && SameLevel(TB.Refill(x, t), TB.Refill(y, t), t)
            && (TB.Admits(x, t, s.active.headroom) <==> TB.Admits(y, t, s.active.headroom))
  {
    hide TB.Refill, TB.Admits, BucketOf, GoBucketOf, KeyRPM, HW.Evict, Sound;
    var x, y := BucketOf(s.buckets, row.id, KeyRPM(row, env), t), GoBucketOf(g.buckets, row.id, env, t);
    LevelsMatch(x, y, t, s.active.headroom);
  }

  lemma LevelsMatch(x: TB.Bucket, y: TB.Bucket, t: real, headroom: real)
    requires SameLevel(x, y, t)
    ensures TB.Refill(x, t) == TB.Refill(y, t) && SameLevel(TB.Refill(x, t), TB.Refill(y, t), t)
    ensures TB.Admits(x, t, headroom) <==> TB.Admits(y, t, headroom)
  {
    SoundRefill(x, t, t);
    SoundRefill(y, t, t);
    SameCapacity(x, t);
    SameCapacity(y, t);
    hide TB.Refill, Sound;
  }

  lemma SameCapacity(b: TB.Bucket, t: real)
    ensures TB.Refill(b, t).capacity == b.capacity
  {
  }

  /** And nothing to any other key. */
  lemma TurnLeavesOthers(p: Scan, q: GoScan, i: nat, clock: Clock, env: Env, other: Row)
    requires i < |q.st.rows| && other.id != q.st.rows[i].id
    requires KeyMatches(p.st, q.st, other, env, clock.t)
    ensures var p', q' := KernelTurn(p, q.st.rows[i], clock, env), GoConsider(q, i, clock, env);
            && KeyMatches(p'.st, q'.st, other, env, clock.t)
            && KeyScore(q'.st, other.id, clock.t, env) == KeyScore(q.st, other.id, clock.t, env)
  {
    KernelTurnLeaves(p, q.st.rows[i], clock, env, other.id);
    GoTurnLeaves(q, i, clock, env, other.id);
    SameScore(q.st, GoConsider(q, i, clock, env).st, other.id, clock.t, env);
    hide KernelTurn, GoConsider, KeyScore, HW.Evict;
  }

  lemma KernelTurnLeaves(p: Scan, row: Row, clock: Clock, env: Env, id: int)
    requires id != row.id
    ensures var st := KernelTurn(p, row, clock, env).st;
            && BreakerOf(st.brk, id) == BreakerOf(p.st.brk, id)
              && HW.WindowOf(st.windows, id) == HW.WindowOf(p.st.windows, id)
            && (id in st.buckets <==> id in p.st.buckets) && (id in st.buckets ==> st.buckets[id] == p.st.buckets[id])
  {
    var p1 := Advance(p, row.id, clock.now);
    var kb := p1.st.brk[row.id];
    AdmitLeaves(p1, OfferOf(row, env), kb.fails, clock.t, env.span, id);
    AdmitLeaves(p1.(probes := p.probes - 1), OfferOf(row, env), kb.fails, clock.t, env.span, id);
    hide Admit, Promote;
  }

  lemma AdmitLeaves(p: Scan, c: Candidate, fails: nat, t: real, span: real, id: int)
    requires id != c.id
    ensures var st := Admit(p, c, fails, t, span).st;
            && st.brk == p.st.brk && HW.WindowOf(st.windows, id) == HW.WindowOf(p.st.windows, id)
            && (id in st.buckets <==> id in p.st.buckets) && (id in st.buckets ==> st.buckets[id] == p.st.buckets[id])
  {
    hide TB.Refill, TB.Admits, TB.Fresh, HW.Evict, HW.Rate, WeightedScore;
  }

  lemma GoTurnLeaves(q: GoScan, i: nat, clock: Clock, env: Env, id: int)
    requires i < |q.st.rows| && id != q.st.rows[i].id
    ensures var st := GoConsider(q, i, clock, env).st;
            && HW.FailsOf(st.consec, id) == HW.FailsOf(q.st.consec, id)
              && HW.WindowOf(st.windows, id) == HW.WindowOf(q.st.windows, id)
            && (id in st.buckets <==> id in q.st.buckets) && (id in st.buckets ==> st.buckets[id] == q.st.buckets[id])
  {
    hide TB.Refill, TB.Admits, GoFresh, Promote;
  }

  lemma TurnKeepsGlobals(p: Scan, q: GoScan, i: nat, clock: Clock, env: Env)
    requires i < |q.st.rows|
    ensures var p', q' := KernelTurn(p, q.st.rows[i], clock, env), GoConsider(q, i, clock, env);
            && p'.st.rr == p.st.rr && p'.st.active == p.st.active && q'.st.rr == q.st.rr && q'.st.active == q.st.active
            && |q'.st.rows| == |q.st.rows|
            && forall j :: 0 <= j < |q.st.rows| && j != i ==> q'.st.rows[j] == q.st.rows[j]
  {
    var row := q.st.rows[i];
    if Offerable(row, clock.now) {
      KS.ConsiderCell(p, OfferOf(row, env), clock, env.span, row.id);
    }
    hide Consider, TB.Refill, TB.Admits, GoFresh, Promote;
  }

  lemma PicksKeepScores(p: Scan, q: GoScan, i: nat, clock: Clock, env: Env)
    requires i < |q.st.rows| && DistinctRows(q.st.rows) && InStep(p, q, env, clock.t)
    requires forall k :: 0 <= k < |q.picked| ==> Earlier(q.st.rows, i, q.picked[k])
    ensures var q' := GoConsider(q, i, clock, env);
            forall k :: 0 <= k < |q.picked| ==>
              KeyScore(q'.st, q.picked[k], clock.t, env) == KeyScore(q.st, q.picked[k], clock.t, env)
  {
    var q' := GoConsider(q, i, clock, env);
    hide KernelTurn, GoConsider, KeyMatches;
    forall k | 0 <= k < |q.picked|
      ensures KeyScore(q'.st, q.picked[k], clock.t, env) == KeyScore(q.st, q.picked[k], clock.t, env) {
      var j :| 0 <= j < i && q.st.rows[j].id == q.picked[k] && q.st.rows[j].enabled
        && q.st.rows[j].breaker.status != Open;
      TurnLeavesOthers(p, q, i, clock, env, q.st.rows[j]);
    }
  }

  lemma TurnsInStep(p: Scan, q: GoScan, i: nat, clock: Clock, env: Env)
    requires i < |q.st.rows| && DistinctRows(q.st.rows) && InStep(p, q, env, clock.t)
    requires forall k :: 0 <= k < |q.picked| ==> Earlier(q.st.rows, i, q.picked[k])
    ensures var p', q' := KernelTurn(p, q.st.rows[i], clock, env), GoConsider(q, i, clock, env);
            && InStep(p', q', env, clock.t) && |q'.st.rows| == |q.st.rows|
            && (forall k :: 0 <= k < |q'.picked| ==> Earlier(q'.st.rows, i + 1, q'.picked[k]))
            && (forall j :: 0 <= j < |q.st.rows| ==> q'.st.rows[j] == q.st.rows[j].(breaker := q'.st.rows[j].breaker))
            && (forall j :: i < j < |q.st.rows| ==> q'.st.rows[j] == q.st.rows[j])
  {
    var row := q.st.rows[i];
    var p', q' := KernelTurn(p, row, clock, env), GoConsider(q, i, clock, env);
    if Offerable(row, clock.now) {
      TurnMatchesKey(p, q, i, clock, env);
    } else {
      assert p' == p && q' == q;
    }
    TurnKeepsGlobals(p, q, i, clock, env);
    hide KernelTurn, GoConsider;
    forall j | 0 <= j < |q'.st.rows| && q'.st.rows[j].enabled
      ensures KeyMatches(p'.st, q'.st, q'.st.rows[j], env, clock.t) {
      if j != i {
        assert q.st.rows[j].id != row.id;
        TurnLeavesOthers(p, q, i, clock, env, q.st.rows[j]);
      }
    }
    PicksKeepScores(p, q, i, clock, env);
    hide KeyScore, KeyMatches;
    EarlierStill(q.st.rows, q'.st.rows, i, q.picked);
    assert p'.viable == Items(q'.st, q'.picked, clock.t, env);
    forall k | 0 <= k < |q'.picked| ensures Earlier(q'.st.rows, i + 1, q'.picked[k]) {
      if k == |q.picked| {
        assert q'.st.rows[i].id == q'.picked[k];
      }
    }
  }

  /** One of the first `i` rows has this key, is enabled and not open. */
  predicate Earlier(rows: seq<Row>, i: nat, id: int)
    requires i <= |rows|
  {
    exists j :: 0 <= j < i && rows[j].id == id && rows[j].enabled && rows[j].breaker.status != Open
  }

  lemma EarlierStill(rows: seq<Row>, rows': seq<Row>, i: nat, ids: seq<int>)
    requires i < |rows| == |rows'|
    requires forall j :: 0 <= j < i ==> rows'[j] == rows[j]
    requires forall k :: 0 <= k < |ids| ==> Earlier(rows, i, ids[k])
    ensures forall k :: 0 <= k < |ids| ==> Earlier(rows', i + 1, ids[k])
  {
    forall k | 0 <= k < |ids| ensures Earlier(rows', i + 1, ids[k]) {
      var j :| 0 <= j < i && rows[j].id == ids[k] && rows[j].enabled && rows[j].breaker.status != Open;
      assert rows'[j].id == ids[k] && rows'[j].enabled;
    }
  }

  /** Only breakers of the first `n` rows have changed. */
  predicate Evolved(rows: seq<Row>, rows': seq<Row>, n: nat) {
    && |rows'| == |rows|
    && (forall j :: 0 <= j < |rows| ==> rows'[j] == rows[j].(breaker := rows'[j].breaker))
    && (forall j :: n <= j < |rows| ==> rows'[j] == rows[j])
  }

  predicate PickedEarlier(rows: seq<Row>, n: nat, picked: seq<int>)
    requires n <= |rows|
  {
    forall k :: 0 <= k < |picked| ==> Earlier(rows, n, picked[k])
  }

  lemma TurnEvolves(rows: seq<Row>, p: Scan, q: GoScan, i: nat, clock: Clock, env: Env)
    requires i < |rows| && DistinctRows(rows) && Evolved(rows, q.st.rows, i)
    requires InStep(p, q, env, clock.t) && PickedEarlier(q.st.rows, i, q.picked)
    ensures var p', q' := KernelTurn(p, rows[i], clock, env), GoConsider(q, i, clock, env);
            InStep(p', q', env, clock.t) && Evolved(rows, q'.st.rows, i + 1)
              && PickedEarlier(q'.st.rows, i + 1, q'.picked)
  {
    hide InStep, KernelTurn, GoConsider, Earlier;
    assert DistinctRows(q.st.rows);
    TurnsInStep(p, q, i, clock, env);
  }

  lemma {:induction false} LoopsInStep(s: State, g: GoState, n: nat, clock: Clock, env: Env)
    requires n <= |g.rows| && DistinctRows(g.rows) && Match(s, g, env, clock.t)
    ensures var p, q := ScanAll(s, Offers(g.rows, n, env, clock.now), clock, env.span), GoScanTo(g, n, clock, env);
            InStep(p, q, env, clock.t) && Evolved(g.rows, q.st.rows, n) && PickedEarlier(q.st.rows, n, q.picked)
  {
    hide Match, KernelTurn, GoConsider, InStep, Evolved, PickedEarlier, DistinctRows, ScanAll, Offers, GoScanTo;
    if n == 0 {
      LoopsStart(s, g, env, clock);
    } else {
      LoopsInStep(s, g, n - 1, clock, env);
      var p0, q0 := ScanAll(s, Offers(g.rows, n - 1, env, clock.now), clock, env.span), GoScanTo(g, n - 1, clock, env);
      TurnEvolves(g.rows, p0, q0, n - 1, clock, env);
      LastOffer(s, g.rows, n, clock, env);
      LastRow(g, n, clock, env);
    }
  }

  lemma LoopsStart(s: State, g: GoState, env: Env, clock: Clock)
    requires Match(s, g, env, clock.t)
    ensures var p, q := ScanAll(s, Offers(g.rows, 0, env, clock.now), clock, env.span), GoScanTo(g, 0, clock, env);
            InStep(p, q, env, clock.t) && Evolved(g.rows, q.st.rows, 0) && PickedEarlier(q.st.rows, 0, q.picked)
  {
    hide KeyMatches;
  }

  lemma LastRow(g: GoState, n: nat, clock: Clock, env: Env)
    requires 0 < n <= |g.rows|
    ensures GoScanTo(g, n, clock, env) == GoConsider(GoScanTo(g, n - 1, clock, env), n - 1, clock, env)
  {
    hide GoConsider;
  }

  lemma LastOffer(s: State, rows: seq<Row>, n: nat, clock: Clock, env: Env)
    requires 0 < n <= |rows|
    ensures ScanAll(s, Offers(rows, n, env, clock.now), clock, env.span)
         == KernelTurn(ScanAll(s, Offers(rows, n - 1, env, clock.now), clock, env.span), rows[n - 1], clock, env)
  {
    hide Consider;
    var before, after := Offers(rows, n - 1, env, clock.now), Offers(rows, n, env, clock.now);
    if Offerable(rows[n - 1], clock.now) {
      assert after[..|after| - 1] == before;
    } else {
      assert after == before;
    }
  }

  // ---- Ordering ---------------------------------------------------------------

  lemma {:induction false} InsertIdsOnly(x: Viable, ys: seq<Viable>)
    ensures Ids(Insert(RoundRobin, x, ys)) == InsertId(x.id, Ids(ys))
  {
    if ys != [] && ys[0].id < x.id {
      InsertIdsOnly(x, ys[1..]);
      assert Ids(ys)[1..] == Ids(ys[1..]);
    }
  }

  /** Round robin sorts by key alone, so the Go side may sort the bare ids. */
  lemma {:induction false} SortIdsOnly(items: seq<Viable>)
    ensures Ids(StableSort(RoundRobin, items)) == SortIds(Ids(items))
  {
    if items != [] {
      SortIdsOnly(items[1..]);
      InsertIdsOnly(items[0], StableSort(RoundRobin, items[1..]));
      assert Ids(items)[1..] == Ids(items[1..]);
    }
  }

  lemma OrdersAgree(g: GoState, ids: seq<int>, t: real, env: Env, draws: seq<real>)
    requires |draws| >= |ids|
    ensures GoOrder(g, ids, t, env, draws).1 == Ids(Order(g.active.selection, Items(g, ids, t, env), g.rr, draws))
  {
    hide KeyScore, SortIds, RotatedIds, StableSort;
    var items := Items(g, ids, t, env);
    if g.active.selection == RoundRobin {
      assert Ids(items) == ids;
      RotationsAgree(items, g.rr, draws);
    }
  }

  lemma RotationsAgree(items: seq<Viable>, rr: nat, draws: seq<real>)
    requires |draws| >= |items|
    ensures Ids(Order(RoundRobin, items, rr, draws)) == RotatedIds(SortIds(Ids(items)), rr)
  {
    SortIdsOnly(items);
    var s := StableSort(RoundRobin, items);
    hide StableSort, SortIds;
    if s != [] {
      var r := rr % |s|;
      assert Ids(Rotated(s, r)) == Ids(s)[r..] + Ids(s)[..r];
    }
  }

  // ---- The dispatched prefix --------------------------------------------------

  /** The Go prefix is as long as the kernel's exactly when the effective concurrency reaches the
      fan-out, or the number of keys if that is smaller; without a fan-out it must be at least one. */
  predicate WideEnough(active: Strategy, concurrency: int, n: nat) {
    n == 0 || concurrency >= if active.fanout > 0 then Min(active.fanout, n) else 1
  }

  lemma WidthsAgreeIff(active: Strategy, concurrency: int, n: nat)
    requires n > 0
    ensures GoWidth(active, concurrency, n) == Min(Width(active, concurrency), n)
      <==> WideEnough(active, concurrency, n)
  {
  }

  lemma TakesAlike(x: TB.Bucket, y: TB.Bucket, t: real)
    requires SameLevel(x, y, t)
    ensures SameLevel(TB.Take(x, t, 1), TB.Take(y, t, 1), t)
  {
    TB.ApplyValid(x, TB.At(t, TB.Allow(1)));
    TB.ApplyValid(y, TB.At(t, TB.Allow(1)));
    hide TB.Refill, TB.Valid;
    assert TB.Take(x, t, 1) == TB.Take(y, t, 1);
  }

  lemma {:induction false} SpendsAlike(
    a: map<int, TB.Bucket>, b: map<int, TB.Bucket>, ids: seq<int>, row: Row, env: Env, t: real)
    requires BucketMatches(a, b, row, env, t)
    requires row.id in ids ==> row.id in a && row.id in b
    ensures var x, y := Spend(a, ids, t), Spend(b, ids, t);
            (row.id in x <==> row.id in a) && (row.id in y <==> row.id in b) && BucketMatches(x, y, row, env, t)
  {
    if ids != [] {
      var n := |ids| - 1;
      assert ids == ids[..n] + [ids[n]];
      SpendsAlike(a, b, ids[..n], row, env, t);
      var x, y := Spend(a, ids[..n], t), Spend(b, ids[..n], t);
      hide TB.Take, KeyRPM, SameLevel;
      if ids[n] == row.id {
        TakesAlike(x[row.id], y[row.id], t);
      }
    }
  }

  /** Every one of these keys has a bucket. */
  predicate Covers(buckets: map<int, TB.Bucket>, ids: seq<int>) {
    forall id :: id in ids ==> id in buckets
  }

  lemma SpendKeepsMatch(s: State, g: GoState, ids: seq<int>, env: Env, t: real)
    requires Match(s, g, env, t) && Covers(s.buckets, ids) && Covers(g.buckets, ids)
    ensures Match(s.(buckets := Spend(s.buckets, ids, t)), g.(buckets := Spend(g.buckets, ids, t)), env, t)
  {
    var s', g' := s.(buckets := Spend(s.buckets, ids, t)), g.(buckets := Spend(g.buckets, ids, t));
    forall i | 0 <= i < |g.rows| && g.rows[i].enabled ensures KeyMatches(s', g', g.rows[i], env, t) {
      assert KeyMatches(s, g, g.rows[i], env, t);
      SpendsAlike(s.buckets, g.buckets, ids, g.rows[i], env, t);
      hide Spend, HW.Evict, BucketMatches;
    }
  }

  lemma OrderKeepsMatch(s: State, g: GoState, ids: seq<int>, t: real, env: Env, draws: seq<real>)
    requires |draws| >= |ids| > 0 && Match(s, g, env, t)
    ensures Match(s.(rr := NextPointer(s)), GoOrder(g, ids, t, env, draws).0, env, t)
  {
    var s' := s.(rr := NextPointer(s));
    var g' := GoOrder(g, ids, t, env, draws).0;
    forall i | 0 <= i < |g'.rows| && g'.rows[i].enabled ensures KeyMatches(s', g', g'.rows[i], env, t) {
      assert KeyMatches(s, g, g.rows[i], env, t);
      TrimmedStill(g.windows, ids, g.rows[i].id, t - env.span);
      hide HW.Evict, Trimmed;
    }
  }

  // ---- Both loops leave a bucket for every key they pick ----------------------

  lemma {:induction false} PickedHaveBuckets(g: GoState, n: nat, clock: Clock, env: Env)
    requires n <= |g.rows|
    ensures Covers(GoScanTo(g, n, clock, env).st.buckets, GoScanTo(g, n, clock, env).picked)
  {
    if n > 0 {
      PickedHaveBuckets(g, n - 1, clock, env);
      GoTurnAddsBucket(GoScanTo(g, n - 1, clock, env), n - 1, clock, env);
      hide GoConsider, Covers;
    }
  }

  lemma GoTurnAddsBucket(p: GoScan, i: nat, clock: Clock, env: Env)
    requires i < |p.st.rows| && Covers(p.st.buckets, p.picked)
    ensures Covers(GoConsider(p, i, clock, env).st.buckets, GoConsider(p, i, clock, env).picked)
  {
    hide TB.Refill, TB.Admits, GoFresh, Promote;
    assert GoAdvance(p.st, i, clock.now).buckets == p.st.buckets;
  }

  lemma {:induction false} ViableHaveBuckets(s: State, cands: seq<Candidate>, clock: Clock, span: real)
    ensures Covers(ScanAll(s, cands, clock, span).st.buckets, Ids(ScanAll(s, cands, clock, span).viable))
  {
    if cands != [] {
      ViableHaveBuckets(s, cands[..|cands| - 1], clock, span);
      TurnAddsBucket(ScanAll(s, cands[..|cands| - 1], clock, span), cands[|cands| - 1], clock, span);
      hide Consider, Covers;
    }
  }

  lemma TurnAddsBucket(p: Scan, c: Candidate, clock: Clock, span: real)
    requires Covers(p.st.buckets, Ids(p.viable))
    ensures Covers(Consider(p, c, clock, span).st.buckets, Ids(Consider(p, c, clock, span).viable))
  {
    var p1 := Advance(p, c.id, clock.now);
    assert p1.viable == p.viable && p1.st.buckets == p.st.buckets;
    AdmitAddsBucket(p1, c, p1.st.brk[c.id].fails, clock.t, span);
    AdmitAddsBucket(p1.(probes := p.probes - 1), c, p1.st.brk[c.id].fails, clock.t, span);
    hide Admit, Covers;
  }

  lemma AdmitAddsBucket(p: Scan, c: Candidate, fails: nat, t: real, span: real)
    requires Covers(p.st.buckets, Ids(p.viable))
    ensures Covers(Admit(p, c, fails, t, span).st.buckets, Ids(Admit(p, c, fails, t, span).viable))
  {
    var q := Admit(p, c, fails, t, span);
    hide TB.Refill, TB.Admits, TB.Fresh, HW.Evict, HW.Rate, WeightedScore;
    forall id | id in Ids(q.viable) ensures id in q.st.buckets {
      var k :| 0 <= k < |q.viable| && Ids(q.viable)[k] == id;
      if k < |p.viable| {
        assert Ids(p.viable)[k] == id;
      }
    }
  }

  // ---- The refinement ---------------------------------------------------------

  /** The state both loops have reached, with everything the rest of the selection needs. */
  predicate Scanned(p: Scan, q: GoScan, env: Env, t: real) {
    && InStep(p, q, env, t)
    && Covers(p.st.buckets, Ids(p.viable)) && Covers(q.st.buckets, q.picked)
  }

  lemma LoopsScan(s: State, g: GoState, clock: Clock, env: Env)
    requires DistinctRows(g.rows) && Match(s, g, env, clock.t)
    ensures var p := ScanAll(s, Offers(g.rows, |g.rows|, env, clock.now), clock, env.span);
            var q := GoScanTo(g, |g.rows|, clock, env);
            && Scanned(p, q, env, clock.t) && Evolved(g.rows, q.st.rows, |g.rows|)
            && PickedEarlier(q.st.rows, |g.rows|, q.picked) && q.st.active == g.active
  {
    LoopsInStep(s, g, |g.rows|, clock, env);
    GoScanKeepsActive(g, |g.rows|, clock, env);
    PickedHaveBuckets(g, |g.rows|, clock, env);
    ViableHaveBuckets(s, Offers(g.rows, |g.rows|, env, clock.now), clock, env.span);
    hide ScanAll, GoScanTo, InStep, Offers, Evolved, PickedEarlier, Covers;
  }

  function NextPointer(s: State): nat {
    if s.active.selection == RoundRobin then s.rr + 1 else s.rr
  }

  /** What a kernel reserve makes of its scan. */
  function KernelRest(p: Scan, concurrency: int, t2: real, draws: seq<real>): (State, seq<int>)
    requires |draws| >= |p.viable|
  {
    var ids := Taken(p, concurrency, draws);
    (p.st.(buckets := Spend(p.st.buckets, ids, t2), rr := NextPointer(p.st)), ids)
  }

  /** What the degrade path makes of its scan. */
  function GoRest(q: GoScan, concurrency: int, t: real, t2: real, env: Env, draws: seq<real>): (GoState, seq<int>)
    requires |draws| >= |q.picked|
  {
    var order := GoOrder(q.st, q.picked, t, env, draws);
    var n := Max(0, GoWidth(q.st.active, concurrency, |order.1|));
    (order.0.(buckets := Spend(order.0.buckets, order.1[..n], t2)), order.1[..n])
  }

  lemma RestsAre(s: State, g: GoState, concurrency: int, clock: Clock, t2: real, env: Env, draws: seq<real>)
    requires |draws| >= |g.rows| && GoScanTo(g, |g.rows|, clock, env).st.active == g.active
    ensures var p := ScanAll(s, Offers(g.rows, |g.rows|, env, clock.now), clock, env.span);
            var k := Reserve(s, ReserveReq(concurrency, Offers(g.rows, |g.rows|, env, clock.now)), clock, t2, draws,
              env.span);
            if p.viable == [] then k.0 == p.st && k.1.reserved == []
            else (k.0, k.1.reserved) == KernelRest(p, concurrency, t2, draws)
    ensures var q := GoScanTo(g, |g.rows|, clock, env);
            var go := GoReserve(g, concurrency, clock, t2, env, draws);
            if q.picked == [] then go == (q.st, []) && GoSelect(g, clock, env, draws).1 == []
            else go == GoRest(q, concurrency, clock.t, t2, env, draws)
                 && GoSelect(g, clock, env, draws) == GoOrder(q.st, q.picked, clock.t, env, draws)
  {
    hide ScanAll, GoScanTo, Offers, Taken, GoOrder, Spend;
    SpendNothing(GoScanTo(g, |g.rows|, clock, env).st.buckets, t2);
  }

  lemma SpendNothing(buckets: map<int, TB.Bucket>, t2: real)
    ensures Spend(buckets, [], t2) == buckets
  {
  }

  lemma OrderLength(g: GoState, ids: seq<int>, t: real, env: Env, draws: seq<real>)
    requires |draws| >= |ids|
    ensures |GoOrder(g, ids, t, env, draws).1| == |ids|
    ensures var after := GoOrder(g, ids, t, env, draws).0;
            after.rows == g.rows && after.buckets == g.buckets && after.active == g.active
  {
    OrderIsPermutation(g.active.selection, Items(g, ids, t, env), g.rr, draws);
    hide Order, KeyScore, Items, SortIds, Trimmed;
  }

  lemma TakenIsPrefix(p: Scan, q: GoScan, concurrency: int, t: real, env: Env, draws: seq<real>)
    requires |draws| >= |q.picked| > 0 && InStep(p, q, env, t)
    ensures var ordered := GoOrder(q.st, q.picked, t, env, draws).1;
            var n := Min(Width(q.st.active, concurrency), |q.picked|);
            |ordered| == |q.picked| && Taken(p, concurrency, draws) == ordered[..n]
  {
    OrdersAgree(q.st, q.picked, t, env, draws);
    OrderIsPermutation(q.st.active.selection, p.viable, q.st.rr, draws);
    hide Order, KeyMatches, KeyScore;
  }

  lemma TakenHaveBuckets(p: Scan, q: GoScan, concurrency: int, env: Env, t: real, draws: seq<real>)
    requires |draws| >= |q.picked| > 0 && Scanned(p, q, env, t)
    ensures Covers(p.st.buckets, Taken(p, concurrency, draws)) && Covers(q.st.buckets, Taken(p, concurrency, draws))
  {
    var ids := Taken(p, concurrency, draws);
    var ordered := Order(p.st.active.selection, p.viable, p.st.rr, draws);
    OrderIsPermutation(p.st.active.selection, p.viable, p.st.rr, draws);
    hide Order, KeyMatches, KeyScore, Width;
    forall id | id in ids ensures id in p.st.buckets && id in q.st.buckets {
      var i :| 0 <= i < |ids| && ids[i] == id;
      assert ordered[i].id == id && ordered[i] in multiset(ordered);
      assert ordered[i] in p.viable;
      var k :| 0 <= k < |p.viable| && p.viable[k] == ordered[i];
      assert q.picked[k] == id && Ids(p.viable)[k] == id;
    }
  }

  /** What follows the candidate loops, when the prefixes have the same length. */
  lemma FinishMatches(p: Scan, q: GoScan, concurrency: int, t: real, t2: real, env: Env, draws: seq<real>)
    requires |draws| >= |q.picked| > 0 && Scanned(p, q, env, t) && t <= t2
    requires WideEnough(q.st.active, concurrency, |q.picked|)
    ensures var k, go := KernelRest(p, concurrency, t2, draws), GoRest(q, concurrency, t, t2, env, draws);
            go.1 == k.1 && Match(k.0, go.0, env, t2)
  {
    var order := GoOrder(q.st, q.picked, t, env, draws);
    TakenIsPrefix(p, q, concurrency, t, env, draws);
    WidthsAgreeIff(q.st.active, concurrency, |q.picked|);
    TakenHaveBuckets(p, q, concurrency, env, t, draws);
    OrderKeepsMatch(p.st, q.st, q.picked, t, env, draws);
    OrderLength(q.st, q.picked, t, env, draws);
    hide Match, GoOrder, Taken, Items, KeyMatches, Spend, WideEnough;
    MatchLater(p.st.(rr := NextPointer(p.st)), order.0, env, t, t2);
    SpendKeepsMatch(p.st.(rr := NextPointer(p.st)), order.0, Taken(p, concurrency, draws), env, t2);
  }

  /** Otherwise the prefixes differ. */
  lemma NarrowDiffers(p: Scan, q: GoScan, concurrency: int, t: real, t2: real, env: Env, draws: seq<real>)
    requires |draws| >= |q.picked| > 0 && InStep(p, q, env, t)
    requires !WideEnough(q.st.active, concurrency, |q.picked|)
    ensures GoRest(q, concurrency, t, t2, env, draws).1 != KernelRest(p, concurrency, t2, draws).1
  {
    TakenIsPrefix(p, q, concurrency, t, env, draws);
    WidthsAgreeIff(q.st.active, concurrency, |q.picked|);
    hide GoOrder, Taken, Spend, InStep;
  }

  /** The degrade path refines the kernel, exactly when the effective concurrency is wide enough: from
      matching states both hand out the same keys in the same order if and only if it covers the
      fan-out, or the keys there are; and then they end in matching states. */
  lemma DegradePathRefinesKernel(
      s: State, g: GoState, concurrency: int, clock: Clock, t2: real, env: Env, draws: seq<real>)
    requires |draws| >= |g.rows| && DistinctRows(g.rows) && Match(s, g, env, clock.t) && clock.t <= t2
    ensures var k := Reserve(s, ReserveReq(concurrency, Offers(g.rows, |g.rows|, env, clock.now)), clock, t2, draws,
      env.span);
            var go := GoReserve(g, concurrency, clock, t2, env, draws);
            var wide := WideEnough(g.active, concurrency, |GoSelect(g, clock, env, draws).1|);
            && (go.1 == k.1.reserved <==> wide)
            && (wide ==> Match(k.0, go.0, env, t2))
            && Evolved(g.rows, go.0.rows, |g.rows|)
  {
    var p := ScanAll(s, Offers(g.rows, |g.rows|, env, clock.now), clock, env.span);
    var q := GoScanTo(g, |g.rows|, clock, env);
    LoopsScan(s, g, clock, env);
    RestsAre(s, g, concurrency, clock, t2, env, draws);
    assert |p.viable| == |q.picked| && Match(p.st, q.st, env, clock.t) by {
      hide Match;
    }
    hide ScanAll, GoScanTo, Offers, Match, Reserve, GoReserve, GoSelect, KernelRest, GoOrder, Evolved, Scanned, InStep;
    if q.picked == [] {
      MatchLater(p.st, q.st, env, clock.t, t2);
    } else {
      OrderLength(q.st, q.picked, clock.t, env, draws);
      if WideEnough(g.active, concurrency, |q.picked|) {
        FinishMatches(p, q, concurrency, clock.t, t2, env, draws);
      } else {
        assert InStep(p, q, env, clock.t) by {
          ScannedInStep(p, q, env, clock.t);
        }
        NarrowDiffers(p, q, concurrency, clock.t, t2, env, draws);
      }
    }
  }

  lemma ScannedInStep(p: Scan, q: GoScan, env: Env, t: real)
    requires Scanned(p, q, env, t)
    ensures InStep(p, q, env, t)
  {
    hide InStep;
  }

  /** Such a case: two fresh keys, a fan-out of two and an effective concurrency of one. From matching
      states the kernel hands out two keys and Go one. */
  lemma FanoutBeyondConcurrency(clock: Clock, draws: seq<real>)
    requires |draws| >= 2
    ensures var env, active := Env(40, 120.0, map[], map[]), Strategy(LeastInflight, 2, 1.0);
            var rows := [Row(1, true, 0, DEFAULT_BREAKER), Row(2, true, 0, DEFAULT_BREAKER)];
            var s, g := State(map[], map[], map[], map[], 0, active), GoState(rows, map[], map[], map[], 0, active);
            var k := Reserve(s, ReserveReq(1, Offers(rows, 2, env, clock.now)), clock, clock.t, draws, env.span);
            var go := GoReserve(g, 1, clock, clock.t, env, draws);
            Match(s, g, env, clock.t) && |k.1.reserved| == 2 && |go.1| == 1
  {
    var env, active := Env(40, 120.0, map[], map[]), Strategy(LeastInflight, 2, 1.0);
    var rows := [Row(1, true, 0, DEFAULT_BREAKER), Row(2, true, 0, DEFAULT_BREAKER)];
    var s, g := State(map[], map[], map[], map[], 0, active), GoState(rows, map[], map[], map[], 0, active);
    FreshLater(40, clock.t, clock.t);
    assert Match(s, g, env, clock.t);
    BothPicked(g, rows, clock, env);
    LoopsScan(s, g, clock, env);
    RestsAre(s, g, 1, clock, clock.t, env, draws);
    hide ScanAll, GoScanTo, Offers, Match, Reserve, GoReserve, GoSelect, GoOrder, Evolved, Scanned, InStep, Taken,
      Spend;
    var p, q := ScanAll(s, Offers(rows, 2, env, clock.now), clock, env.span), GoScanTo(g, 2, clock, env);
    ScannedInStep(p, q, env, clock.t);
    TakenIsPrefix(p, q, 1, clock.t, env, draws);
    PickedAreViable(p, q, env, clock.t);
  }

  lemma PickedAreViable(p: Scan, q: GoScan, env: Env, t: real)
    requires InStep(p, q, env, t)
    ensures |p.viable| == |q.picked|
  {
    hide Match, KeyScore;
  }

  lemma BothPicked(g: GoState, rows: seq<Row>, clock: Clock, env: Env)
    requires g == GoState(rows, map[], map[], map[], 0, Strategy(LeastInflight, 2, 1.0)) && env.defaultRPM == 40
    requires rows == [Row(1, true, 0, DEFAULT_BREAKER), Row(2, true, 0, DEFAULT_BREAKER)]
    ensures GoScanTo(g, 2, clock, env).picked == [1, 2]
  {
    FreshLater(40, clock.t, clock.t);
    assert GoScanTo(g, 0, clock, env) == GoScan(g, [], 1);
    assert GoScanTo(g, 1, clock, env).picked == [1];
  }

  /** Boosts and in-flight counts may change between requests. */
  function Loaded(env: Env, boost: map<int, real>, inflight: map<int, int>): Env {
    env.(boost := boost, inflight := inflight)
  }

  lemma MatchIgnoresLoad(s: State, g: GoState, env: Env, boost: map<int, real>, inflight: map<int, int>, t: real)
    ensures Match(s, g, Loaded(env, boost, inflight), t) <==> Match(s, g, env, t)
  {
    hide HW.Evict, BreakerMatches, SameLevel;
    var loaded := Loaded(env, boost, inflight);
    forall i | 0 <= i < |g.rows|
      ensures KeyMatches(s, g, g.rows[i], loaded, t) <==> KeyMatches(s, g, g.rows[i], env, t)
    {
    }
  }

  /** After a selection each selected key has an enabled row that is not open, and a bucket on both
      sides. */
  lemma SelectedAreReady(
      s: State, g: GoState, concurrency: int, clock: Clock, t2: real, env: Env, draws: seq<real>, id: int)
    requires |draws| >= |g.rows| && DistinctRows(g.rows) && Match(s, g, env, clock.t)
    requires id in GoSelect(g, clock, env, draws).1
    ensures var k := Reserve(s, ReserveReq(concurrency, Offers(g.rows, |g.rows|, env, clock.now)), clock, t2, draws,
      env.span);
            var go := GoReserve(g, concurrency, clock, t2, env, draws);
            |go.0.rows| == |g.rows| && Earlier(go.0.rows, |g.rows|, id) && id in k.0.buckets && id in go.0.buckets
  {
    var p := ScanAll(s, Offers(g.rows, |g.rows|, env, clock.now), clock, env.span);
    var q := GoScanTo(g, |g.rows|, clock, env);
    LoopsScan(s, g, clock, env);
    RestsAre(s, g, concurrency, clock, t2, env, draws);
    hide ScanAll, GoScanTo, Offers, Reserve, GoReserve, GoSelect, GoOrder, InStep, Match, KernelRest, GoRest, Evolved,
      DistinctRows;
    ScannedInStep(p, q, env, clock.t);
    PickedAreViable(p, q, env, clock.t);
    OrderMembers(q.st, q.picked, clock.t, env, draws, id);
    PickedInViable(p, q, env, clock.t, id);
    RestsKeepBuckets(p, q, concurrency, clock.t, t2, env, draws, id);
  }

  lemma RestsKeepBuckets(p: Scan, q: GoScan, concurrency: int, t: real, t2: real, env: Env, draws: seq<real>, id: int)
    requires |draws| >= |p.viable| && |draws| >= |q.picked| && id in p.st.buckets && id in q.st.buckets
    ensures id in KernelRest(p, concurrency, t2, draws).0.buckets
    ensures var go := GoRest(q, concurrency, t, t2, env, draws).0;
            id in go.buckets && go.rows == q.st.rows
  {
    OrderLength(q.st, q.picked, t, env, draws);
    SpendDomain(p.st.buckets, Taken(p, concurrency, draws), t2, id);
    var order := GoOrder(q.st, q.picked, t, env, draws).1;
    SpendDomain(q.st.buckets, order[..Max(0, GoWidth(q.st.active, concurrency, |order|))], t2, id);
    hide Taken, GoOrder, Spend;
  }

  lemma PickedInViable(p: Scan, q: GoScan, env: Env, t: real, id: int)
    requires Scanned(p, q, env, t) && id in q.picked
    ensures id in p.st.buckets && id in q.st.buckets
  {
    hide Match, KeyScore;
    var k :| 0 <= k < |q.picked| && q.picked[k] == id;
    assert Ids(p.viable)[k] == id;
  }

  lemma OrderMembers(g: GoState, ids: seq<int>, t: real, env: Env, draws: seq<real>, id: int)
    requires |draws| >= |ids|
    ensures id in GoOrder(g, ids, t, env, draws).1 ==> id in ids
  {
    var items := Items(g, ids, t, env);
    var ordered := Order(g.active.selection, items, g.rr, draws);
    OrdersAgree(g, ids, t, env, draws);
    OrderIsPermutation(g.active.selection, items, g.rr, draws);
    hide Order, KeyScore, GoOrder;
    if id in Ids(ordered) {
      var i :| 0 <= i < |ordered| && Ids(ordered)[i] == id;
      assert ordered[i] in multiset(ordered);
      assert ordered[i] in items;
      var k :| 0 <= k < |items| && items[k] == ordered[i];
      assert ids[k] == id;
    }
  }

  lemma {:induction false} SpendDomain(buckets: map<int, TB.Bucket>, ids: seq<int>, t: real, id: int)
    ensures id in Spend(buckets, ids, t) <==> id in buckets
  {
    if ids != [] {
      hide TB.Take;
      SpendDomain(buckets, ids[..|ids| - 1], t, id);
    }
  }
}
