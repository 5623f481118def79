/** What one `/reserve` hands out and spends. */
module KernelAccounting {
  import opened Backoff
  import opened Options
  import TB = TokenBuckets
  import HW = HealthWindows
  import opened Selection
  import opened Kernel
  import opened KernelSafety

  // ---- The candidate loop -----------------------------------------------------

  ghost predicate DistinctIds(cands: seq<Candidate>) {
    forall i, j :: 0 <= i < j < |cands| ==> cands[i].id != cands[j].id
  }

  /** The bucket as the candidate loop finds it. */
  function Found(s: State, c: Candidate, t: real): TB.Bucket {
    BucketOf(s.buckets, c.id, c.rpm, t)
  }

  /** A key that got into the viable list: not open, admitted, its bucket refilled but not spent. */
  predicate Entered(st: State, s: State, c: Candidate, t: real) {
    && BreakerOf(st.brk, c.id).status != Open
    && TB.Admits(Found(s, c, t), t, s.active.headroom)
    && c.id in st.buckets && st.buckets[c.id] == TB.Refill(Found(s, c, t), t)
  }

  predicate AboveFloor(tokens: real, capacity: real, headroom: real) {
    tokens >= capacity * (1.0 - headroom)
  }

  predicate HalfOpenNow(s: State, id: int) {
    BreakerOf(s.brk, id).status == HalfOpen
  }

  predicate Appended(after: seq<Viable>, before: seq<Viable>, id: int) {
    |after| == |before| + 1 && after[..|before|] == before && after[|before|].id == id
  }

  lemma ConsiderCases(p: Scan, c: Candidate, clock: Clock, span: real)
    ensures var q := Consider(p, c, clock, span);
            && q.probes <= p.probes
            && (q.st.buckets == p.st.buckets
              || q.st.buckets == p.st.buckets[c.id := TB.Refill(Found(p.st, c, clock.t), clock.t)])
            && (q.viable == p.viable ||
                (Appended(q.viable, p.viable, c.id) && Entered(q.st, p.st, c, clock.t)
                 && (HalfOpenNow(q.st, c.id) ==> p.probes > 0 && q.probes == p.probes - 1)))
  {
    hide TB.Refill, TB.Admits, TB.Fresh, HW.Evict, HW.Rate, WeightedScore, Promote;
    var p1 := Advance(p, c.id, clock.now);
    var kb := p1.st.brk[c.id];
    AdmitCases(p1, c, kb.fails, clock.t, span);
    AdmitCases(p1.(probes := p.probes - 1), c, kb.fails, clock.t, span);
    hide Admit;
  }

  lemma AdmitCases(p: Scan, c: Candidate, fails: nat, t: real, span: real)
    ensures var q := Admit(p, c, fails, t, span);
            && q.probes == p.probes && q.st.brk == p.st.brk && q.st.active == p.st.active
            && q.st.buckets == p.st.buckets[c.id := TB.Refill(Found(p.st, c, t), t)]
            && (q.viable == p.viable ||
                (TB.Admits(Found(p.st, c, t), t, p.st.active.headroom) && Appended(q.viable, p.viable, c.id)))
  {
    hide TB.Refill, TB.Admits, TB.Fresh, HW.Evict, HW.Rate, WeightedScore;
  }

  lemma {:induction false} OthersUntouched(s: State, cands: seq<Candidate>, clock: Clock, span: real, id: int)
    requires !Names(cands, id)
    ensures var b := ScanAll(s, cands, clock, span).st.buckets;
            (id in b <==> id in s.buckets) && (id in b ==> b[id] == s.buckets[id])
  {
    if cands != [] {
      NamesLast(cands, id);
      OthersUntouched(s, cands[..|cands| - 1], clock, span, id);
      ConsiderCases(ScanAll(s, cands[..|cands| - 1], clock, span), cands[|cands| - 1], clock, span);
      hide Consider;
    }
  }

  predicate Unspent(st: State, s: State, id: int, t: real)
    requires id in s.buckets
  {
    id in st.buckets && (st.buckets[id] == s.buckets[id] || st.buckets[id] == TB.Refill(s.buckets[id], t))
  }

  /** Nothing but refills happens to a bucket in the loop. */
  lemma {:induction false} OnlyRefilled(s: State, cands: seq<Candidate>, clock: Clock, span: real, id: int)
    requires DistinctIds(cands) && id in s.buckets
    ensures Unspent(ScanAll(s, cands, clock, span).st, s, id, clock.t)
  {
    if cands != [] {
      var n := |cands| - 1;
      var pre, c := cands[..n], cands[n];
      OnlyRefilled(s, pre, clock, span, id);
      if c.id == id {
        assert !Names(pre, id);
        OthersUntouched(s, pre, clock, span, id);
      }
      ConsiderCases(ScanAll(s, pre, clock, span), c, clock, span);
      hide Consider, TB.Refill;
    }
  }

  lemma {:induction false} ViableEntry(
      s: State, cands: seq<Candidate>, clock: Clock, span: real, k: nat) returns (m: nat)
    requires DistinctIds(cands) && k < |ScanAll(s, cands, clock, span).viable|
    ensures m < |cands| && cands[m].id == ScanAll(s, cands, clock, span).viable[k].id
    ensures Entered(ScanAll(s, cands, clock, span).st, s, cands[m], clock.t)
  {
    var n := |cands| - 1;
    var pre, c := cands[..n], cands[n];
    var p, q := ScanAll(s, pre, clock, span), ScanAll(s, cands, clock, span);
    assert q == Consider(p, c, clock, span);
    ConsiderCases(p, c, clock, span);
    ScanCell(s, pre, clock, span, c.id);
    hide Consider, TB.Refill, TB.Admits;
    if k < |p.viable| {
      m := ViableEntry(s, pre, clock, span, k);
      ConsiderCell(p, c, clock, span, cands[m].id);
      assert pre[m] == cands[m] && cands[m].id != c.id;
    } else {
      m := n;
      assert !Names(pre, c.id);
      OthersUntouched(s, pre, clock, span, c.id);
    }
  }

  lemma {:induction false} ViableDistinct(s: State, cands: seq<Candidate>, clock: Clock, span: real, i: nat, j: nat)
    requires DistinctIds(cands) && i < j < |ScanAll(s, cands, clock, span).viable|
    ensures ScanAll(s, cands, clock, span).viable[i].id != ScanAll(s, cands, clock, span).viable[j].id
  {
    var n := |cands| - 1;
    var pre, c := cands[..n], cands[n];
    var p := ScanAll(s, pre, clock, span);
    ConsiderCases(p, c, clock, span);
    hide Consider, Entered;
    if j < |p.viable| {
      ViableDistinct(s, pre, clock, span, i, j);
    } else {
      var m := ViableEntry(s, pre, clock, span, i);
      assert pre[m] == cands[m] && cands[m].id != c.id;
    }
  }

  /** One half-open probe per reserve, even if several breakers have just been promoted. */
  lemma {:induction false} OneProbe(s: State, cands: seq<Candidate>, clock: Clock, span: real)
    requires DistinctIds(cands)
    ensures var p := ScanAll(s, cands, clock, span);
            && p.probes <= 1
            && (forall i :: 0 <= i < |p.viable| && HalfOpenNow(p.st, p.viable[i].id) ==> p.probes <= 0)
            && (forall i, j :: 0 <= i < j < |p.viable| ==>
              !HalfOpenNow(p.st, p.viable[i].id) || !HalfOpenNow(p.st, p.viable[j].id))
  {
    if cands != [] {
      var n := |cands| - 1;
      var pre, c := cands[..n], cands[n];
      var p, q := ScanAll(s, pre, clock, span), ScanAll(s, cands, clock, span);
      OneProbe(s, pre, clock, span);
      assert q == Consider(p, c, clock, span);
      ConsiderCases(p, c, clock, span);
      forall i | 0 <= i < |p.viable|
        ensures q.viable[i] == p.viable[i] && HalfOpenNow(q.st, p.viable[i].id) == HalfOpenNow(p.st, p.viable[i].id)
      {
        var m := ViableEntry(s, pre, clock, span, i);
        assert pre[m] == cands[m] && cands[m].id != c.id;
        ConsiderCell(p, c, clock, span, p.viable[i].id);
      }
      hide Consider, Entered, ScanAll;
    }
  }

  // ---- Which candidates can be served -----------------------------------------

  predicate Cooling(b: Breaker, now: int) {
    b.status == Open && b.until > now
  }

  /** Half-open, or open with a deadline that has passed. */
  predicate Probing(b: Breaker, now: int) {
    b.status == HalfOpen || (b.status == Open && b.until <= now)
  }

  /** A token can be taken without going below the share of the capacity the strategy keeps back. */
  predicate HasRoom(b: TB.Bucket, t: real, headroom: real) {
    TB.CanTake(b, t, 1) && AboveFloor(TB.Take(b, t, 1).tokens, b.capacity, headroom)
  }

  /** Candidate `m` can be served: not cooling, not a second probe, and with a token to spend. A candidate
      that is probing uses up the probe whether or not it has one. */
  predicate Servable(s: State, cands: seq<Candidate>, m: nat, clock: Clock)
    requires m < |cands|
  {
    var b := BreakerOf(s.brk, cands[m].id);
    && !Cooling(b, clock.now)
    && (Probing(b, clock.now) ==> !ProbingBefore(s, cands, m, clock.now))
    && HasRoom(Found(s, cands[m], clock.t), clock.t, s.active.headroom)
  }

  predicate ProbingBefore(s: State, cands: seq<Candidate>, m: nat, now: int)
    requires m <= |cands|
  {
    exists j :: 0 <= j < m && Probing(BreakerOf(s.brk, cands[j].id), now)
  }

  /** The candidates that can be served, in the order they are offered. */
  function Servables(s: State, cands: seq<Candidate>, clock: Clock): (ids: seq<int>)
    ensures |ids| <= |cands|
  {
    if cands == [] then []
    else
      var n := |cands| - 1;
      Servables(s, cands[..n], clock) + if Servable(s, cands, n, clock) then [cands[n].id] else []
  }

  lemma {:induction false} ServablesAre(s: State, cands: seq<Candidate>, clock: Clock)
    requires DistinctIds(cands)
    ensures forall m: nat :: m < |cands| ==>
              (cands[m].id in Servables(s, cands, clock) <==> Servable(s, cands, m, clock))
    ensures forall id :: id in Servables(s, cands, clock) ==> Names(cands, id)
  {
    if cands != [] {
      var n := |cands| - 1;
      var pre := cands[..n];
      ServablesAre(s, pre, clock);
      forall m: nat | m < n ensures Servable(s, pre, m, clock) <==> Servable(s, cands, m, clock) {
        assert pre[m] == cands[m];
        assert ProbingBefore(s, pre, m, clock.now) <==> ProbingBefore(s, cands, m, clock.now);
      }
      hide Servable;
      forall id ensures Names(cands, id) <==> cands[n].id == id || Names(pre, id) {
        NamesLast(cands, id);
      }
      assert !Names(pre, cands[n].id);
      forall m: nat | m < n ensures cands[m].id in Servables(s, cands, clock) <==> Servable(s, cands, m, clock) {
        assert pre[m] == cands[m] && cands[m].id != cands[n].id;
      }
    }
  }

  /** One candidate: when it is added, and when it uses up the probe. */
  lemma ConsiderExactly(p: Scan, c: Candidate, clock: Clock, span: real)
    ensures var q, b := Consider(p, c, clock, span), BreakerOf(p.st.brk, c.id);
            && q.probes == (if Probing(b, clock.now) && p.probes > 0 then p.probes - 1 else p.probes)
            && Ids(q.viable) == Ids(p.viable) +
              if !Cooling(b, clock.now) && (Probing(b, clock.now) ==> p.probes > 0)
                 && TB.Admits(Found(p.st, c, clock.t), clock.t, p.st.active.headroom)
              then [c.id] else []
  {
    hide TB.Refill, TB.Admits, TB.Fresh, HW.Evict, HW.Rate, WeightedScore;
    var p1 := Advance(p, c.id, clock.now);
    var kb := p1.st.brk[c.id];
    AdmitExactly(p1, c, kb.fails, clock.t, span);
    AdmitExactly(p1.(probes := p.probes - 1), c, kb.fails, clock.t, span);
    hide Admit;
  }

  lemma AdmitExactly(p: Scan, c: Candidate, fails: nat, t: real, span: real)
    ensures var q := Admit(p, c, fails, t, span);
            && q.probes == p.probes
            && Ids(q.viable) == Ids(p.viable) +
              if TB.Admits(Found(p.st, c, t), t, p.st.active.headroom) then [c.id] else []
  {
    hide TB.Refill, TB.Admits, TB.Fresh, HW.Evict, HW.Rate, WeightedScore;
  }

  lemma RoomIff(b: TB.Bucket, t: real, headroom: real)
    requires TB.Valid(b) && headroom <= 1.0
    ensures TB.Admits(b, t, headroom) <==> HasRoom(b, t, headroom)
  {
    TB.AdmitsIff(b, t, headroom);
    hide TB.Admits, TB.CanTake, TB.Take;
  }

  /** The candidate loop is complete: it admits exactly the candidates that can be served, in order. */
  lemma {:induction false} ViableExactly(s: State, cands: seq<Candidate>, clock: Clock, span: real)
    requires DistinctIds(cands) && BucketsReady(s, clock.t) && s.active.headroom <= 1.0
    ensures var p := ScanAll(s, cands, clock, span);
            && Ids(p.viable) == Servables(s, cands, clock)
            && p.probes == if ProbingBefore(s, cands, |cands|, clock.now) then 0 else 1
  {
    if cands != [] {
      var n := |cands| - 1;
      var pre, c := cands[..n], cands[n];
      var p := ScanAll(s, pre, clock, span);
      ViableExactly(s, pre, clock, span);
      ConsiderExactly(p, c, clock, span);
      UntouchedYet(s, cands, clock, span);
      RoomIff(Found(s, c, clock.t), clock.t, s.active.headroom);
      ProbingStep(s, cands, clock.now);
      hide Consider, TB.Admits, HasRoom, Found, ProbingBefore, BucketsReady;
    }
  }

  /** The candidates before it leave the last one's breaker and bucket as they were. */
  lemma UntouchedYet(s: State, cands: seq<Candidate>, clock: Clock, span: real)
    requires cands != [] && DistinctIds(cands) && BucketsReady(s, clock.t)
    ensures var n := |cands| - 1;
            var st, c := ScanAll(s, cands[..n], clock, span).st, cands[n];
            && BreakerOf(st.brk, c.id) == BreakerOf(s.brk, c.id) && st.active == s.active
            && Found(st, c, clock.t) == Found(s, c, clock.t) && TB.Valid(Found(s, c, clock.t))
  {
    var n := |cands| - 1;
    var pre, c := cands[..n], cands[n];
    ScanCell(s, pre, clock, span, c.id);
    assert !Names(pre, c.id);
    OthersUntouched(s, pre, clock, span, c.id);
  }

  lemma ProbingStep(s: State, cands: seq<Candidate>, now: int)
    requires cands != []
    ensures var n := |cands| - 1;
            && (ProbingBefore(s, cands[..n], n, now) <==> ProbingBefore(s, cands, n, now))
            && (ProbingBefore(s, cands, |cands|, now)
                <==> ProbingBefore(s, cands, n, now) || Probing(BreakerOf(s.brk, cands[n].id), now))
  {
  }

  // ---- Spending ---------------------------------------------------------------

  ghost predicate Distinct(ids: seq<int>) {
    forall i, j :: 0 <= i < j < |ids| ==> ids[i] != ids[j]
  }

  lemma {:induction false} SpendsOnceEach(buckets: map<int, TB.Bucket>, ids: seq<int>, t: real, id: int)
    requires Distinct(ids)
    ensures var m := Spend(buckets, ids, t);
            && (id in m <==> id in buckets)
            && (id in m ==> m[id] == if id in ids then TB.Take(buckets[id], t, 1) else buckets[id])
  {
    if ids != [] {
      hide TB.Take;
      var n := |ids| - 1;
      SpendsOnceEach(buckets, ids[..n], t, id);
      assert ids == ids[..n] + [ids[n]];
    }
  }

  lemma {:induction false} CountDistinct(items: seq<Viable>, v: Viable)
    requires forall i, j :: 0 <= i < j < |items| ==> items[i].id != items[j].id
    ensures multiset(items)[v] <= 1
  {
    if items != [] {
      var n := |items| - 1;
      CountDistinct(items[..n], v);
      assert items == items[..n] + [items[n]];
      if items[n] == v {
        assert v !in items[..n];
      }
    }
  }

  /** Reordering keeps the keys distinct. */
  lemma PermutedDistinct(a: seq<Viable>, b: seq<Viable>, i: nat, j: nat)
    requires multiset(a) == multiset(b) && i < j < |b|
    requires forall x, y :: 0 <= x < y < |a| ==> a[x].id != a[y].id
    ensures b[i].id != b[j].id
  {
    CountDistinct(a, b[i]);
    assert b[i] in multiset(b) && b[j] in multiset(b);
    assert b[i] in a && b[j] in a;
    assert b == b[..j] + [b[j]] + b[j + 1..];
    assert b[i] in b[..j];
  }

  /** A reserved key: not open, admitted, and its bucket has lost exactly the one token that was
      there to be taken, without going below the floor the strategy keeps in reserve. */
  predicate SpentOne(st: State, s: State, c: Candidate, t1: real, t2: real) {
    var b := Found(s, c, t1);
    && BreakerOf(st.brk, c.id).status != Open
    && TB.CanTake(TB.Refill(b, t1), t2, 1)
    && c.id in st.buckets
    && st.buckets[c.id] == TB.Refill(b, t2).(tokens := TB.Refill(b, t2).tokens - 1.0)
    && AboveFloor(st.buckets[c.id].tokens, b.capacity, s.active.headroom)
  }

  ghost predicate BucketsReady(s: State, t: real) {
    forall id :: id in s.buckets ==> TB.Valid(s.buckets[id]) && s.buckets[id].last <= t
  }

  /** The reserved keys are, position by position, distinct viable keys. */
  lemma ReservedPositions(p: Scan, concurrency: int, draws: seq<real>)
    requires |draws| >= |p.viable|
    requires forall i, j :: 0 <= i < j < |p.viable| ==> p.viable[i].id != p.viable[j].id
    ensures var ids := Taken(p, concurrency, draws);
            && |ids| == Min(Width(p.st.active, concurrency), |p.viable|) && Distinct(ids)
            && forall i :: 0 <= i < |ids| ==> exists k :: 0 <= k < |p.viable| && p.viable[k].id == ids[i]
  {
    var ordered := Order(p.st.active.selection, p.viable, p.st.rr, draws);
    OrderIsPermutation(p.st.active.selection, p.viable, p.st.rr, draws);
    var ids := Taken(p, concurrency, draws);
    hide Order;
    forall i | 0 <= i < |ids| ensures exists k :: 0 <= k < |p.viable| && p.viable[k].id == ids[i] {
      assert ids[i] == ordered[i].id && ordered[i] in multiset(ordered);
      assert ordered[i] in p.viable;
    }
    forall i, j | 0 <= i < j < |ids| ensures ids[i] != ids[j] {
      PermutedDistinct(p.viable, ordered, i, j);
    }
  }

  /** Where a viable key stands in the order, and whether it is among the keys taken. */
  lemma PositionOf(p: Scan, concurrency: int, draws: seq<real>, a: nat) returns (i: nat)
    requires |draws| >= |p.viable| && a < |p.viable|
    requires forall x, y :: 0 <= x < y < |p.viable| ==> p.viable[x].id != p.viable[y].id
    ensures var ordered, ids := Order(p.st.active.selection, p.viable, p.st.rr, draws), Taken(p, concurrency, draws);
            i < |ordered| && ordered[i] == p.viable[a] && (i < |ids| <==> p.viable[a].id in ids)
  {
    var ordered, ids := Order(p.st.active.selection, p.viable, p.st.rr, draws), Taken(p, concurrency, draws);
    OrderIsPermutation(p.st.active.selection, p.viable, p.st.rr, draws);
    hide Order, Width;
    assert p.viable[a] in multiset(p.viable);
    assert p.viable[a] in ordered;
    i :| 0 <= i < |ordered| && ordered[i] == p.viable[a];
    assert forall k :: 0 <= k < |ids| ==> ids[k] == ordered[k].id;
    forall k | 0 <= k < |ids| && ids[k] == p.viable[a].id ensures k == i {
      if k < i {
        PermutedDistinct(p.viable, ordered, k, i);
      } else if i < k {
        PermutedDistinct(p.viable, ordered, i, k);
      }
    }
  }

  /** The order, exactly, of two viable keys `a` and `b`, `a` offered first, and what is handed out of it: the
      one that comes first is handed out first. Under strict priority `b` comes first iff its score is
      higher, under least in-flight iff its queue is shorter or, at the same length, its score higher; under
      round robin keys come in ascending order from where the pointer stands. */
  lemma ReservedInOrder(p: Scan, concurrency: int, draws: seq<real>, a: nat, b: nat) returns (i: nat, j: nat)
    requires |draws| >= |p.viable| && a < b < |p.viable| && DistinctItems(p.viable)
    ensures var ids := Taken(p, concurrency, draws);
            && i < |p.viable| && j < |p.viable| && i != j
            && (i < |ids| <==> p.viable[a].id in ids) && (i < |ids| ==> ids[i] == p.viable[a].id)
            && (j < |ids| <==> p.viable[b].id in ids) && (j < |ids| ==> ids[j] == p.viable[b].id)
    ensures p.st.active.selection == StrictPriority ==> (j < i <==> p.viable[b].score > p.viable[a].score)
    ensures p.st.active.selection == LeastInflight ==>
              (j < i <==> ShorterQueue(p.viable[b], p.viable[a]))
    ensures p.st.active.selection == RoundRobin ==>
              var n := |p.viable|;
              (Turned(j, p.st.rr, n) < Turned(i, p.st.rr, n) <==> p.viable[b].id < p.viable[a].id)
  {
    i := PositionOf(p, concurrency, draws, a);
    j := PositionOf(p, concurrency, draws, b);
    OrderIsPermutation(p.st.active.selection, p.viable, p.st.rr, draws);
    TakenIsPrefix(p, concurrency, draws);
    hide Taken, Turned, ShorterQueue;
    OrderedExactly(p.st.active.selection, p.viable, p.st.rr, draws, a, b, i, j);
  }

  predicate ShorterQueue(x: Viable, y: Viable) {
    x.inflight < y.inflight || (x.inflight == y.inflight && x.score > y.score)
  }

  lemma TakenIsPrefix(p: Scan, concurrency: int, draws: seq<real>)
    requires |draws| >= |p.viable|
    ensures var ids, ordered := Taken(p, concurrency, draws), Order(p.st.active.selection, p.viable, p.st.rr, draws);
            |ids| <= |ordered| && forall k :: 0 <= k < |ids| ==> ids[k] == ordered[k].id
  {
    OrderIsPermutation(p.st.active.selection, p.viable, p.st.rr, draws);
    hide Order, Width;
  }

  lemma OrderedExactly(
    algo: Algo, viable: seq<Viable>, rr: nat, draws: seq<real>, a: nat, b: nat, i: nat, j: nat)
    requires |draws| >= |viable| && a < b < |viable| && DistinctItems(viable) && i < |viable| && j < |viable|
    requires var ordered := Order(algo, viable, rr, draws);
             |ordered| == |viable| && ordered[i] == viable[a] && ordered[j] == viable[b]
    ensures algo == StrictPriority ==> (j < i <==> viable[b].score > viable[a].score)
    ensures algo == LeastInflight ==> (j < i <==> ShorterQueue(viable[b], viable[a]))
    ensures algo == RoundRobin ==>
              (Turned(j, rr, |viable|) < Turned(i, rr, |viable|) <==> viable[b].id < viable[a].id)
  {
    if algo != WeightedRandom {
      StableSortCorrect(algo, viable);
      SameLength(StableSort(algo, viable), viable);
      var n := |viable|;
      var x := if algo == RoundRobin then Turned(i, rr, n) else i;
      var y := if algo == RoundRobin then Turned(j, rr, n) else j;
      hide StableSort;
      SortedExactly(algo, viable, a, b, x, y);
    }
  }

  /** Position `i` counted from where the pointer stands, as a position in ascending order. */
  function Turned(i: nat, rr: nat, n: nat): (k: nat)
    requires i < n
    ensures k < n
  {
    if i < n - rr % n then i + rr % n else i + rr % n - n
  }

  lemma {:induction false} ViableScored(s: State, cands: seq<Candidate>, clock: Clock, span: real)
    ensures Scored(ScanAll(s, cands, clock, span).viable)
  {
    if cands != [] {
      var n := |cands| - 1;
      ViableScored(s, cands[..n], clock, span);
      hide TB.Refill, TB.Admits, TB.Fresh, HW.Evict, HW.Rate, WeightedScore, Promote;
    }
  }

  /** Under weighted random the i-th key handed out is the viable key, not handed out before, in whose
      interval the i-th draw lies: of the remaining weight, a share that is the key's score. */
  lemma ReservedByWeight(s: State, req: ReserveReq, clock: Clock, t2: real, draws: seq<real>, span: real)
    returns (positions: seq<nat>)
    requires |draws| >= |req.candidates| && s.active.selection == WeightedRandom
    requires UnitDraws(draws, |req.candidates|)
    ensures var viable := ScanAll(s, req.candidates, clock, span).viable;
            var ids := Reserve(s, req, clock, t2, draws, span).1.reserved;
            && |ids| <= |positions| == |viable| <= |draws|
            && (forall i :: 0 <= i < |positions| ==>
                  positions[i] < |viable| && Drawn(viable, positions[..i], positions[i], draws[i]))
            && (forall i, k: nat ::
                  0 <= i < |positions| && k < |viable| && Drawn(viable, positions[..i], k, draws[i]) ==>
                  k == positions[i])
            && forall i :: 0 <= i < |ids| ==> ids[i] == viable[positions[i]].id
  {
    var p := ScanAll(s, req.candidates, clock, span);
    ViableScored(s, req.candidates, clock, span);
    ScanCell(s, req.candidates, clock, span, 0);
    assert UnitDraws(draws, |p.viable|);
    positions := ShuffledExactly(p.viable, draws);
    hide ScanAll, Drawn, Spend;
    assert Order(p.st.active.selection, p.viable, p.st.rr, draws) == Shuffled(p.viable, draws);
    hide Shuffled;
  }

  /** Strict priority and least in-flight hand out the best keys: no key left behind has a higher
      score, or a shorter queue, than one handed out. */
  lemma BestAreTaken(p: Scan, concurrency: int, draws: seq<real>, a: nat, b: nat)
    requires |draws| >= |p.viable| && a < |p.viable| && b < |p.viable|
    requires forall i, j :: 0 <= i < j < |p.viable| ==> p.viable[i].id != p.viable[j].id
    requires p.viable[a].id in Taken(p, concurrency, draws) && p.viable[b].id !in Taken(p, concurrency, draws)
    ensures p.st.active.selection == StrictPriority ==> p.viable[a].score >= p.viable[b].score
    ensures p.st.active.selection == LeastInflight ==>
              p.viable[a].inflight < p.viable[b].inflight
              || (p.viable[a].inflight == p.viable[b].inflight && p.viable[a].score >= p.viable[b].score)
  {
    var i := PositionOf(p, concurrency, draws, a);
    var j := PositionOf(p, concurrency, draws, b);
    var algo := p.st.active.selection;
    if algo == StrictPriority || algo == LeastInflight {
      StableSortCorrect(algo, p.viable);
      hide StableSort, Taken;
      var ordered := Order(algo, p.viable, p.st.rr, draws);
      assert !Precedes(algo, ordered[j], ordered[i]);
    }
  }

  lemma ReserveShape(s: State, req: ReserveReq, clock: Clock, t2: real, draws: seq<real>, span: real)
    requires |draws| >= |req.candidates|
    requires var v := ScanAll(s, req.candidates, clock, span).viable; forall i, j :: 0 <= i < j < |v| ==>
      v[i].id != v[j].id
    ensures var p, out := ScanAll(s, req.candidates, clock, span), Reserve(s, req, clock, t2, draws, span);
            var ids := out.1.reserved;
            && out.0.buckets == Spend(p.st.buckets, ids, t2) && out.0.brk == p.st.brk
            && |ids| == Min(Width(s.active, req.concurrency), |p.viable|) && Distinct(ids)
            && forall i :: 0 <= i < |ids| ==> exists k :: 0 <= k < |p.viable| && p.viable[k].id == ids[i]
  {
    var p := ScanAll(s, req.candidates, clock, span);
    ScanCell(s, req.candidates, clock, span, 0);
    ReservedPositions(p, req.concurrency, draws);
    hide ScanAll, Taken;
  }

  /** How many keys the strategy lets one reserve hand out. */
  predicate AllowedWidth(n: int, active: Strategy, concurrency: int) {
    n == if active.fanout > 0 then active.fanout else if concurrency > 1 then concurrency else 1
  }

  /** The account of one reserve: as many keys as the strategy allows and can be served, each once, each
      charged one token, at most one of them half-open, and no other bucket charged. */
  ghost predicate Accounted(s: State, req: ReserveReq, clock: Clock, t2: real, out: (State, ReserveResp)) {
    var st, ids, can := out.0, out.1.reserved, Servables(s, req.candidates, clock);
    && (exists n :: AllowedWidth(n, s.active, req.concurrency) && |ids| == if n <= |can| then n else |can|)
    && Distinct(ids) && (forall i :: 0 <= i < |ids| ==> ids[i] in can)
    && (forall i :: 0 <= i < |ids| ==> Charged(st, s, req.candidates, ids[i], clock.t, t2))
    && (forall i, j :: 0 <= i < j < |ids| ==> !HalfOpenNow(st, ids[i]) || !HalfOpenNow(st, ids[j]))
    && (forall id :: id in s.buckets && id !in ids ==> Unspent(st, s, id, clock.t))
  }

  ghost predicate Charged(st: State, s: State, cands: seq<Candidate>, id: int, t1: real, t2: real) {
    exists m :: 0 <= m < |cands| && cands[m].id == id && SpentOne(st, s, cands[m], t1, t2)
  }

  /** Reserve accounting, for distinct candidates, ready buckets and a headroom in (0,1]. */
  lemma ReserveAccounting(s: State, req: ReserveReq, clock: Clock, t2: real, draws: seq<real>, span: real)
    requires DistinctIds(req.candidates) && |draws| >= |req.candidates|
    requires BucketsReady(s, clock.t) && clock.t <= t2 && 0.0 < s.active.headroom <= 1.0
    ensures Accounted(s, req, clock, t2, Reserve(s, req, clock, t2, draws, span))
  {
    var p := ScanAll(s, req.candidates, clock, span);
    var out := Reserve(s, req, clock, t2, draws, span);
    var ids := out.1.reserved;
    AllDistinct(s, req.candidates, clock, span);
    ReserveShape(s, req, clock, t2, draws, span);
    OneProbe(s, req.candidates, clock, span);
    ViableExactly(s, req.candidates, clock, span);
    assert AllowedWidth(Width(s.active, req.concurrency), s.active, req.concurrency);
    hide ScanAll, Reserve, Spend, Charged, Unspent, BucketsReady, HalfOpenNow, DistinctIds, Distinct, Width, Servables;
    hide AllowedWidth;
    forall i | 0 <= i < |ids| ensures ids[i] in Servables(s, req.candidates, clock) {
      var k :| 0 <= k < |p.viable| && p.viable[k].id == ids[i];
      assert Ids(p.viable)[k] == ids[i];
    }
    forall i | 0 <= i < |ids| ensures Charged(out.0, s, req.candidates, ids[i], clock.t, t2) {
      ReservedIsCharged(s, req, clock, t2, out.0, ids, span, i);
    }
    forall i, j | 0 <= i < j < |ids| ensures !HalfOpenNow(out.0, ids[i]) || !HalfOpenNow(out.0, ids[j]) {
      ReservedOneProbe(p, out.0, ids, i, j);
    }
    forall id | id in s.buckets && id !in ids ensures Unspent(out.0, s, id, clock.t) {
      OnlyRefilled(s, req.candidates, clock, span, id);
      hide *;
      SpendsOnceEach(p.st.buckets, ids, t2, id);
      SparedIsUnspent(p.st, out.0, s, id, clock.t);
    }
  }

  lemma AllDistinct(s: State, cands: seq<Candidate>, clock: Clock, span: real)
    requires DistinctIds(cands)
    ensures var v := ScanAll(s, cands, clock, span).viable;
            forall i, j :: 0 <= i < j < |v| ==> v[i].id != v[j].id
  {
    var v := ScanAll(s, cands, clock, span).viable;
    forall i, j | 0 <= i < j < |v| ensures v[i].id != v[j].id {
      ViableDistinct(s, cands, clock, span, i, j);
    }
  }

  lemma ReservedOneProbe(p: Scan, st: State, ids: seq<int>, i: nat, j: nat)
    requires st.brk == p.st.brk && i < j < |ids| && Distinct(ids)
    requires forall x :: 0 <= x < |ids| ==> exists k :: 0 <= k < |p.viable| && p.viable[k].id == ids[x]
    requires forall x, y :: 0 <= x < y < |p.viable| ==>
               !HalfOpenNow(p.st, p.viable[x].id) || !HalfOpenNow(p.st, p.viable[y].id)
    ensures !HalfOpenNow(st, ids[i]) || !HalfOpenNow(st, ids[j])
  {
    var x :| 0 <= x < |p.viable| && p.viable[x].id == ids[i];
    var y :| 0 <= y < |p.viable| && p.viable[y].id == ids[j];
    assert x != y;
  }

  lemma SparedIsUnspent(mid: State, st: State, s: State, id: int, t: real)
    requires id in s.buckets && Unspent(mid, s, id, t)
    requires id in st.buckets <==> id in mid.buckets
    requires id in st.buckets ==> st.buckets[id] == mid.buckets[id]
    ensures Unspent(st, s, id, t)
  {
  }

  lemma ReservedIsCharged(
    s: State, req: ReserveReq, clock: Clock, t2: real, st: State, ids: seq<int>, span: real, i: nat)
    requires DistinctIds(req.candidates) && BucketsReady(s, clock.t) && clock.t <= t2 && 0.0 < s.active.headroom <= 1.0
    requires var p := ScanAll(s, req.candidates, clock, span);
             && i < |ids| && Distinct(ids) && st.buckets == Spend(p.st.buckets, ids, t2) && st.brk == p.st.brk
             && exists k :: 0 <= k < |p.viable| && p.viable[k].id == ids[i]
    ensures Charged(st, s, req.candidates, ids[i], clock.t, t2)
  {
    var p := ScanAll(s, req.candidates, clock, span);
    hide ScanAll, Spend, SpentOne, Entered, TB.Refill, BucketsReady;
    var k :| 0 <= k < |p.viable| && p.viable[k].id == ids[i];
    var m := ViableEntry(s, req.candidates, clock, span, k);
    EnteredIsSpent(s, p.st, st, req.candidates[m], clock.t, t2, ids);
  }

  lemma AdmittedAboveFloor(b: TB.Bucket, t1: real, t2: real, headroom: real)
    requires TB.Valid(b) && b.last <= t1 <= t2 && 0.0 < headroom <= 1.0 && TB.Admits(b, t1, headroom)
    ensures var r := TB.Refill(b, t1);
            && TB.CanTake(r, t2, 1)
            && TB.Take(r, t2, 1) == TB.Refill(b, t2).(tokens := TB.Refill(b, t2).tokens - 1.0)
            && AboveFloor(TB.Take(r, t2, 1).tokens, b.capacity, headroom)
  {
    TB.AdmittedCanBeSpent(b, t1, t2, headroom);
    hide TB.Refill, TB.Take, TB.CanTake, TB.Admits;
  }

  lemma EnteredIsSpent(s: State, mid: State, st: State, c: Candidate, t1: real, t2: real, ids: seq<int>)
    requires Entered(mid, s, c, t1) && BucketsReady(s, t1) && t1 <= t2 && 0.0 < s.active.headroom <= 1.0
    requires Distinct(ids) && c.id in ids && st.buckets == Spend(mid.buckets, ids, t2) && st.brk == mid.brk
    ensures SpentOne(st, s, c, t1, t2)
  {
    SpendsOnceEach(mid.buckets, ids, t2, c.id);
    var b := Found(s, c, t1);
    assert TB.Valid(b) && b.last <= t1;
    hide Spend, TB.Refill, TB.Take, TB.CanTake, TB.Fresh, TB.Valid;
    AdmittedAboveFloor(b, t1, t2, s.active.headroom);
    hide AboveFloor, TB.Admits;
  }
}
