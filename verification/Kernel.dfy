/** The authoritative control plane of kernel-rs: `/reserve` (reserve.rs), `/report` (report.rs), the
    state they share (state.rs) and the persisted breaker table (store.rs). Every handler runs under
    all locks, so it is one atomic step. */
module Kernel {
  import opened Backoff
  import opened Options
  import TB = TokenBuckets
  import HW = HealthWindows
  import opened Selection

  datatype Status = Active | HalfOpen | Open

  datatype Breaker = Breaker(status: Status, fails: nat, until: int)

  const DEFAULT_BREAKER := Breaker(Active, 0, 0)

  datatype Strategy = Strategy(selection: Algo, fanout: int, headroom: real)

  datatype Candidate = Candidate(id: int, rpm: int, boost: real, inflight: int)

  datatype ReserveReq = ReserveReq(concurrency: int, candidates: seq<Candidate>)

  datatype Change = Change(id: int, breaker: Breaker)

  datatype ReserveResp = ReserveResp(reserved: seq<int>, changes: seq<Change>)

  datatype ReportItem = ReportItem(id: int, success: bool, remaining: Option<int>)

  /** Settings sent with every request and fixed for a run. */
  datatype Config = Config(threshold: int, base: int, span: real)

  datatype State = State(
    brk: map<int, Breaker>, buckets: map<int, TB.Bucket>, windows: map<int, seq<HW.Entry>>,
    store: map<int, Breaker>, rr: nat, active: Strategy)

  /** One reading of the two clocks: Unix seconds and the monotone clock. */
  datatype Clock = Clock(now: int, t: real)

  /** No entry means an active breaker, in memory as well as in the table. */
  function BreakerOf(m: map<int, Breaker>, id: int): Breaker {
    if id in m then m[id] else DEFAULT_BREAKER
  }

  function BucketOf(m: map<int, TB.Bucket>, id: int, rpm: int, t: real): TB.Bucket {
    if id in m then m[id] else TB.Fresh(rpm, t)
  }

  // ---- /reserve ---------------------------------------------------------------

  predicate Expired(b: Breaker, now: int) {
    b.status == Open && b.until <= now
  }

  function Promote(b: Breaker, now: int): Breaker {
    if Expired(b, now) then Breaker(HalfOpen, 0, 0) else b
  }

  /** What the candidate loop has built up so far. */
  datatype Scan = Scan(st: State, changes: seq<Change>, viable: seq<Viable>, probes: int)

  /** An expired breaker becomes half-open, in memory, in the table and in the change list. */
  function Advance(p: Scan, id: int, now: int): Scan {
    var before := BreakerOf(p.st.brk, id);
    var kb := Promote(before, now);
    if Expired(before, now) then
      p.(st := p.st.(brk := p.st.brk[id := kb], store := p.st.store[id := kb]),
         changes := p.changes + [Change(id, kb)])
    else p.(st := p.st.(brk := p.st.brk[id := kb]))
  }

  /** Peek at the bucket, and score the key if it has room. */
  function Admit(p: Scan, c: Candidate, fails: nat, t: real, span: real): Scan {
    var bucket := BucketOf(p.st.buckets, c.id, c.rpm, t);
    var st := p.st.(buckets := p.st.buckets[c.id := TB.Refill(bucket, t)]);
    if !TB.Admits(bucket, t, p.st.active.headroom) then p.(st := st)
    else
      var entries := HW.Evict(HW.WindowOf(st.windows, c.id), t - span);
      p.(st := st.(windows := st.windows[c.id := entries]),
         viable := p.viable + [Viable(c.id, WeightedScore(HW.Rate(entries), fails, c.boost), c.inflight)])
  }

  function Consider(p: Scan, c: Candidate, clock: Clock, span: real): Scan {
    var p1 := Advance(p, c.id, clock.now);
    var kb := p1.st.brk[c.id];
    if kb.status == Open || (kb.status == HalfOpen && p.probes <= 0) then p1
    else if kb.status == HalfOpen then Admit(p1.(probes := p.probes - 1), c, kb.fails, clock.t, span)
    else Admit(p1, c, kb.fails, clock.t, span)
  }

  function ScanAll(s: State, cands: seq<Candidate>, clock: Clock, span: real): (p: Scan)
    ensures |p.viable| <= |cands|
  {
    if cands == [] then Scan(s, [], [], 1)
    else Consider(ScanAll(s, cands[..|cands| - 1], clock, span), cands[|cands| - 1], clock, span)
  }

  /** The strategy's fan-out, when set, overrides the requested concurrency. */
  function Width(active: Strategy, concurrency: int): (n: nat)
    ensures n >= 1
  {
    if active.fanout > 0 then active.fanout else Max(concurrency, 1)
  }

  function Ids(items: seq<Viable>): (ids: seq<int>)
    ensures |ids| == |items| && forall i :: 0 <= i < |ids| ==> ids[i] == items[i].id
  {
    seq(|items|, i requires 0 <= i < |items| => items[i].id)
  }

  /** One token for each reserved key, in order. */
  function Spend(buckets: map<int, TB.Bucket>, ids: seq<int>, t: real): map<int, TB.Bucket> {
    if ids == [] then buckets
    else
      var m, id := Spend(buckets, ids[..|ids| - 1], t), ids[|ids| - 1];
      if id in m then m[id := TB.Take(m[id], t, 1)] else m
  }

  function Taken(p: Scan, concurrency: int, draws: seq<real>): (ids: seq<int>)
    requires |draws| >= |p.viable|
  {
    var ordered := Order(p.st.active.selection, p.viable, p.st.rr, draws);
    OrderIsPermutation(p.st.active.selection, p.viable, p.st.rr, draws);
    Ids(ordered[..Min(Width(p.st.active, concurrency), |p.viable|)])
  }

  /** `clock` is read for the candidate loop, `t2` when the reserved keys' tokens are consumed, and
      `draws` are the random numbers of the weighted shuffle. */
  function Reserve(
      s: State, req: ReserveReq, clock: Clock, t2: real, draws: seq<real>, span: real): (State, ReserveResp)
    requires |draws| >= |req.candidates|
  {
    var p := ScanAll(s, req.candidates, clock, span);
    if p.viable == [] then (p.st, ReserveResp([], p.changes))
    else
      var reserved := Taken(p, req.concurrency, draws);
      var rr := if p.st.active.selection == RoundRobin then p.st.rr + 1 else p.st.rr;
      (p.st.(buckets := Spend(p.st.buckets, reserved, t2), rr := rr), ReserveResp(reserved, p.changes))
  }

  // ---- /report ----------------------------------------------------------------

  /** A success zeroes the counter but closes only a half-open breaker; a failure opens the breaker,
      or extends its deadline, once the count has reached the threshold. */
  function Feedback(b: Breaker, success: bool, cfg: Config, now: int): Breaker {
    if success then
      if b.status == HalfOpen then Breaker(Active, 0, 0) else b.(fails := 0)
    else if b.fails + 1 >= cfg.threshold then
      Breaker(Open, b.fails + 1, now + Cooldown(cfg.base, b.fails + 1 - cfg.threshold))
    else b.(fails := b.fails + 1)
  }

  datatype Fed = Fed(st: State, changes: map<int, Breaker>)

  /** The window records the outcome; a remaining count sent by upstream tightens the bucket. */
  function Measure(s: State, r: ReportItem, span: real, t: real): State {
    s.(windows := s.windows[r.id := HW.Recorded(HW.WindowOf(s.windows, r.id), span, t, r.success)],
       buckets := match r.remaining
                  case None => s.buckets
                  case Some(rem) => s.buckets[r.id := TB.Calibrated(BucketOf(s.buckets, r.id, 500, t), t, rem)])
  }

  /** Only a change of status is persisted and reported. */
  function Feed(p: Fed, r: ReportItem, cfg: Config, clock: Clock): Fed {
    var st := Measure(p.st, r, cfg.span, clock.t);
    var before := BreakerOf(st.brk, r.id);
    var kb := Feedback(before, r.success, cfg, clock.now);
    var st1 := st.(brk := st.brk[r.id := kb]);
    if kb.status != before.status then Fed(st1.(store := st1.store[r.id := kb]), p.changes[r.id := kb])
    else Fed(st1, p.changes)
  }

  function FeedAll(s: State, items: seq<ReportItem>, cfg: Config, clock: Clock): Fed {
    if items == [] then Fed(s, map[])
    else Feed(FeedAll(s, items[..|items| - 1], cfg, clock), items[|items| - 1], cfg, clock)
  }

  ghost predicate Ascending(changes: seq<Change>) {
    forall i, j :: 0 <= i < j < |changes| ==> changes[i].id < changes[j].id
  }

  ghost predicate Faithful(changes: seq<Change>, m: map<int, Breaker>) {
    forall i :: 0 <= i < |changes| ==> changes[i].id in m && changes[i].breaker == m[changes[i].id]
  }

  /** The response: the changed breakers in ascending key order, each key once. */
  ghost predicate IsListing(changes: seq<Change>, m: map<int, Breaker>) {
    Ascending(changes) && Faithful(changes, m) && forall id :: id in m ==> Listed(changes, id)
  }

  // ---- The running kernel -----------------------------------------------------

  class Kernel {
    const span: real
    var brk: map<int, Breaker>
    var buckets: map<int, TB.Bucket>
    var windows: map<int, seq<HW.Entry>>
    var store: map<int, Breaker>
    var rr: nat
    var active: Strategy

    ghost function View(): State
      reads this
    {
      State(brk, buckets, windows, store, rr, active)
    }

    /** Start-up: `load_all` fills the breaker mirror, buckets and windows start empty. */
    constructor (store: map<int, Breaker>, active: Strategy, span: real)
      ensures View() == State(store, map[], map[], store, 0, active) && this.span == span
    {
      this.span, this.store, this.brk, this.active := span, store, store, active;
      buckets, windows, rr := map[], map[], 0;
    }

    method SelectByAlgo(viable: seq<Viable>, draws: seq<real>) returns (ordered: seq<Viable>)
      requires |draws| >= |viable| > 0
      modifies this`rr
      ensures ordered == Order(active.selection, viable, old(rr), draws)
      ensures rr == if active.selection == RoundRobin then old(rr) + 1 else old(rr)
    {
      match active.selection
      case WeightedRandom =>
        ordered := WeightedShuffle(viable, draws);
      case RoundRobin =>
        ordered := StableSort(RoundRobin, viable);
        OrderIsPermutation(LeastInflight, viable, rr, draws);
        StableSortCorrect(RoundRobin, viable);
        SameLength(ordered, viable);
        var rot := rr % |ordered|;
        if rot != 0 {
          ordered := Rotated(ordered, rot);
        }
        rr := rr + 1;
      case LeastInflight =>
        ordered := StableSort(LeastInflight, viable);
      case StrictPriority =>
        ordered := StableSort(StrictPriority, viable);
    }

    method ReserveInner(req: ReserveReq, clock: Clock, t2: real, draws: seq<real>) returns (resp: ReserveResp)
      requires |draws| >= |req.candidates|
      modifies this
      ensures (View(), resp) == Reserve(old(View()), req, clock, t2, draws, span)
    {
      hide Consider, Order, StableSort, Shuffled, Rotated, Spend;
      var changes: seq<Change>, viable: seq<Viable>, halfOpenAllowed := [], [], 1;
      var i := 0;
      while i < |req.candidates|
        invariant 0 <= i <= |req.candidates|
        invariant Scan(View(), changes, viable, halfOpenAllowed)
               == ScanAll(old(View()), req.candidates[..i], clock, span)
      {
        assert req.candidates[..i + 1][..i] == req.candidates[..i];
        changes, viable, halfOpenAllowed := Examine(req.candidates[i], clock, changes, viable, halfOpenAllowed);
        i := i + 1;
      }
      assert req.candidates[..i] == req.candidates;
      ghost var p := Scan(View(), changes, viable, halfOpenAllowed);
      if viable == [] {
        return ReserveResp([], changes);
      }
      OrderIsPermutation(active.selection, viable, rr, draws);
      var ordered := SelectByAlgo(viable, draws);
      var cap := if active.fanout > 0 then active.fanout else Max(req.concurrency, 1);
      var reserved := Ids(ordered[..Min(cap, |viable|)]);
      assert reserved == Taken(p, req.concurrency, draws);
      Consume(reserved, t2);
      resp := ReserveResp(reserved, changes);
    }

    /** One pass of the candidate loop; `return` is the source's `continue`. */
    method Examine(c: Candidate, clock: Clock, changes0: seq<Change>, viable0: seq<Viable>, allowed0: int)
      returns (changes: seq<Change>, viable: seq<Viable>, halfOpenAllowed: int)
      modifies this`brk, this`buckets, this`windows, this`store
      ensures Scan(View(), changes, viable, halfOpenAllowed)
           == Consider(Scan(old(View()), changes0, viable0, allowed0), c, clock, span)
    {
      hide Admit;
      changes, viable, halfOpenAllowed := changes0, viable0, allowed0;
      if c.id !in brk {
        brk := brk[c.id := DEFAULT_BREAKER];
      }
      var kb := brk[c.id];
      if kb.status == Open {
        if kb.until > clock.now {
          return;
        }
        kb := Breaker(HalfOpen, 0, 0);
        brk := brk[c.id := kb];
        store := store[c.id := kb];
        changes := changes + [Change(c.id, kb)];
      }
      ghost var p1 := Advance(Scan(old(View()), changes0, viable0, allowed0), c.id, clock.now);
      assert p1.st.brk == brk;
      assert p1 == Scan(View(), changes, viable0, allowed0);
      if kb.status == HalfOpen {
        if halfOpenAllowed <= 0 {
          return;
        }
        halfOpenAllowed := halfOpenAllowed - 1;
      }
      viable := PeekAndScore(c, kb.fails, clock.t, changes, viable, halfOpenAllowed);
    }

    method PeekAndScore(
        c: Candidate, fails: nat, t: real, ghost changes: seq<Change>, viable0: seq<Viable>, ghost allowed: int)
      returns (viable: seq<Viable>)
      modifies this`buckets, this`windows
      ensures Scan(View(), changes, viable, allowed)
           == Admit(Scan(old(View()), changes, viable0, allowed), c, fails, t, span)
    {
      hide TB.Refill, TB.Admits, TB.Fresh, HW.Evict, HW.Rate, WeightedScore;
      viable := viable0;
      if c.id !in buckets {
        buckets := buckets[c.id := TB.Fresh(c.rpm, t)];
      }
      var admitted := TB.Admits(buckets[c.id], t, active.headroom);
      buckets := buckets[c.id := TB.Refill(buckets[c.id], t)];
      assert buckets == old(buckets)[c.id := TB.Refill(BucketOf(old(buckets), c.id, c.rpm, t), t)];
      if !admitted {
        return;
      }
      if c.id !in windows {
        windows := windows[c.id := []];
      }
      windows := windows[c.id := HW.Evict(windows[c.id], t - span)];
      assert windows == old(windows)[c.id := HW.Evict(HW.WindowOf(old(windows), c.id), t - span)];
      viable := viable + [Viable(c.id, WeightedScore(HW.Rate(windows[c.id]), fails, c.boost), c.inflight)];
    }

    method Consume(reserved: seq<int>, t2: real)
      modifies this`buckets
      ensures buckets == Spend(old(buckets), reserved, t2)
    {
      var j := 0;
      while j < |reserved|
        invariant 0 <= j <= |reserved| && buckets == Spend(old(buckets), reserved[..j], t2)
      {
        assert reserved[..j + 1][..j] == reserved[..j];
        if reserved[j] in buckets {
          buckets := buckets[reserved[j] := TB.Take(buckets[reserved[j]], t2, 1)];
        }
        j := j + 1;
      }
      assert reserved[..j] == reserved;
    }

    method ReportInner(items: seq<ReportItem>, cfg: Config, clock: Clock) returns (changes: seq<Change>)
      requires cfg.span == span
      modifies this
      ensures View() == FeedAll(old(View()), items, cfg, clock).st
      ensures IsListing(changes, FeedAll(old(View()), items, cfg, clock).changes)
    {
      var changeMap: map<int, Breaker> := map[];
      var i := 0;
      while i < |items|
        invariant 0 <= i <= |items|
        invariant Fed(View(), changeMap) == FeedAll(old(View()), items[..i], cfg, clock)
      {
        assert items[..i + 1][..i] == items[..i];
        changeMap := Absorb(items[i], cfg, clock, changeMap);
        i := i + 1;
      }
      assert items[..i] == items;
      ChangesNameItems(old(View()), items, cfg, clock);
      changes := SortedChanges(changeMap, items);
    }

    /** One pass of the result loop. */
    method Absorb(r: ReportItem, cfg: Config, clock: Clock, changeMap0: map<int, Breaker>)
      returns (changeMap: map<int, Breaker>)
      requires cfg.span == span
      modifies this
      ensures Fed(View(), changeMap) == Feed(Fed(old(View()), changeMap0), r, cfg, clock)
    {
      hide Measure, Cooldown;
      changeMap := changeMap0;
      RecordAndCalibrate(r, clock.t);
      if r.id !in brk {
        brk := brk[r.id := DEFAULT_BREAKER];
      }
      var kb := brk[r.id];
      var beforeStatus := kb.status;
      if r.success {
        kb := kb.(fails := 0);
        if kb.status == HalfOpen {
          kb := kb.(status := Active, until := 0);
        }
      } else {
        kb := kb.(fails := kb.fails + 1);
        var shouldOpen, cooldown, _, _ := CircuitCheck(kb.fails, cfg.threshold, cfg.base);
        if shouldOpen {
          kb := kb.(status := Open, until := clock.now + cooldown);
        }
      }
      brk := brk[r.id := kb];
      assert kb == Feedback(BreakerOf(old(brk), r.id), r.success, cfg, clock.now);
      assert brk == old(brk)[r.id := kb];
      if kb.status != beforeStatus {
        store := store[r.id := kb];
        changeMap := changeMap[r.id := kb];
      }
    }

    method RecordAndCalibrate(r: ReportItem, t: real)
      modifies this`windows, this`buckets
      ensures View() == Measure(old(View()), r, span, t)
    {
      hide TB.Calibrated, TB.Fresh, HW.Recorded;
      if r.id !in windows {
        windows := windows[r.id := []];
      }
      windows := windows[r.id := HW.Recorded(windows[r.id], span, t, r.success)];
      assert windows == old(windows)[r.id := HW.Recorded(HW.WindowOf(old(windows), r.id), span, t, r.success)];
      if r.remaining.Some? {
        if r.id !in buckets {
          buckets := buckets[r.id := TB.Fresh(500, t)];
        }
        buckets := buckets[r.id := TB.Calibrated(buckets[r.id], t, r.remaining.value)];
        assert buckets == old(buckets)[r.id := TB.Calibrated(BucketOf(old(buckets), r.id, 500, t), t,
          r.remaining.value)];
      }
    }

    method SetStrategy(s: Strategy)
      modifies this`active
      ensures active == s
    {
      active := s;
    }
  }

  lemma {:induction false} ChangesNameItems(s: State, items: seq<ReportItem>, cfg: Config, clock: Clock)
    ensures forall id :: id in FeedAll(s, items, cfg, clock).changes ==> Reported(items, id)
  {
    if items != [] {
      ChangesNameItems(s, items[..|items| - 1], cfg, clock);
      hide Feedback, Measure;
      assert Reported(items, items[|items| - 1].id);
    }
  }

  predicate Reported(items: seq<ReportItem>, id: int) {
    exists i :: 0 <= i < |items| && items[i].id == id
  }

  predicate Listed(changes: seq<Change>, id: int) {
    exists i :: 0 <= i < |changes| && changes[i].id == id
  }

  /** `into_values` and `sort_by_key`, as an insertion sort. The hash map's iteration order is taken
      to be that of the reported items; by `ListingUnique` the result does not depend on it. */
  method SortedChanges(m: map<int, Breaker>, items: seq<ReportItem>) returns (changes: seq<Change>)
    requires forall id :: id in m ==> Reported(items, id)
    ensures IsListing(changes, m)
  {
    changes := [];
    for j := 0 to |items|
      invariant Ascending(changes) && Faithful(changes, m)
      invariant forall i :: 0 <= i < j && items[i].id in m ==> Listed(changes, items[i].id)
    {
      var id := items[j].id;
      if id in m {
        var k := 0;
        while k < |changes| && changes[k].id < id
          invariant 0 <= k <= |changes| && forall i :: 0 <= i < k ==> changes[i].id < id
        {
          k := k + 1;
        }
        if k == |changes| || changes[k].id != id {
          InsertKeepsListing(changes, m, id, k);
          changes := changes[..k] + [Change(id, m[id])] + changes[k..];
        }
      }
    }
  }

  lemma InsertKeepsListing(changes: seq<Change>, m: map<int, Breaker>, id: int, k: nat)
    requires Ascending(changes) && Faithful(changes, m) && id in m && k <= |changes|
    requires forall i :: 0 <= i < k ==> changes[i].id < id
    requires k < |changes| ==> changes[k].id > id
    ensures var out := changes[..k] + [Change(id, m[id])] + changes[k..];
            Ascending(out) && Faithful(out, m) && Listed(out, id) && forall x :: Listed(changes, x) ==> Listed(out, x)
  {
    var out := changes[..k] + [Change(id, m[id])] + changes[k..];
    InsertAscending(changes, Change(id, m[id]), k);
    forall i | 0 <= i < |out| ensures out[i].id in m && out[i].breaker == m[out[i].id] {
      assert out[i] == if i < k then changes[i] else if i == k then Change(id, m[id]) else changes[i - 1];
    }
    assert out[k].id == id;
    forall x | Listed(changes, x) ensures Listed(out, x) {
      var i :| 0 <= i < |changes| && changes[i].id == x;
      assert out[if i < k then i else i + 1] == changes[i];
    }
  }

  lemma InsertAscending(changes: seq<Change>, c: Change, k: nat)
    requires Ascending(changes) && k <= |changes|
    requires forall i :: 0 <= i < k ==> changes[i].id < c.id
    requires k < |changes| ==> changes[k].id > c.id
    ensures Ascending(changes[..k] + [c] + changes[k..])
  {
    forall i | k <= i < |changes| ensures changes[i].id > c.id {
    }
  }

  lemma NextIsSmallest(a: seq<Change>, b: seq<Change>, m: map<int, Breaker>, n: nat)
    requires IsListing(a, m) && IsListing(b, m) && n < |a| && n <= |b|
    requires forall i :: 0 <= i < n ==> a[i] == b[i]
    ensures n < |b| && b[n].id <= a[n].id
  {
    assert Listed(b, a[n].id);
    var k :| 0 <= k < |b| && b[k].id == a[n].id;
  }

  lemma {:induction false} SamePrefix(a: seq<Change>, b: seq<Change>, m: map<int, Breaker>, n: nat)
    requires IsListing(a, m) && IsListing(b, m) && n <= |a|
    ensures n <= |b| && forall i :: 0 <= i < n ==> a[i] == b[i]
  {
    if n > 0 {
      SamePrefix(a, b, m, n - 1);
      NextIsSmallest(a, b, m, n - 1);
      NextIsSmallest(b, a, m, n - 1);
    }
  }

  /** The sorted answer is determined by the map. */
  lemma ListingUnique(a: seq<Change>, b: seq<Change>, m: map<int, Breaker>)
    requires IsListing(a, m) && IsListing(b, m)
    ensures a == b
  {
    SamePrefix(a, b, m, |a|);
    SamePrefix(b, a, m, |b|);
  }
}
