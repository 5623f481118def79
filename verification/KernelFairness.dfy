/** Round-robin fairness of the kernel's own reserves. */
module KernelFairness {
  import opened Backoff
  import TB = TokenBuckets
  import HW = HealthWindows
  import opened Selection
  import opened Kernel
  import opened KernelSafety

  /** The keys a reserve can choose from, in ascending order. */
  function Offered(cfg: Config, s: State, e: Event): seq<Viable>
    requires e.ReserveEv?
  {
    StableSort(RoundRobin, ScanAll(s, e.req.candidates, e.clock, cfg.span).viable)
  }

  /** A reserve under round robin that has `f` of the keys `ids` to hand out. */
  ghost predicate Steady(cfg: Config, s: State, e: Event, ids: seq<int>, f: nat) {
    && e.ReserveEv? && Enough(e) && s.active.selection == RoundRobin
    && Ids(Offered(cfg, s, e)) == ids && f == Min(Width(s.active, e.req.concurrency), |ids|)
  }

  lemma ReserveIsHit(cfg: Config, s: State, e: Event, ids: seq<int>, f: nat, p: nat)
    requires Steady(cfg, s, e, ids, f) && p < |ids|
    requires forall i, j :: 0 <= i < j < |ids| ==> ids[i] != ids[j]
    ensures ids[p] in ReservedBy(cfg, s, e) <==> Hit(p, |ids|, f, s.rr) == 1
    ensures Step(cfg, s, e).rr == s.rr + 1
  {
    var scan, sorted := ScanAll(s, e.req.candidates, e.clock, cfg.span), Offered(cfg, s, e);
    ScanCell(s, e.req.candidates, e.clock, cfg.span, 0);
    StableSortCorrect(RoundRobin, scan.viable);
    SameLength(sorted, scan.viable);
    OrderIsPermutation(RoundRobin, scan.viable, s.rr, e.draws);
    var order := Rotated(sorted, s.rr % |ids|);
    assert Order(RoundRobin, scan.viable, s.rr, e.draws) == order;
    hide ScanAll, Spend;
    var reserved := ReservedBy(cfg, s, e);
    assert reserved == Ids(order[..f]);
    forall i, j | 0 <= i < j < |sorted| ensures sorted[i].id != sorted[j].id {
      assert ids[i] == sorted[i].id && ids[j] == sorted[j].id;
    }
    PrefixIsHit(sorted, p, f, s.rr);
    InPrefix(order, f, ids[p]);
  }

  lemma InPrefix(order: seq<Viable>, f: nat, id: int)
    requires f <= |order|
    ensures id in Ids(order[..f]) <==> exists i :: 0 <= i < f && order[i].id == id
  {
    var prefix := Ids(order[..f]);
    if i :| 0 <= i < f && order[i].id == id {
      assert prefix[i] == id;
    }
    if id in prefix {
      var i :| 0 <= i < |prefix| && prefix[i] == id;
      assert order[i].id == id;
    }
  }

  function TimesReserved(cfg: Config, s0: State, es: seq<Event>, id: int, m: nat): nat
    requires Run(es) && m <= |es|
  {
    if m == 0 then 0
    else
      var reserved := ReservedBy(cfg, At(cfg, s0, es, m - 1), es[m - 1]);
      TimesReserved(cfg, s0, es, id, m - 1) + if id in reserved then 1 else 0
  }

  /** The reserves among the first `m` events. */
  function Reserves(es: seq<Event>, m: nat): nat
    requires m <= |es|
  {
    if m == 0 then 0 else Reserves(es, m - 1) + if es[m - 1].ReserveEv? then 1 else 0
  }

  /** Each event is a reserve that has `f` of the keys `ids` to hand out, or a report, or a change of
      strategy that is undone before the next reserve. */
  ghost predicate SteadyRun(cfg: Config, s0: State, es: seq<Event>, ids: seq<int>, f: nat) {
    && Run(es)
    && forall i :: 0 <= i < |es| ==>
         !es[i].RestartEv? && (es[i].ReserveEv? ==> Steady(cfg, At(cfg, s0, es, i), es[i], ids, f))
  }

  lemma OthersKeepPointer(cfg: Config, s: State, e: Event, id: int)
    requires Enough(e) && !e.ReserveEv? && !e.RestartEv?
    ensures Step(cfg, s, e).rr == s.rr && id !in ReservedBy(cfg, s, e)
  {
    if e.ReportEv? {
      ReportKeepsPointer(s, e.items, cfg, e.clock);
    }
  }

  lemma {:induction false} ReportKeepsPointer(s: State, items: seq<ReportItem>, cfg: Config, clock: Clock)
    ensures FeedAll(s, items, cfg, clock).st.rr == s.rr
  {
    if items != [] {
      hide Feedback, HW.Recorded, TB.Calibrated;
      ReportKeepsPointer(s, items[..|items| - 1], cfg, clock);
    }
  }

  lemma {:induction false} ReservesAreHits(
      cfg: Config, s0: State, es: seq<Event>, ids: seq<int>, f: nat, p: nat, m: nat)
    requires SteadyRun(cfg, s0, es, ids, f) && m <= |es| && p < |ids|
    requires forall i, j :: 0 <= i < j < |ids| ==> ids[i] != ids[j]
    ensures TimesReserved(cfg, s0, es, ids[p], m) == Hits(p, |ids|, f, s0.rr, Reserves(es, m))
    ensures At(cfg, s0, es, m).rr == s0.rr + Reserves(es, m)
  {
    hide Step, ReservedBy, Steady;
    if m > 0 {
      var s, e := At(cfg, s0, es, m - 1), es[m - 1];
      ReservesAreHits(cfg, s0, es, ids, f, p, m - 1);
      assert Enough(e);
      if e.ReserveEv? {
        ReserveIsHit(cfg, s, e, ids, f, p);
        assert s.rr == s0.rr + Reserves(es, m) - 1;
      } else {
        OthersKeepPointer(cfg, s, e, ids[p]);
      }
    }
  }

  /** Over `rounds` full rounds of reserves of the same `n` keys, and `extra` reserves more, with any
      reports in between, every key is reserved `rounds * f` times and at most `extra`, and at most `f`,
      times more: exactly `f` times in any round, and with `f == 1` always floor or ceiling of reserves
      over keys. */
  lemma RoundRobinFair(cfg: Config, s0: State, es: seq<Event>, ids: seq<int>, f: nat, p: nat, rounds: nat, extra: nat)
    requires Run(es) && SteadyRun(cfg, s0, es, ids, f) && p < |ids| && extra < |ids|
    requires Reserves(es, |es|) == rounds * |ids| + extra
    requires forall i, j :: 0 <= i < j < |ids| ==> ids[i] != ids[j]
    ensures var times := TimesReserved(cfg, s0, es, ids[p], |es|);
            rounds * f <= times <= rounds * f + Min(extra, f)
  {
    hide *;
    ReservesAreHits(cfg, s0, es, ids, f, p, |es|);
    TakesFit(cfg, s0, es, ids, f);
    BetweenRounds(p, |ids|, f, s0.rr, rounds, extra);
  }

  lemma TakesFit(cfg: Config, s0: State, es: seq<Event>, ids: seq<int>, f: nat)
    requires SteadyRun(cfg, s0, es, ids, f)
    ensures Reserves(es, |es|) > 0 ==> f <= |ids|
  {
    if Reserves(es, |es|) > 0 {
      var k := SomeReserve(es, |es|);
      WidthFits(cfg, At(cfg, s0, es, k), es[k], ids, f);
    }
  }

  lemma BetweenRounds(p: nat, n: nat, f: nat, c: nat, rounds: nat, extra: nat)
    requires n > 0 && extra < n && (rounds * n + extra > 0 ==> f <= n)
    ensures rounds * f <= Hits(p, n, f, c, rounds * n + extra) <= rounds * f + Min(extra, f)
  {
    if f <= n {
      FairAlways(p, n, f, c, rounds, extra);
      assert (rounds + 1) * f == rounds * f + f;
    } else {
      assert rounds > 0 ==> rounds * n >= n;
    }
  }

  lemma {:induction false} SomeReserve(es: seq<Event>, m: nat) returns (k: nat)
    requires m <= |es| && Reserves(es, m) > 0
    ensures k < m && es[k].ReserveEv?
  {
    if es[m - 1].ReserveEv? {
      k := m - 1;
    } else {
      k := SomeReserve(es, m - 1);
    }
  }

  lemma WidthFits(cfg: Config, s: State, e: Event, ids: seq<int>, f: nat)
    requires Steady(cfg, s, e, ids, f)
    ensures f <= |ids|
  {
  }
}
