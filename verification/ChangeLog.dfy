/** The change log that keeps the Go side's copy of the breakers (`upstream_keys`) in step with the
    kernel's table. The kernel answers each request with the rows that have changed their status, and Go
    writes them one by one when the answer arrives: late, in any order among the requests, or never.
    Other code (`executor.go` and the fallback of `selectKeysKernel`) writes the same rows. */
module ChangeLog {
  import opened Backoff
  import opened Options
  import TB = TokenBuckets
  import HW = HealthWindows
  import opened Selection
  import opened Kernel
  import opened KernelSafety

  // ---- One response -----------------------------------------------------------

  function Replay(m: map<int, Breaker>, changes: seq<Change>): map<int, Breaker> {
    if changes == [] then m
    else
      var c := changes[|changes| - 1];
      Replay(m, changes[..|changes| - 1])[c.id := c.breaker]
  }

  lemma {:induction false} ScanReplays(s: State, cands: seq<Candidate>, clock: Clock, span: real)
    ensures var p := ScanAll(s, cands, clock, span);
            p.st.store == Replay(s.store, p.changes)
  {
    if cands != [] {
      var p, q := ScanAll(s, cands[..|cands| - 1], clock, span), ScanAll(s, cands, clock, span);
      ScanReplays(s, cands[..|cands| - 1], clock, span);
      ConsiderLogs(p, cands[|cands| - 1], clock, span);
      hide Consider;
      if q.changes != p.changes {
        assert q.changes[..|p.changes|] == p.changes;
      }
    }
  }

  /** The loop logs a promotion, and nothing else, as it writes it to the table. */
  lemma ConsiderLogs(p: Scan, c: Candidate, clock: Clock, span: real)
    ensures var q, before := Consider(p, c, clock, span), BreakerOf(p.st.brk, c.id);
            if Expired(before, clock.now) then
              && q.changes == p.changes + [Change(c.id, Promote(before, clock.now))]
              && q.st.store == p.st.store[c.id := Promote(before, clock.now)]
            else q.changes == p.changes && q.st.store == p.st.store
  {
    var p1 := Advance(p, c.id, clock.now);
    var kb := p1.st.brk[c.id];
    AdmitLogs(p1, c, kb.fails, clock.t, span);
    AdmitLogs(p1.(probes := p.probes - 1), c, kb.fails, clock.t, span);
    hide Admit;
  }

  lemma AdmitLogs(p: Scan, c: Candidate, fails: nat, t: real, span: real)
    ensures var q := Admit(p, c, fails, t, span);
            q.changes == p.changes && q.st.store == p.st.store
  {
    hide TB.Refill, TB.Admits, TB.Fresh, HW.Evict, HW.Rate, WeightedScore;
  }

  /** The report's change map is exactly what it wrote to the table. */
  lemma {:induction false} FeedWrites(s: State, items: seq<ReportItem>, cfg: Config, clock: Clock, id: int)
    ensures var p := FeedAll(s, items, cfg, clock);
            BreakerOf(p.st.store, id) == if id in p.changes then p.changes[id] else BreakerOf(s.store, id)
  {
    if items != [] {
      FeedWrites(s, items[..|items| - 1], cfg, clock, id);
      hide Feedback;
    }
  }

  lemma {:induction false} ReplayAt(m: map<int, Breaker>, changes: seq<Change>, id: int)
    requires Ascending(changes)
    ensures !Listed(changes, id) ==> BreakerOf(Replay(m, changes), id) == BreakerOf(m, id)
    ensures forall i :: 0 <= i < |changes| && changes[i].id == id ==>
      BreakerOf(Replay(m, changes), id) == changes[i].breaker
  {
    if changes != [] {
      var n := |changes| - 1;
      var pre := changes[..n];
      ReplayAt(m, pre, id);
      if Listed(pre, id) {
        var i :| 0 <= i < |pre| && pre[i].id == id;
        assert changes[i].id == id;
      }
      forall i | 0 <= i < |changes| && changes[i].id == id
        ensures BreakerOf(Replay(m, changes), id) == changes[i].breaker {
        if i < n {
          assert pre[i] == changes[i] && changes[n].id != id;
        }
      }
      assert !Listed(changes, id) ==> changes[n].id != id;
    }
  }

  lemma ReplayListing(m: map<int, Breaker>, changes: seq<Change>, written: map<int, Breaker>, id: int)
    requires IsListing(changes, written)
    ensures BreakerOf(Replay(m, changes), id) == if id in written then written[id] else BreakerOf(m, id)
  {
    ReplayAt(m, changes, id);
    if id in written {
      assert Listed(changes, id);
    }
  }

  lemma {:induction false} ReplayOver(m: map<int, Breaker>, changes: seq<Change>, id: int)
    ensures var told := Replay(map[], changes);
            BreakerOf(Replay(m, changes), id) == if id in told then told[id] else BreakerOf(m, id)
  {
    if changes != [] {
      ReplayOver(m, changes[..|changes| - 1], id);
    }
  }

  /** The rows a response lists. A key is listed at most once (`ListedOnce` and `Ascending`). */
  function Told(cfg: Config, s: State, e: Event): map<int, Breaker>
    requires Enough(e)
  {
    match e
    case ReserveEv(clock, t2, req, draws) => Replay(map[], Reserve(s, req, clock, t2, draws, cfg.span).1.changes)
    case ReportEv(clock, items) => FeedAll(s, items, cfg, clock).changes
    case _ => map[]
  }

  predicate Named(cfg: Config, s: State, e: Event, id: int)
    requires Enough(e)
  {
    id in Told(cfg, s, e)
  }

  /** The response to event `m` of a run names the key. */
  predicate NamedAt(cfg: Config, s0: State, es: seq<Event>, m: nat, id: int)
    requires Run(es) && m < |es|
  {
    Named(cfg, At(cfg, s0, es, m), es[m], id)
  }

  /** `after` is `before` with one response written into it. */
  ghost predicate Echoed(cfg: Config, s: State, e: Event, before: map<int, Breaker>, after: map<int, Breaker>)
    requires Enough(e)
  {
    match e
    case ReserveEv(clock, t2, req, draws) =>
      after == Replay(before, Reserve(s, req, clock, t2, draws, cfg.span).1.changes)
    case ReportEv(clock, items) =>
      exists changes :: IsListing(changes, FeedAll(s, items, cfg, clock).changes) && after == Replay(before, changes)
    case _ => after == before
  }

  lemma ReserveLog(s: State, req: ReserveReq, clock: Clock, t2: real, draws: seq<real>, span: real)
    requires |draws| >= |req.candidates|
    ensures var p, out := ScanAll(s, req.candidates, clock, span), Reserve(s, req, clock, t2, draws, span);
            out.0.store == p.st.store == Replay(s.store, p.changes) && out.1.changes == p.changes
  {
    ScanReplays(s, req.candidates, clock, span);
    hide ScanAll, Taken, Spend;
  }

  /** A response lists exactly what its event wrote to the table. */
  lemma ToldIsTable(cfg: Config, s: State, e: Event, id: int)
    requires Enough(e)
    ensures BreakerOf(Step(cfg, s, e).store, id)
         == if Named(cfg, s, e, id) then Told(cfg, s, e)[id] else BreakerOf(s.store, id)
  {
    match e
    case ReserveEv(clock, t2, req, draws) =>
      ReserveLog(s, req, clock, t2, draws, cfg.span);
      hide ScanAll, Reserve;
      ReplayOver(s.store, ScanAll(s, req.candidates, clock, cfg.span).changes, id);
    case ReportEv(clock, items) =>
      hide FeedAll;
      FeedWrites(s, items, cfg, clock, id);
    case _ =>
  }

  /** A response written as a whole makes the rows it names agree with the table as it was after the
      event, whatever the copy held, and touches no other row. */
  lemma DeliveredNames(cfg: Config, s: State, e: Event, before: map<int, Breaker>, after: map<int, Breaker>, id: int)
    requires Enough(e) && Echoed(cfg, s, e, before, after)
    ensures BreakerOf(after, id)
         == if Named(cfg, s, e, id) then BreakerOf(Step(cfg, s, e).store, id) else BreakerOf(before, id)
  {
    ToldIsTable(cfg, s, e, id);
    hide Step;
    match e
    case ReserveEv(clock, t2, req, draws) =>
      ReplayOver(before, Reserve(s, req, clock, t2, draws, cfg.span).1.changes, id);
    case ReportEv(clock, items) =>
      var p := FeedAll(s, items, cfg, clock);
      hide FeedAll;
      var changes :| IsListing(changes, p.changes) && after == Replay(before, changes);
      ReplayListing(before, changes, p.changes, id);
    case _ =>
  }

  ghost predicate SameRows(a: map<int, Breaker>, b: map<int, Breaker>) {
    forall id :: BreakerOf(a, id) == BreakerOf(b, id)
  }

  /** The change log is complete: a copy that agreed with the persisted table before an event, row by
      row, agrees after the event's changes have been written into it. */
  lemma EchoKeepsRows(cfg: Config, s: State, e: Event, before: map<int, Breaker>, after: map<int, Breaker>)
    requires Enough(e) && SameRows(before, s.store) && Echoed(cfg, s, e, before, after)
    ensures SameRows(after, Step(cfg, s, e).store)
  {
    hide Step, Echoed, Named;
    forall id ensures BreakerOf(after, id) == BreakerOf(Step(cfg, s, e).store, id) {
      DeliveredNames(cfg, s, e, before, after, id);
      ToldIsTable(cfg, s, e, id);
    }
  }

  // ---- Which keys a response names --------------------------------------------

  /** A reserve lists exactly the offered keys whose breaker had expired. */
  lemma {:induction false} ScanNames(s: State, cands: seq<Candidate>, clock: Clock, span: real, id: int)
    ensures var told := Replay(map[], ScanAll(s, cands, clock, span).changes);
            id in told <==> Names(cands, id) && Expired(BreakerOf(s.brk, id), clock.now)
  {
    if cands != [] {
      var pre, c := cands[..|cands| - 1], cands[|cands| - 1];
      var p, q := ScanAll(s, pre, clock, span), ScanAll(s, cands, clock, span);
      ScanNames(s, pre, clock, span, id);
      ScanCell(s, pre, clock, span, id);
      NamesLast(cands, id);
      ConsiderLogs(p, c, clock, span);
      hide Consider, Names;
      if q.changes != p.changes {
        assert q.changes[..|p.changes|] == p.changes;
      }
    }
  }

  /** No reserve lists a key twice, so that writing a response row by row leaves no row in between. */
  lemma {:induction false} ListedOnce(s: State, cands: seq<Candidate>, clock: Clock, span: real, i: nat, j: nat)
    requires i < j < |ScanAll(s, cands, clock, span).changes|
    ensures var changes := ScanAll(s, cands, clock, span).changes;
            changes[i].id != changes[j].id
  {
    var pre, c := cands[..|cands| - 1], cands[|cands| - 1];
    var p := ScanAll(s, pre, clock, span);
    ConsiderLogs(p, c, clock, span);
    hide Consider;
    if j < |p.changes| {
      ListedOnce(s, pre, clock, span, i, j);
    } else {
      ScanNames(s, pre, clock, span, c.id);
      ScanCell(s, pre, clock, span, c.id);
      ReplayHas(p.changes, i);
    }
  }

  lemma {:induction false} ReplayHas(changes: seq<Change>, i: nat)
    requires i < |changes|
    ensures changes[i].id in Replay(map[], changes)
  {
    if i < |changes| - 1 {
      ReplayHas(changes[..|changes| - 1], i);
    }
  }

  /** Within one report a status moves only from half-open to active to open. */
  function Rank(status: Status): nat {
    match status
    case HalfOpen => 0
    case Active => 1
    case Open => 2
  }

  lemma {:induction false} FeedNames(s: State, items: seq<ReportItem>, cfg: Config, clock: Clock, id: int)
    ensures var p := FeedAll(s, items, cfg, clock);
            && (id in p.changes <==> BreakerOf(p.st.brk, id).status != BreakerOf(s.brk, id).status)
            && Rank(BreakerOf(p.st.brk, id).status) >= Rank(BreakerOf(s.brk, id).status)
  {
    if items != [] {
      hide Cooldown;
      FeedNames(s, items[..|items| - 1], cfg, clock, id);
    }
  }

  /** A response names a key exactly when its event changed the key's status; the status in the table
      changes with it. */
  lemma NamedMoves(cfg: Config, s: State, e: Event, id: int)
    requires Sane(cfg) && Enough(e) && SafeCell(CellOf(s, id), cfg, e.clock.now)
    ensures Named(cfg, s, e, id) <==> BreakerOf(Step(cfg, s, e).brk, id).status != BreakerOf(s.brk, id).status
    ensures Named(cfg, s, e, id) <==> BreakerOf(Step(cfg, s, e).store, id).status != BreakerOf(s.store, id).status
  {
    EventSafe(cfg, s, e, id);
    match e
    case ReserveEv(clock, t2, req, draws) =>
      ReserveLog(s, req, clock, t2, draws, cfg.span);
      ReserveCell(s, req, clock, t2, draws, cfg.span, id);
      ScanNames(s, req.candidates, clock, cfg.span, id);
      hide Reserve, ScanAll, Cooldown;
    case ReportEv(clock, items) =>
      FeedNames(s, items, cfg, clock, id);
      hide FeedAll, Cooldown;
    case _ =>
  }

  /** The row of a key that has just changed its status. */
  function RowOf(status: Status, cfg: Config, now: int): Breaker
    requires Sane(cfg)
  {
    if status == Open then Breaker(Open, cfg.threshold, now + Cooldown(cfg.base, 0)) else Breaker(status, 0, 0)
  }

  lemma {:induction false} FedCellsClose(c: Cell, items: seq<ReportItem>, id: int, cfg: Config, now: int)
    requires c.mem.status == c.disk.status
    ensures var d := FedCells(c, items, id, cfg, now);
            && (c.mem.status != HalfOpen ==> d.mem.status != HalfOpen)
            && (c.mem.status != Active && d.mem.status == Active ==> d.disk == Breaker(Active, 0, 0))
  {
    if items != [] {
      hide Cooldown;
      FedCellsClose(c, items[..|items| - 1], id, cfg, now);
    }
  }

  lemma NamedRow(cfg: Config, s: State, e: Event, id: int)
    requires Sane(cfg) && Enough(e) && SafeCell(CellOf(s, id), cfg, e.clock.now) && Named(cfg, s, e, id)
    ensures Told(cfg, s, e)[id] == RowOf(Told(cfg, s, e)[id].status, cfg, e.clock.now)
  {
    ToldIsTable(cfg, s, e, id);
    NamedMoves(cfg, s, e, id);
    EventSafe(cfg, s, e, id);
    StepIsPerKey(cfg, s, e, id);
    hide Step, Told, Named, Cooldown, FedCells;
    if e.ReportEv? {
      FedCellsSafe(CellOf(s, id), e.items, id, cfg, e.clock.now);
      FedCellsClose(CellOf(s, id), e.items, id, cfg, e.clock.now);
    }
  }

  // ---- The copy ---------------------------------------------------------------

  /** One row of the copy is written: a row of the response to event `response`, or a row of other code. */
  datatype Write = Echo(response: nat, id: int) | Foreign(id: int, row: Breaker)

  /** A response can be echoed once the kernel has given it, and only rows it lists. */
  predicate Genuine(cfg: Config, s0: State, es: seq<Event>, k: nat, w: Write)
    requires Run(es) && k <= |es|
  {
    w.Echo? ==> w.response < k && NamedAt(cfg, s0, es, w.response, w.id)
  }

  ghost predicate AllGenuine(cfg: Config, s0: State, es: seq<Event>, k: nat, ws: seq<Write>)
    requires Run(es) && k <= |es|
  {
    forall w :: w in ws ==> Genuine(cfg, s0, es, k, w)
  }

  function Row(cfg: Config, s0: State, es: seq<Event>, w: Write): Breaker
    requires Run(es) && Genuine(cfg, s0, es, |es|, w)
  {
    match w
    case Echo(m, id) => Told(cfg, At(cfg, s0, es, m), es[m])[id]
    case Foreign(_, row) => row
  }

  /** The copy after any writes. Any moment of any interleaving of the kernel with the writers is given
      by the events handled and the writes made so far. */
  ghost function Copied(
      cfg: Config, s0: State, es: seq<Event>, start: map<int, Breaker>, ws: seq<Write>): map<int, Breaker>
    requires Run(es) && AllGenuine(cfg, s0, es, |es|, ws)
  {
    if ws == [] then start
    else
      var w := ws[|ws| - 1];
      Copied(cfg, s0, es, start, ws[..|ws| - 1])[w.id := Row(cfg, s0, es, w)]
  }

  function LastWrite(ws: seq<Write>, id: int): (last: Option<Write>)
    ensures last.Some? ==> last.value in ws && last.value.id == id
    ensures last.None? ==> forall w :: w in ws ==> w.id != id
  {
    if ws == [] then None
    else if ws[|ws| - 1].id == id then Some(ws[|ws| - 1])
    else
      assert ws == ws[..|ws| - 1] + [ws[|ws| - 1]];
      LastWrite(ws[..|ws| - 1], id)
  }

  lemma {:induction false} CopyIsLastWritten(
    cfg: Config, s0: State, es: seq<Event>, start: map<int, Breaker>, ws: seq<Write>, id: int)
    requires Run(es) && AllGenuine(cfg, s0, es, |es|, ws)
    ensures var last := LastWrite(ws, id);
            BreakerOf(Copied(cfg, s0, es, start, ws), id)
              == if last.Some? then Row(cfg, s0, es, last.value) else BreakerOf(start, id)
  {
    if ws != [] {
      hide Genuine, Row;
      CopyIsLastWritten(cfg, s0, es, start, ws[..|ws| - 1], id);
    }
  }

  /** The last of the first `k` events whose response names the key. */
  function LastNaming(cfg: Config, s0: State, es: seq<Event>, k: nat, id: int): Option<nat>
    requires Run(es) && k <= |es|
  {
    if k == 0 then None
    else if NamedAt(cfg, s0, es, k - 1, id) then Some(k - 1)
    else LastNaming(cfg, s0, es, k - 1, id)
  }

  lemma {:induction false} LastNamingIsLast(cfg: Config, s0: State, es: seq<Event>, k: nat, id: int)
    requires Run(es) && k <= |es|
    ensures var n := LastNaming(cfg, s0, es, k, id);
            && (n.Some? ==> n.value < k && NamedAt(cfg, s0, es, n.value, id))
            && forall m :: 0 <= m < k && (n.None? || m > n.value) ==> !NamedAt(cfg, s0, es, m, id)
  {
    hide NamedAt;
    if k > 0 {
      LastNamingIsLast(cfg, s0, es, k - 1, id);
    }
  }

  /** The row that event `m` gave the key. */
  function MovedTo(cfg: Config, s0: State, es: seq<Event>, m: nat, id: int): Breaker
    requires Run(es) && m < |es| && NamedAt(cfg, s0, es, m, id)
  {
    Told(cfg, At(cfg, s0, es, m), es[m])[id]
  }

  lemma {:induction false} TableIsLastNamed(cfg: Config, s0: State, es: seq<Event>, k: nat, id: int)
    requires Run(es) && k <= |es|
    ensures var n := LastNaming(cfg, s0, es, k, id);
            (n.Some? ==> n.value < k && NamedAt(cfg, s0, es, n.value, id))
            && BreakerOf(At(cfg, s0, es, k).store, id)
              == if n.Some? then MovedTo(cfg, s0, es, n.value, id) else BreakerOf(s0.store, id)
  {
    hide Step, Told;
    LastNamingIsLast(cfg, s0, es, k, id);
    if k > 0 {
      TableIsLastNamed(cfg, s0, es, k - 1, id);
      ToldIsTable(cfg, At(cfg, s0, es, k - 1), es[k - 1], id);
    }
  }

  /** The exact law, for any losses, any delays and any order of the echoes, whatever was lost or
      overwritten before: when the row written last is an echo, the copy agrees with the table exactly when
      the response echoed last moved the key to the same status as the latest response that names it and,
      if that is open, in the same second. An echo of the latest response itself repairs the row. */
  lemma CopyAgreesIff(
    cfg: Config, s0: State, es: seq<Event>, start: map<int, Breaker>, ws: seq<Write>, id: int, m: nat)
    returns (n: nat)
    requires Sane(cfg) && Run(es) && AllGenuine(cfg, s0, es, |es|, ws)
    requires LastWrite(ws, id) == Some(Echo(m, id)) && SafeCell(CellOf(s0, id), cfg, es[0].clock.now)
    ensures m <= n < |es| && LastNaming(cfg, s0, es, |es|, id) == Some(n)
    ensures NamedAt(cfg, s0, es, m, id) && NamedAt(cfg, s0, es, n, id)
    ensures BreakerOf(Copied(cfg, s0, es, start, ws), id) == BreakerOf(At(cfg, s0, es, |es|).store, id)
       <==> && MovedTo(cfg, s0, es, m, id).status == MovedTo(cfg, s0, es, n, id).status
            && (MovedTo(cfg, s0, es, m, id).status == Open ==> es[m].clock.now == es[n].clock.now)
  {
    assert Genuine(cfg, s0, es, |es|, Echo(m, id));
    LastNamingIsLast(cfg, s0, es, |es|, id);
    n := LastNaming(cfg, s0, es, |es|, id).value;
    CopyIsLastWritten(cfg, s0, es, start, ws, id);
    TableIsLastNamed(cfg, s0, es, |es|, id);
    RunSafe(cfg, s0, es, m, id);
    RunSafe(cfg, s0, es, n, id);
    NamedRow(cfg, At(cfg, s0, es, m), es[m], id);
    NamedRow(cfg, At(cfg, s0, es, n), es[n], id);
    hide Step, Named, Told, SafeCell, Copied, Cooldown;
  }

  /** Two responses in a row that name the key move it to different statuses. So an echo overtaken by that
      of the very next response spoils the row: both have arrived, and copy and table disagree. */
  lemma NextNamingMoves(cfg: Config, s0: State, es: seq<Event>, m: nat, n: nat, id: int)
    requires Sane(cfg) && Run(es) && m < n < |es| && SafeCell(CellOf(s0, id), cfg, es[0].clock.now)
    requires NamedAt(cfg, s0, es, m, id) && NamedAt(cfg, s0, es, n, id) && LastNaming(cfg, s0, es, n, id) == Some(m)
    ensures MovedTo(cfg, s0, es, m, id).status != MovedTo(cfg, s0, es, n, id).status
  {
    TableIsLastNamed(cfg, s0, es, n, id);
    RunSafe(cfg, s0, es, n, id);
    NamedMoves(cfg, At(cfg, s0, es, n), es[n], id);
    ToldIsTable(cfg, At(cfg, s0, es, n), es[n], id);
    hide Step, Named, Told, SafeCell;
  }

  // ---- Agreement throughout ---------------------------------------------------

  /** `hs[k]` is what is written between the handling of event `k` and that of the next. */
  ghost predicate Heard(cfg: Config, s0: State, es: seq<Event>, hs: seq<seq<Write>>) {
    Run(es) && |hs| == |es| && forall k :: 0 <= k < |es| ==> AllGenuine(cfg, s0, es, k + 1, hs[k])
  }

  function Writes(hs: seq<seq<Write>>, k: nat): seq<Write>
    requires k <= |hs|
  {
    if k == 0 then [] else Writes(hs, k - 1) + hs[k - 1]
  }

  lemma {:induction false} WritesGenuine(cfg: Config, s0: State, es: seq<Event>, hs: seq<seq<Write>>, k: nat)
    requires Heard(cfg, s0, es, hs) && k <= |es|
    ensures AllGenuine(cfg, s0, es, |es|, Writes(hs, k))
  {
    hide At, Named;
    if k > 0 {
      WritesGenuine(cfg, s0, es, hs, k - 1);
      forall w | w in Writes(hs, k) ensures Genuine(cfg, s0, es, |es|, w) {
        assert w in Writes(hs, k - 1) || w in hs[k - 1];
      }
    }
  }

  /** The copy's row when the kernel is about to handle event `k`. */
  ghost function CopyAt(
      cfg: Config, s0: State, es: seq<Event>, start: map<int, Breaker>, hs: seq<seq<Write>>, k: nat, id: int): Breaker
    requires Heard(cfg, s0, es, hs) && k <= |es|
  {
    WritesGenuine(cfg, s0, es, hs, k);
    BreakerOf(Copied(cfg, s0, es, start, Writes(hs, k)), id)
  }

  lemma {:induction false} LastWriteConcat(a: seq<Write>, b: seq<Write>, id: int)
    ensures LastWrite(a + b, id) == if LastWrite(b, id).Some? then LastWrite(b, id) else LastWrite(a, id)
  {
    if b == [] {
      assert a + b == a;
    } else {
      assert (a + b)[..|a + b| - 1] == a + b[..|b| - 1];
      LastWriteConcat(a, b[..|b| - 1], id);
    }
  }

  lemma CopySlot(
    cfg: Config, s0: State, es: seq<Event>, start: map<int, Breaker>, hs: seq<seq<Write>>, k: nat, id: int)
    requires Heard(cfg, s0, es, hs) && k < |es|
    ensures var last := LastWrite(hs[k], id);
            && (last.Some? ==> Genuine(cfg, s0, es, k + 1, last.value) && Genuine(cfg, s0, es, |es|, last.value))
            && CopyAt(cfg, s0, es, start, hs, k + 1, id)
              == if last.Some? then Row(cfg, s0, es, last.value) else CopyAt(cfg, s0, es, start, hs, k, id)
  {
    hide At, Named, Row, Copied, LastWrite;
    WritesGenuine(cfg, s0, es, hs, k);
    WritesGenuine(cfg, s0, es, hs, k + 1);
    CopyIsLastWritten(cfg, s0, es, start, Writes(hs, k), id);
    CopyIsLastWritten(cfg, s0, es, start, Writes(hs, k + 1), id);
    LastWriteConcat(Writes(hs, k), hs[k], id);
  }

  ghost predicate Agrees(
    cfg: Config, s0: State, es: seq<Event>, start: map<int, Breaker>, hs: seq<seq<Write>>, k: nat, id: int)
    requires Heard(cfg, s0, es, hs) && k <= |es|
  {
    CopyAt(cfg, s0, es, start, hs, k, id) == BreakerOf(At(cfg, s0, es, k).store, id)
  }

  /** Of the key's rows, only those of responses to event `m` or later are written. */
  predicate EchoesOnly(ws: seq<Write>, id: int, m: nat) {
    forall w :: w in ws && w.id == id ==> w.Echo? && m <= w.response
  }

  /** From event `i` up to `j` the row is written by echoes of those events only, each at most once: a
      response not echoed at once may still be echoed late. */
  ghost predicate OwnEchoes(hs: seq<seq<Write>>, i: nat, j: nat, id: int)
    requires j <= |hs|
  {
    forall k, w :: i <= k < j && w in hs[k] && w.id == id ==>
      w.Echo? && i <= w.response && (w.response < k ==> Echo(w.response, id) !in hs[w.response])
  }

  /** Every response that names the key is echoed before the kernel handles the next request. */
  ghost predicate Prompt(cfg: Config, s0: State, es: seq<Event>, hs: seq<seq<Write>>, i: nat, j: nat, id: int)
    requires Heard(cfg, s0, es, hs) && j <= |es|
  {
    forall k :: i <= k < j && NamedAt(cfg, s0, es, k, id) ==> Echo(k, id) in hs[k]
  }

  lemma PromptOnce(
    cfg: Config, s0: State, es: seq<Event>, hs: seq<seq<Write>>, i: nat, k: nat, id: int)
    requires Heard(cfg, s0, es, hs) && i <= k < |es| && OwnEchoes(hs, i, k + 1, id)
    requires Prompt(cfg, s0, es, hs, i, k, id)
    ensures forall w :: w in hs[k] && w.id == id ==> w == Echo(k, id)
  {
    hide At, Named;
    forall w | w in hs[k] && w.id == id ensures w == Echo(k, id) {
      assert Genuine(cfg, s0, es, k + 1, w);
    }
  }

  lemma SlotAgrees(
    cfg: Config, s0: State, es: seq<Event>, start: map<int, Breaker>, hs: seq<seq<Write>>, i: nat, k: nat, id: int)
    requires Sane(cfg) && Heard(cfg, s0, es, hs) && i <= k < |es| && OwnEchoes(hs, i, k + 1, id)
    requires SafeCell(CellOf(s0, id), cfg, es[0].clock.now)
    requires Prompt(cfg, s0, es, hs, i, k, id) && Agrees(cfg, s0, es, start, hs, k, id)
    ensures Agrees(cfg, s0, es, start, hs, k + 1, id) <==> Prompt(cfg, s0, es, hs, i, k + 1, id)
  {
    PromptOnce(cfg, s0, es, hs, i, k, id);
    CopySlot(cfg, s0, es, start, hs, k, id);
    RunSafe(cfg, s0, es, k, id);
    NamedMoves(cfg, At(cfg, s0, es, k), es[k], id);
    ToldIsTable(cfg, At(cfg, s0, es, k), es[k], id);
    hide Step, Named, Told, SafeCell, CopyAt, LastWrite, OwnEchoes, AllGenuine, Prompt, At, Cooldown;
    PromptNext(cfg, s0, es, hs, i, k, id);
  }

  lemma PromptNext(cfg: Config, s0: State, es: seq<Event>, hs: seq<seq<Write>>, i: nat, k: nat, id: int)
    requires Heard(cfg, s0, es, hs) && i <= k < |es|
    ensures Prompt(cfg, s0, es, hs, i, i, id)
    ensures Prompt(cfg, s0, es, hs, i, k + 1, id)
       <==> Prompt(cfg, s0, es, hs, i, k, id) && (NamedAt(cfg, s0, es, k, id) ==> Echo(k, id) in hs[k])
  {
    hide NamedAt, AllGenuine;
  }

  lemma FewerEchoes(hs: seq<seq<Write>>, i: nat, j: nat, id: int)
    requires i < j <= |hs| && OwnEchoes(hs, i, j, id)
    ensures OwnEchoes(hs, i, j - 1, id)
  {
  }

  /** The exact law for agreement throughout: from a row that agrees, with no echo under way and no other
      writer, the copy agrees whenever the kernel takes a request, from event `i` up to `j`, if and only
      if every response that names the key is echoed before the next request. */
  lemma {:induction false} AgreesThroughoutIff(
    cfg: Config, s0: State, es: seq<Event>, start: map<int, Breaker>, hs: seq<seq<Write>>, i: nat, j: nat, id: int)
    requires Sane(cfg) && Heard(cfg, s0, es, hs) && i <= j <= |es| && OwnEchoes(hs, i, j, id)
    requires i < j ==> SafeCell(CellOf(s0, id), cfg, es[0].clock.now)
    requires Agrees(cfg, s0, es, start, hs, i, id)
    ensures (forall k :: i <= k <= j ==> Agrees(cfg, s0, es, start, hs, k, id))
       <==> Prompt(cfg, s0, es, hs, i, j, id)
    decreases j
  {
    hide Agrees, AllGenuine, SafeCell, Sane, OwnEchoes, NamedAt;
    if i < j {
      hide Prompt;
      FewerEchoes(hs, i, j, id);
      PromptNext(cfg, s0, es, hs, i, j - 1, id);
      AgreesThroughoutIff(cfg, s0, es, start, hs, i, j - 1, id);
      if Prompt(cfg, s0, es, hs, i, j - 1, id) {
        SlotAgrees(cfg, s0, es, start, hs, i, j - 1, id);
      }
    }
  }

  /** Memory and table agree on every status after every event, so a restart preserves it, and a copy that
      agrees with the table agrees with memory on the status. */
  lemma StatusesAgree(cfg: Config, s0: State, es: seq<Event>, i: nat, id: int)
    requires Sane(cfg) && Run(es) && i < |es| && SafeCell(CellOf(s0, id), cfg, es[0].clock.now)
    ensures var s := At(cfg, s0, es, i + 1);
            && BreakerOf(s.store, id).status == BreakerOf(s.brk, id).status
            && BreakerOf(Step(cfg, s, RestartEv(es[i].clock)).brk, id).status == BreakerOf(s.brk, id).status
  {
    hide Reserve, FeedAll;
    RunSafe(cfg, s0, es, i, id);
    EventSafe(cfg, At(cfg, s0, es, i), es[i], id);
  }

  // ---- What reports do not mend -----------------------------------------------

  /** A report names no key whose breaker is open already. */
  lemma OpenIsNotNamed(cfg: Config, s: State, e: Event, id: int)
    requires e.ReportEv? && BreakerOf(s.brk, id).status == Open
    ensures !Named(cfg, s, e, id) && BreakerOf(Step(cfg, s, e).brk, id).status == Open
  {
    FeedNames(s, e.items, cfg, e.clock, id);
    hide FeedAll;
  }

  /** A row that is wrong while the key is open is not mended by later reports: however many arrive, the
      row stays as it was. Only a promotion, an older echo or another writer changes it. */
  lemma {:induction false} ReportsDoNotRepair(
    cfg: Config, s0: State, es: seq<Event>, start: map<int, Breaker>, hs: seq<seq<Write>>, i: nat, j: nat, id: int)
    requires Heard(cfg, s0, es, hs) && i <= j <= |es|
    requires BreakerOf(At(cfg, s0, es, i).brk, id).status == Open
    requires forall k :: i <= k < j ==> es[k].ReportEv?
    requires forall k :: i <= k < j ==> EchoesOnly(hs[k], id, i)
    ensures CopyAt(cfg, s0, es, start, hs, j, id) == CopyAt(cfg, s0, es, start, hs, i, id)
    ensures forall k :: i <= k <= j ==> BreakerOf(At(cfg, s0, es, k).brk, id).status == Open
    ensures BreakerOf(At(cfg, s0, es, j).store, id) == BreakerOf(At(cfg, s0, es, i).store, id)
    decreases j
  {
    hide Step, Named, CopyAt, LastWrite, Told;
    if j > i {
      ReportsDoNotRepair(cfg, s0, es, start, hs, i, j - 1, id);
      forall k | i <= k < j ensures !NamedAt(cfg, s0, es, k, id) {
        OpenIsNotNamed(cfg, At(cfg, s0, es, k), es[k], id);
      }
      OpenIsNotNamed(cfg, At(cfg, s0, es, j - 1), es[j - 1], id);
      ToldIsTable(cfg, At(cfg, s0, es, j - 1), es[j - 1], id);
      CopySlot(cfg, s0, es, start, hs, j - 1, id);
    }
  }

  /** Such a history: key 7 fails once with threshold 1 and the response is lost, then fails again and
      the response arrives, empty. The table says open, the copy active. */
  lemma LostOpeningStays(active: Strategy)
    ensures var cfg, s0 := Config(1, 30, 120.0), State(map[], map[], map[], map[], 0, active);
            var fail := ReportEv(Clock(0, 0.0), [ReportItem(7, false, None)]);
            forall hs :: Heard(cfg, s0, [fail, fail], hs) && hs[0] == [] && EchoesOnly(hs[1], 7, 1) ==>
              CopyAt(cfg, s0, [fail, fail], map[], hs, 2, 7).status == Active
              && BreakerOf(At(cfg, s0, [fail, fail], 2).store, 7).status == Open
  {
    var cfg, s0 := Config(1, 30, 120.0), State(map[], map[], map[], map[], 0, active);
    var fail := ReportEv(Clock(0, 0.0), [ReportItem(7, false, None)]);
    var es := [fail, fail];
    ReportOne(cfg, s0, fail, 7);
    assert At(cfg, s0, es, 1) == Step(cfg, At(cfg, s0, es, 0), es[0]);
    assert forall hs :: Heard(cfg, s0, es, hs) ==> CopyAt(cfg, s0, es, map[], hs, 0, 7) == DEFAULT_BREAKER;
    hide Step, CopyAt, Named, Cooldown;
    forall hs | Heard(cfg, s0, es, hs) && hs[0] == [] && EchoesOnly(hs[1], 7, 1)
      ensures CopyAt(cfg, s0, es, map[], hs, 2, 7).status == Active
      ensures BreakerOf(At(cfg, s0, es, 2).store, 7).status == Open
    {
      CopySlot(cfg, s0, es, map[], hs, 0, 7);
      ReportsDoNotRepair(cfg, s0, es, map[], hs, 1, 2, 7);
    }
  }

  lemma ReportOne(cfg: Config, s: State, e: Event, id: int)
    requires e.ReportEv? && |e.items| == 1 && e.items[0].id == id
    ensures CellOf(Step(cfg, s, e), id) == FedCell(CellOf(s, id), e.items[0], id, cfg, e.clock.now)
  {
    ReportCell(s, e.items, cfg, e.clock, id);
    OneFed(CellOf(s, id), e.items[0], id, cfg, e.clock.now);
    assert e.items == [e.items[0]];
    hide FeedAll, FedCells, FedCell;
  }

  /** Two reports of a half-open key 7 with threshold 1: the first closes it, the second opens it. Both
      responses arrive, but the first is written last. The copy says active and the table open, and so it
      stays over any number of later reports, whatever of them is echoed. */
  lemma SwappedEchoesStay(
    s0: State, start: map<int, Breaker>, later: seq<Event>, hs: seq<seq<Write>>, active: Strategy)
    requires s0 == State(map[7 := Breaker(HalfOpen, 0, 0)], map[], map[], map[7 := Breaker(HalfOpen, 0, 0)], 0, active)
    requires forall k :: 0 <= k < |later| ==> later[k].ReportEv?
    requires Heard(Config(1, 30, 120.0), s0, TwoReports(later), hs)
    requires hs[0] == [] && hs[1] == [Echo(1, 7), Echo(0, 7)]
    requires forall k :: 2 <= k < |hs| ==> EchoesOnly(hs[k], 7, 2)
    ensures CopyAt(Config(1, 30, 120.0), s0, TwoReports(later), start, hs, |hs|, 7).status == Active
    ensures BreakerOf(At(Config(1, 30, 120.0), s0, TwoReports(later), |hs|).store, 7).status == Open
  {
    var cfg, es := Config(1, 30, 120.0), TwoReports(later);
    ReportOne(cfg, s0, es[0], 7);
    assert At(cfg, s0, es, 1) == Step(cfg, At(cfg, s0, es, 0), es[0]);
    ReportOne(cfg, At(cfg, s0, es, 1), es[1], 7);
    assert At(cfg, s0, es, 2) == Step(cfg, At(cfg, s0, es, 1), es[1]);
    hide Step, CopyAt, Named, Told, Cooldown;
    CopySlot(cfg, s0, es, start, hs, 1, 7);
    assert LastWrite(hs[1], 7) == Some(Echo(0, 7));
    ToldIsTable(cfg, s0, es[0], 7);
    ReportsDoNotRepair(cfg, s0, es, start, hs, 2, |hs|, 7);
  }

  function TwoReports(later: seq<Event>): seq<Event> {
    var z := Clock(0, 0.0);
    [ReportEv(z, [ReportItem(7, true, None)]), ReportEv(z, [ReportItem(7, false, None)])] + later
  }
}
