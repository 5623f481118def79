/** The first-success race of internal/scheduler/scheduler.go: `DispatchCap` and `DispatchStream` start
    one worker per key, the workers send to a channel of that capacity, and a collector stops at the
    first success. Any number of dispatches run at once over shared in-flight counters. */
module DispatchRace {
  import opened Options

  datatype Outcome = Success | HttpFailure | TransportError

  datatype Attempt = Attempt(worker: nat, outcome: Outcome)

  /** Where a worker is: not started; counted in flight and calling upstream; result sent but still
      counted; finished. */
  datatype Phase = Waiting | Calling | Sent | Done

  datatype Report = Report(key: int, success: bool)

  /** `log` remembers everything ever sent, in channel order. */
  datatype Dispatch = Dispatch(
    keys: seq<int>, stream: bool, phases: seq<Phase>,
    channel: seq<Attempt>, log: seq<Attempt>, received: seq<Attempt>,
    winner: Option<nat>, reports: seq<Report>)

  datatype Race = Race(dispatches: seq<Dispatch>, inflight: map<int, int>)

  function InflightOf(r: Race, key: int): int {
    if key in r.inflight then r.inflight[key] else 0
  }

  predicate Finished(d: Dispatch) {
    d.winner.Some? || |d.received| == |d.keys|
  }

  // ---- The collector ----------------------------------------------------------

  /** DispatchStream reports no transport errors; DispatchCap reports every attempt. */
  predicate Reportable(a: Attempt, stream: bool) {
    !(stream && a.outcome == TransportError)
  }

  function ReportsOf(keys: seq<int>, received: seq<Attempt>, stream: bool): seq<Report>
    requires forall i :: 0 <= i < |received| ==> received[i].worker < |keys|
  {
    if received == [] then []
    else
      var a := received[|received| - 1];
      ReportsOf(keys, received[..|received| - 1], stream)
      + if Reportable(a, stream) then [Report(keys[a.worker], a.outcome == Success)] else []
  }

  /** The worker of the earliest success. */
  function FirstSuccess(log: seq<Attempt>): Option<nat> {
    if log == [] then None
    else if log[0].outcome == Success then Some(log[0].worker)
    else FirstSuccess(log[1..])
  }

  /** The receive loop, on the attempts in the order the channel delivers them. */
  method Collect(keys: seq<int>, stream: bool, arrivals: seq<Attempt>)
    returns (winner: Option<nat>, received: nat, reports: seq<Report>)
    requires |arrivals| == |keys| && forall i :: 0 <= i < |arrivals| ==> arrivals[i].worker < |keys|
    ensures winner == FirstSuccess(arrivals) && received <= |keys|
    ensures winner == None ==> received == |keys|
    ensures winner.Some? ==> received > 0 && arrivals[received - 1] == Attempt(winner.value, Success)
    ensures FirstSuccess(arrivals[..received]) == winner
    ensures forall i :: 0 <= i < received - (if winner.Some? then 1 else 0) ==> arrivals[i].outcome != Success
    ensures reports == ReportsOf(keys, arrivals[..received], stream)
  {
    winner, received, reports := None, 0, [];
    while received < |keys|
      invariant 0 <= received <= |keys| && winner == None
      invariant FirstSuccess(arrivals[..received]) == None
      invariant forall i :: 0 <= i < received ==> arrivals[i].outcome != Success
      invariant FirstSuccess(arrivals) == FirstSuccess(arrivals[received..])
      invariant reports == ReportsOf(keys, arrivals[..received], stream)
    {
      var a := arrivals[received];
      assert arrivals[..received + 1][..received] == arrivals[..received];
      assert arrivals[received..][1..] == arrivals[received + 1..];
      FirstSuccessAppend(arrivals[..received], a);
      assert arrivals[..received] + [a] == arrivals[..received + 1];
      received := received + 1;
      if Reportable(a, stream) {
        reports := reports + [Report(keys[a.worker], a.outcome == Success)];
      }
      if a.outcome == Success {
        winner := Some(a.worker);
        return;
      }
    }
    assert arrivals[..received] == arrivals;
  }

  lemma {:induction false} FirstSuccessAppend(log: seq<Attempt>, a: Attempt)
    ensures FirstSuccess(log + [a])
         == if FirstSuccess(log).Some? then FirstSuccess(log) else if a.outcome == Success then Some(a.worker) else None
  {
    if log == [] {
      assert log + [a] == [a];
    } else {
      FirstSuccessAppend(log[1..], a);
      assert (log + [a])[1..] == log[1..] + [a];
    }
  }

  lemma {:induction false} FirstSuccessPrefix(a: seq<Attempt>, b: seq<Attempt>)
    requires FirstSuccess(a).Some?
    ensures FirstSuccess(a + b) == FirstSuccess(a)
  {
    assert (a + b)[1..] == a[1..] + b;
    if a[0].outcome != Success {
      FirstSuccessPrefix(a[1..], b);
    }
  }

  // ---- Steps ------------------------------------------------------------------

  datatype Step =
    | Launch(keys: seq<int>, stream: bool)
    | Start(d: nat, w: nat)
    | Reply(d: nat, w: nat, outcome: Outcome)
    | Leave(d: nat, w: nat)
    | Receive(d: nat)

  predicate InPhase(r: Race, d: nat, w: nat, p: Phase) {
    d < |r.dispatches| && w < |r.dispatches[d].phases| && r.dispatches[d].phases[w] == p
  }

  /** A send to a full channel would block. */
  predicate Enabled(r: Race, s: Step) {
    match s
    case Launch(keys, _) => |keys| > 0
    case Start(d, w) => InPhase(r, d, w, Waiting)
    case Reply(d, w, _) => InPhase(r, d, w, Calling) && |r.dispatches[d].channel| < |r.dispatches[d].keys|
    case Leave(d, w) => InPhase(r, d, w, Sent)
    case Receive(d) => d < |r.dispatches| && !Finished(r.dispatches[d]) && r.dispatches[d].channel != []
  }

  function Fresh(keys: seq<int>, stream: bool): Dispatch {
    Dispatch(keys, stream, seq(|keys|, _ => Waiting), [], [], [], None, [])
  }

  function Moved(d: Dispatch, w: nat, p: Phase): Dispatch
    requires w < |d.phases|
  {
    d.(phases := d.phases[w := p])
  }

  function Take(d: Dispatch): Dispatch
    requires d.channel != []
  {
    var a := d.channel[0];
    d.(channel := d.channel[1..], received := d.received + [a],
       winner := if a.outcome == Success then Some(a.worker) else d.winner,
       reports := d.reports + if a.worker < |d.keys| && Reportable(a, d.stream)
                              then [Report(d.keys[a.worker], a.outcome == Success)] else [])
  }

  function Apply(r: Race, s: Step): Race
    requires Enabled(r, s)
  {
    match s
    case Launch(keys, stream) => r.(dispatches := r.dispatches + [Fresh(keys, stream)])
    case Start(d, w) => Counted(With(r, d, Moved(r.dispatches[d], w, Calling)), KeyOf(r, d, w), 1)
    case Reply(d, w, outcome) =>
      var x, a := Moved(r.dispatches[d], w, Sent), Attempt(w, outcome);
      r.(dispatches := r.dispatches[d := x.(channel := x.channel + [a], log := x.log + [a])])
    case Leave(d, w) => Counted(With(r, d, Moved(r.dispatches[d], w, Done)), KeyOf(r, d, w), -1)
    case Receive(d) => r.(dispatches := r.dispatches[d := Take(r.dispatches[d])])
  }

  function With(r: Race, d: nat, x: Dispatch): Race
    requires d < |r.dispatches|
  {
    r.(dispatches := r.dispatches[d := x])
  }

  function KeyOf(r: Race, d: nat, w: nat): int
    requires d < |r.dispatches|
  {
    if w < |r.dispatches[d].keys| then r.dispatches[d].keys[w] else 0
  }

  /** `inflightDelta`. */
  function Counted(r: Race, key: int, delta: int): Race {
    r.(inflight := r.inflight[key := InflightOf(r, key) + delta])
  }

  // ---- Invariant of one dispatch ----------------------------------------------

  function SentCount(phases: seq<Phase>): (n: nat)
    ensures n <= |phases|
  {
    if phases == [] then 0
    else SentCount(phases[1..]) + if phases[0] == Sent || phases[0] == Done then 1 else 0
  }

  predicate HasSent(d: Dispatch, w: nat) {
    w < |d.keys| && w < |d.phases| && (d.phases[w] == Sent || d.phases[w] == Done)
  }

  /** What the collector knows: the winner, and the reports of what it has received. */
  predicate Collected(keys: seq<int>, stream: bool, received: seq<Attempt>, winner: Option<nat>, reports: seq<Report>) {
    && (forall i :: 0 <= i < |received| ==> received[i].worker < |keys|)
    && winner == FirstSuccess(received)
    && (forall i :: 0 <= i < |received| - 1 ==> received[i].outcome != Success)
    && (winner == None ==> forall i :: 0 <= i < |received| ==> received[i].outcome != Success)
    && reports == ReportsOf(keys, received, stream)
  }

  predicate Consistent(d: Dispatch) {
    && |d.phases| == |d.keys|
    && d.log == d.received + d.channel
    && |d.log| == SentCount(d.phases)
    && (forall i :: 0 <= i < |d.log| ==> HasSent(d, d.log[i].worker))
    && (forall i, j :: 0 <= i < j < |d.log| ==> d.log[i].worker != d.log[j].worker)
    && Collected(d.keys, d.stream, d.received, d.winner, d.reports)
  }

  lemma {:induction false} SentCountUpdate(phases: seq<Phase>, w: nat, p: Phase)
    requires w < |phases|
    ensures SentCount(phases[w := p]) + (if phases[w] == Sent || phases[w] == Done then 1 else 0)
         == SentCount(phases) + (if p == Sent || p == Done then 1 else 0)
  {
    if w > 0 {
      SentCountUpdate(phases[1..], w - 1, p);
      assert phases[w := p][1..] == phases[1..][w - 1 := p];
    } else {
      assert phases[w := p][1..] == phases[1..];
    }
  }

  lemma {:induction false} SentCountRoom(phases: seq<Phase>, w: nat)
    requires w < |phases| && (phases[w] == Waiting || phases[w] == Calling)
    ensures SentCount(phases) < |phases|
  {
    if w > 0 {
      SentCountRoom(phases[1..], w - 1);
    }
  }

  lemma {:induction false} SomeoneUnsent(phases: seq<Phase>) returns (w: nat)
    requires SentCount(phases) < |phases|
    ensures w < |phases| && (phases[w] == Waiting || phases[w] == Calling)
  {
    if phases[0] == Waiting || phases[0] == Calling {
      w := 0;
    } else {
      w := SomeoneUnsent(phases[1..]);
      w := w + 1;
    }
  }

  lemma {:induction false} NobodySent(n: nat)
    ensures SentCount(seq(n, _ => Waiting)) == 0
  {
    if n > 0 {
      NobodySent(n - 1);
      assert seq(n, _ => Waiting)[1..] == seq(n - 1, _ => Waiting);
    }
  }

  lemma ReplyConsistent(d: Dispatch, w: nat, outcome: Outcome)
    requires Consistent(d) && w < |d.phases| && d.phases[w] == Calling
    ensures var x := Moved(d, w, Sent);
            Consistent(x.(channel := x.channel + [Attempt(w, outcome)], log := x.log + [Attempt(w, outcome)]))
  {
    SentCountUpdate(d.phases, w, Sent);
    hide ReportsOf, FirstSuccess, SentCount;
  }

  lemma CollectedStep(keys: seq<int>, stream: bool, received: seq<Attempt>, reports: seq<Report>, a: Attempt)
    requires Collected(keys, stream, received, None, reports) && a.worker < |keys|
    ensures Collected(keys, stream, received + [a], if a.outcome == Success then Some(a.worker) else None,
                      reports + if Reportable(a, stream) then [Report(keys[a.worker], a.outcome == Success)] else [])
  {
    FirstSuccessAppend(received, a);
    assert (received + [a])[..|received|] == received;
    hide FirstSuccess, Reportable;
  }

  lemma TakeConsistent(d: Dispatch)
    requires Consistent(d) && !Finished(d) && d.channel != []
    ensures Consistent(Take(d))
  {
    var a := d.channel[0];
    assert d.log[|d.received|] == a;
    CollectedStep(d.keys, d.stream, d.received, d.reports, a);
    hide FirstSuccess, SentCount, ReportsOf, Reportable, Collected;
  }

  lemma MoveConsistent(d: Dispatch, w: nat, p: Phase)
    requires Consistent(d) && w < |d.phases|
    requires (d.phases[w] == Waiting && p == Calling) || (d.phases[w] == Sent && p == Done)
    ensures Consistent(Moved(d, w, p))
  {
    SentCountUpdate(d.phases, w, p);
    hide SentCount, ReportsOf, FirstSuccess;
  }

  lemma FreshConsistent(keys: seq<int>, stream: bool)
    ensures Consistent(Fresh(keys, stream))
  {
    NobodySent(|keys|);
    hide SentCount;
  }

  lemma StepConsistent(r: Race, s: Step)
    requires Enabled(r, s) && forall d :: 0 <= d < |r.dispatches| ==> Consistent(r.dispatches[d])
    ensures forall d :: 0 <= d < |Apply(r, s).dispatches| ==> Consistent(Apply(r, s).dispatches[d])
  {
    match s
    case Launch(keys, stream) => FreshConsistent(keys, stream); hide Consistent, Fresh;
    case Start(d, w) => MoveConsistent(r.dispatches[d], w, Calling); hide Consistent, Moved;
    case Reply(d, w, outcome) => ReplyConsistent(r.dispatches[d], w, outcome); hide Consistent, Moved;
    case Leave(d, w) => MoveConsistent(r.dispatches[d], w, Done); hide Consistent, Moved;
    case Receive(d) => TakeConsistent(r.dispatches[d]); hide Consistent, Take;
  }

  // ---- In-flight counters -----------------------------------------------------

  /** The workers of one dispatch that are counted in flight for `key`. */
  function Busy(keys: seq<int>, phases: seq<Phase>, key: int): (n: nat)
    requires |keys| == |phases|
  {
    if keys == [] then 0
    else Busy(keys[1..], phases[1..], key)
         + if keys[0] == key && (phases[0] == Calling || phases[0] == Sent) then 1 else 0
  }

  function BusyAll(ds: seq<Dispatch>, key: int): nat
    requires forall d :: 0 <= d < |ds| ==> |ds[d].keys| == |ds[d].phases|
  {
    if ds == [] then 0 else Busy(ds[0].keys, ds[0].phases, key) + BusyAll(ds[1..], key)
  }

  function Weight(p: Phase): nat {
    if p == Calling || p == Sent then 1 else 0
  }

  lemma {:induction false} BusyUpdate(keys: seq<int>, phases: seq<Phase>, w: nat, p: Phase, key: int)
    requires w < |keys| == |phases|
    ensures Busy(keys, phases[w := p], key)
         == Busy(keys, phases, key) + if keys[w] == key then Weight(p) - Weight(phases[w]) else 0
  {
    if w > 0 {
      BusyUpdate(keys[1..], phases[1..], w - 1, p, key);
      assert phases[w := p][1..] == phases[1..][w - 1 := p];
    } else {
      assert phases[w := p][1..] == phases[1..];
    }
  }

  lemma {:induction false} BusyAllUpdate(ds: seq<Dispatch>, d: nat, x: Dispatch, key: int)
    requires d < |ds| && forall i :: 0 <= i < |ds| ==> |ds[i].keys| == |ds[i].phases|
    requires |x.keys| == |x.phases|
    ensures BusyAll(ds[d := x], key)
         == BusyAll(ds, key) + Busy(x.keys, x.phases, key) - Busy(ds[d].keys, ds[d].phases, key)
  {
    if d > 0 {
      BusyAllUpdate(ds[1..], d - 1, x, key);
      assert ds[d := x][1..] == ds[1..][d - 1 := x];
    } else {
      assert ds[d := x][1..] == ds[1..];
    }
  }

  lemma {:induction false} BusyAllAppend(ds: seq<Dispatch>, x: Dispatch, key: int)
    requires forall i :: 0 <= i < |ds| ==> |ds[i].keys| == |ds[i].phases|
    requires |x.keys| == |x.phases|
    ensures BusyAll(ds + [x], key) == BusyAll(ds, key) + Busy(x.keys, x.phases, key)
  {
    if ds == [] {
      assert ds + [x] == [x] && [x][1..] == [];
    } else {
      BusyAllAppend(ds[1..], x, key);
      assert (ds + [x])[1..] == ds[1..] + [x];
    }
  }

  lemma {:induction false} NobodyBusy(keys: seq<int>, phases: seq<Phase>, key: int)
    requires |keys| == |phases| && forall w :: 0 <= w < |phases| ==> phases[w] == Waiting || phases[w] == Done
    ensures Busy(keys, phases, key) == 0
  {
    if keys != [] {
      NobodyBusy(keys[1..], phases[1..], key);
    }
  }

  predicate WellFormed(r: Race) {
    forall d :: 0 <= d < |r.dispatches| ==> Consistent(r.dispatches[d])
  }

  /** Moving one worker changes the count of its own key only, by the change of its weight. */
  lemma MoveCounts(ds: seq<Dispatch>, d: nat, w: nat, x: Dispatch, key: int)
    requires d < |ds| && forall i :: 0 <= i < |ds| ==> |ds[i].keys| == |ds[i].phases|
    requires w < |ds[d].phases| && x.keys == ds[d].keys && |x.phases| == |ds[d].phases|
    requires x.phases == ds[d].phases[w := x.phases[w]]
    ensures BusyAll(ds[d := x], key)
         == BusyAll(ds, key) + if ds[d].keys[w] == key then Weight(x.phases[w]) - Weight(ds[d].phases[w]) else 0
  {
    BusyUpdate(ds[d].keys, ds[d].phases, w, x.phases[w], key);
    BusyAllUpdate(ds, d, x, key);
    hide Busy, BusyAll;
  }

  predicate Sized(ds: seq<Dispatch>) {
    forall d :: 0 <= d < |ds| ==> |ds[d].keys| == |ds[d].phases|
  }

  /** The phase step `s` moves its worker to, if it moves one. */
  function Target(s: Step): Phase {
    match s case Start(_, _) => Calling case Reply(_, _, _) => Sent case _ => Done
  }

  lemma MoveStepCounts(r: Race, s: Step, key: int)
    requires Enabled(r, s) && Sized(r.dispatches) && !s.Launch? && !s.Receive?
    requires InflightOf(r, key) == BusyAll(r.dispatches, key)
    ensures Sized(Apply(r, s).dispatches)
    ensures InflightOf(Apply(r, s), key) == BusyAll(Apply(r, s).dispatches, key)
  {
    var x := Apply(r, s).dispatches[s.d];
    assert x.phases == r.dispatches[s.d].phases[s.w := Target(s)] && x.keys == r.dispatches[s.d].keys;
    assert Apply(r, s).dispatches == r.dispatches[s.d := x];
    hide Busy, BusyAll, Moved;
    MoveCounts(r.dispatches, s.d, s.w, x, key);
  }

  lemma StepCounts(r: Race, s: Step, key: int)
    requires Enabled(r, s) && WellFormed(r) && InflightOf(r, key) == BusyAll(r.dispatches, key)
    ensures WellFormed(Apply(r, s))
    ensures InflightOf(Apply(r, s), key) == BusyAll(Apply(r, s).dispatches, key)
  {
    StepConsistent(r, s);
    Sizes(r);
    Sizes(Apply(r, s));
    hide Consistent, Busy, BusyAll, WellFormed;
    var ds := r.dispatches;
    match s
    case Launch(keys, stream) =>
      NobodyBusy(keys, Fresh(keys, stream).phases, key);
      BusyAllAppend(ds, Fresh(keys, stream), key);
    case Receive(d) =>
      BusyAllUpdate(ds, d, Take(ds[d]), key);
    case _ =>
      assert !s.Launch? && !s.Receive?;
      MoveStepCounts(r, s, key);
  }

  lemma Sizes(r: Race)
    requires WellFormed(r)
    ensures forall d :: 0 <= d < |r.dispatches| ==> |r.dispatches[d].keys| == |r.dispatches[d].phases|
  {
  }

  // ---- Runs -------------------------------------------------------------------

  predicate Legal(r: Race, steps: seq<Step>)
    decreases |steps|
  {
    steps == [] || (Enabled(r, steps[0]) && Legal(Apply(r, steps[0]), steps[1..]))
  }

  function After(r: Race, steps: seq<Step>): Race
    requires Legal(r, steps)
    decreases |steps|
  {
    if steps == [] then r else After(Apply(r, steps[0]), steps[1..])
  }

  /** In every reachable state each per-key counter is the number of workers between their increment
      and their decrement, over all dispatches running at once. */
  lemma {:induction false} CountersExact(r: Race, steps: seq<Step>, key: int)
    requires Legal(r, steps) && WellFormed(r) && InflightOf(r, key) == BusyAll(r.dispatches, key)
    ensures WellFormed(After(r, steps))
    ensures InflightOf(After(r, steps), key) == BusyAll(After(r, steps).dispatches, key)
    decreases |steps|
  {
    if steps != [] {
      hide Enabled, Apply, WellFormed;
      StepCounts(r, steps[0], key);
      CountersExact(Apply(r, steps[0]), steps[1..], key);
    }
  }

  predicate Quiet(r: Race) {
    forall d, w :: 0 <= d < |r.dispatches| && 0 <= w < |r.dispatches[d].phases| ==>
      r.dispatches[d].phases[w] == Waiting || r.dispatches[d].phases[w] == Done
  }

  lemma {:induction false} QuietSum(ds: seq<Dispatch>, key: int)
    requires forall d :: 0 <= d < |ds| ==> |ds[d].keys| == |ds[d].phases|
    requires forall d, w :: 0 <= d < |ds| && 0 <= w < |ds[d].phases| ==>
      ds[d].phases[w] == Waiting || ds[d].phases[w] == Done
    ensures BusyAll(ds, key) == 0
  {
    if ds != [] {
      NobodyBusy(ds[0].keys, ds[0].phases, key);
      QuietSum(ds[1..], key);
    }
  }

  /** So every counter is back at zero whenever no worker is under way. */
  lemma QuietMeansZero(steps: seq<Step>, key: int)
    requires Legal(Race([], map[]), steps) && Quiet(After(Race([], map[]), steps))
    ensures InflightOf(After(Race([], map[]), steps), key) == 0
  {
    CountersExact(Race([], map[]), steps, key);
    Sizes(After(Race([], map[]), steps));
    QuietSum(After(Race([], map[]), steps).dispatches, key);
  }

  /** No worker ever blocks on its send, although the collector may long have stopped receiving. */
  lemma SendNeverBlocks(r: Race, d: nat, w: nat, outcome: Outcome)
    requires WellFormed(r) && InPhase(r, d, w, Calling)
    ensures Enabled(r, Reply(d, w, outcome))
  {
    SentCountRoom(r.dispatches[d].phases, w);
  }

  /** The outcome of a finished dispatch: the winner is the earliest success in channel order, also
      counting what was never received; without a winner all attempts were received and failed.
      A success is the last thing received, so at most one is reported; `DispatchCap` reports exactly
      one item for each received attempt, in order. */
  lemma OutcomeIsFirstSuccess(r: Race, d: nat)
    requires WellFormed(r) && d < |r.dispatches| && Finished(r.dispatches[d])
    ensures var x := r.dispatches[d];
            && |x.received| <= |x.keys|
            && (match x.winner
                case None => forall i :: 0 <= i < |x.log| ==> x.log[i].outcome != Success
                case Some(w) =>
                  |x.received| > 0 && x.log[|x.received| - 1] == Attempt(w, Success)
                  && forall i :: 0 <= i < |x.received| - 1 ==> x.log[i].outcome != Success)
            && (x.winner == None ==> |x.received| == |x.keys| && forall i :: 0 <= i < |x.received| ==>
              x.received[i].outcome != Success)
            && (forall i, j :: 0 <= i < j < |x.reports| ==> !x.reports[i].success || !x.reports[j].success)
            && (!x.stream ==> |x.reports| == |x.received| && forall i :: 0 <= i < |x.received| ==>
                  x.received[i].worker < |x.keys|
                    && x.reports[i] == Report(x.keys[x.received[i].worker], x.received[i].outcome == Success))
  {
    var x := r.dispatches[d];
    ReportsShape(x.keys, x.received, x.stream);
    FinishedOutcome(x);
    hide FirstSuccess, ReportsOf, SentCount;
  }

  lemma FinishedOutcome(x: Dispatch)
    requires Consistent(x) && Finished(x)
    ensures |x.received| <= |x.keys|
    ensures match x.winner
            case None => |x.received| == |x.keys| && x.log == x.received
            case Some(w) => |x.received| > 0 && x.log[|x.received| - 1] == Attempt(w, Success)
    ensures forall i :: 0 <= i < |x.received| ==> x.received[i] == x.log[i]
  {
    if x.winner == None {
      assert |x.log| <= |x.keys| && x.channel == [];
    } else {
      FirstSuccessIsLast(x.received);
    }
    hide ReportsOf, FirstSuccess;
  }

  lemma {:induction false} FirstSuccessIsLast(received: seq<Attempt>)
    requires FirstSuccess(received).Some?
    requires forall i :: 0 <= i < |received| - 1 ==> received[i].outcome != Success
    ensures |received| > 0 && received[|received| - 1] == Attempt(FirstSuccess(received).value, Success)
  {
    if received[0].outcome != Success {
      FirstSuccessIsLast(received[1..]);
    }
  }

  /** A stream reports one item for each received attempt if and only if none was a transport error. */
  lemma StreamReportsIff(r: Race, d: nat)
    requires WellFormed(r) && d < |r.dispatches|
    ensures var x := r.dispatches[d];
            |x.reports| == |x.received|
            <==> !x.stream || forall i :: 0 <= i < |x.received| ==> x.received[i].outcome != TransportError
  {
    var x := r.dispatches[d];
    ReportsMissing(x.keys, x.received, x.stream);
  }

  lemma {:induction false} ReportsMissing(keys: seq<int>, received: seq<Attempt>, stream: bool)
    requires forall i :: 0 <= i < |received| ==> received[i].worker < |keys|
    ensures |ReportsOf(keys, received, stream)| <= |received|
    ensures |ReportsOf(keys, received, stream)| == |received|
       <==> !stream || forall i :: 0 <= i < |received| ==> received[i].outcome != TransportError
  {
    if received != [] {
      ReportsMissing(keys, received[..|received| - 1], stream);
    }
  }

  /** The attempts among the first `n` that a dispatch does not report: a stream's transport errors. */
  function Unreported(received: seq<Attempt>, stream: bool, n: nat): (k: nat)
    requires n <= |received|
    ensures k <= n
  {
    if n == 0 then 0
    else Unreported(received, stream, n - 1) + if stream && received[n - 1].outcome == TransportError then 1 else 0
  }

  /** The reports, one by one: every received attempt but those has its item, in order, with its worker's
      key and whether it succeeded, and there are no other items. */
  lemma ReportsExactly(r: Race, d: nat)
    requires WellFormed(r) && d < |r.dispatches|
    ensures var x := r.dispatches[d];
            && |x.reports| == |x.received| - Unreported(x.received, x.stream, |x.received|)
            && forall i :: 0 <= i < |x.received| && !(x.stream && x.received[i].outcome == TransportError) ==>
                 ReportedAt(x.reports, i - Unreported(x.received, x.stream, i), x.keys, x.received[i])
  {
    var x := r.dispatches[d];
    assert Consistent(x);
    hide ReportsOf, Unreported, ReportedAt, SentCount, FirstSuccess;
    ReportCount(x.keys, x.received, x.stream);
    forall i | 0 <= i < |x.received| && !(x.stream && x.received[i].outcome == TransportError)
      ensures ReportedAt(x.reports, i - Unreported(x.received, x.stream, i), x.keys, x.received[i])
    {
      ReportPosition(x.keys, x.received, x.stream, i);
    }
  }

  predicate ReportedAt(reports: seq<Report>, k: nat, keys: seq<int>, a: Attempt) {
    k < |reports| && a.worker < |keys| && reports[k] == Report(keys[a.worker], a.outcome == Success)
  }

  lemma {:induction false} ReportCount(keys: seq<int>, received: seq<Attempt>, stream: bool)
    requires forall i :: 0 <= i < |received| ==> received[i].worker < |keys|
    ensures |ReportsOf(keys, received, stream)| == |received| - Unreported(received, stream, |received|)
  {
    if received != [] {
      var n := |received| - 1;
      ReportCount(keys, received[..n], stream);
      SamePrefixUnreported(received, stream, n);
      LastReported(keys, received, stream);
      hide ReportsOf, Unreported;
    }
  }

  lemma {:induction false} ReportPosition(keys: seq<int>, received: seq<Attempt>, stream: bool, i: nat)
    requires forall j :: 0 <= j < |received| ==> received[j].worker < |keys|
    requires i < |received| && !(stream && received[i].outcome == TransportError)
    ensures ReportedAt(ReportsOf(keys, received, stream), i - Unreported(received, stream, i), keys, received[i])
  {
    var n := |received| - 1;
    var pre := received[..n];
    LastReported(keys, received, stream);
    SamePrefixUnreported(received, stream, i);
    if i < n {
      ReportPosition(keys, pre, stream, i);
    } else {
      ReportCount(keys, pre, stream);
    }
    hide ReportsOf, Unreported;
  }

  lemma LastReported(keys: seq<int>, received: seq<Attempt>, stream: bool)
    requires received != [] && forall i :: 0 <= i < |received| ==> received[i].worker < |keys|
    ensures var n, a := |received| - 1, received[|received| - 1];
            var left := stream && a.outcome == TransportError;
            && ReportsOf(keys, received, stream) == ReportsOf(keys, received[..n], stream)
                 + (if left then [] else [Report(keys[a.worker], a.outcome == Success)])
            && Unreported(received, stream, |received|) == Unreported(received, stream, n) + if left then 1 else 0
  {
  }

  lemma {:induction false} SamePrefixUnreported(received: seq<Attempt>, stream: bool, i: nat)
    requires i < |received|
    ensures Unreported(received[..|received| - 1], stream, i) == Unreported(received, stream, i)
  {
    if i > 0 {
      SamePrefixUnreported(received, stream, i - 1);
    }
  }

  lemma {:induction false} ReportsShape(keys: seq<int>, received: seq<Attempt>, stream: bool)
    requires forall i :: 0 <= i < |received| ==> received[i].worker < |keys|
    requires forall i :: 0 <= i < |received| - 1 ==> received[i].outcome != Success
    ensures var reports := ReportsOf(keys, received, stream);
            && |reports| <= |received|
            && (forall i :: 0 <= i < |reports| - 1 ==> !reports[i].success)
            && (|reports| > 0 && reports[|reports| - 1].success ==> received[|received| - 1].outcome == Success)
            && (!stream ==> |reports| == |received| && forall i :: 0 <= i < |received| ==>
                  reports[i] == Report(keys[received[i].worker], received[i].outcome == Success))
  {
    if received != [] {
      ReportsShape(keys, received[..|received| - 1], stream);
    }
  }

  // ---- Termination ------------------------------------------------------------

  function Left(p: Phase): nat {
    match p case Waiting => 3 case Calling => 2 case Sent => 1 case Done => 0
  }

  function Work(phases: seq<Phase>): nat {
    if phases == [] then 0 else Left(phases[0]) + Work(phases[1..])
  }

  /** Steps a dispatch can still take. */
  function Remaining(d: Dispatch): int {
    Work(d.phases) + |d.keys| - |d.received|
  }

  lemma {:induction false} WorkUpdate(phases: seq<Phase>, w: nat, p: Phase)
    requires w < |phases|
    ensures Work(phases[w := p]) == Work(phases) - Left(phases[w]) + Left(p)
  {
    if w > 0 {
      WorkUpdate(phases[1..], w - 1, p);
      assert phases[w := p][1..] == phases[1..][w - 1 := p];
    } else {
      assert phases[w := p][1..] == phases[1..];
    }
  }

  /** Every step of a dispatch uses up one of at most four per key. */
  lemma StepUsesWork(r: Race, s: Step)
    requires Enabled(r, s) && WellFormed(r) && !s.Launch?
    ensures Remaining(Apply(r, s).dispatches[s.d]) == Remaining(r.dispatches[s.d]) - 1
    ensures Remaining(r.dispatches[s.d]) >= 1
  {
    var phases := r.dispatches[s.d].phases;
    match s
    case Start(d, w) => WorkUpdate(phases, w, Calling); WorkAtLeast(phases, w);
    case Reply(d, w, _) => WorkUpdate(phases, w, Sent); WorkAtLeast(phases, w);
    case Leave(d, w) => WorkUpdate(phases, w, Done); WorkAtLeast(phases, w);
    case Receive(d) =>
  }

  lemma {:induction false} WorkAtLeast(phases: seq<Phase>, w: nat)
    requires w < |phases|
    ensures Work(phases) >= Left(phases[w])
  {
    if w > 0 {
      WorkAtLeast(phases[1..], w - 1);
    }
  }

  /** And an unfinished dispatch can always take one: the collector never waits for nothing. */
  lemma UnfinishedCanStep(r: Race, d: nat) returns (s: Step)
    requires WellFormed(r) && d < |r.dispatches| && !Finished(r.dispatches[d])
    ensures !s.Launch? && s.d == d && Enabled(r, s)
  {
    var x := r.dispatches[d];
    if x.channel != [] {
      s := Receive(d);
    } else {
      assert x.log == x.received;
      var w := SomeoneUnsent(x.phases);
      if x.phases[w] == Waiting {
        s := Start(d, w);
      } else {
        s := Reply(d, w, HttpFailure);
        SendNeverBlocks(r, d, w, HttpFailure);
      }
    }
  }
}
