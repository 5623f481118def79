/** Sliding success windows and consecutive-failure counters: kernel-rs/src/state.rs and
    internal/ratelimit/sliding.go. */
module HealthWindows {

  datatype Entry = Entry(ts: real, ok: bool)

  /** The longest prefix older than `cutoff` is dropped. */
  function Evict(entries: seq<Entry>, cutoff: real): (r: seq<Entry>)
    ensures |r| <= |entries|
  {
    if entries != [] && entries[0].ts < cutoff then Evict(entries[1..], cutoff) else entries
  }

  function Recorded(entries: seq<Entry>, window: real, t: real, ok: bool): seq<Entry> {
    Evict(entries + [Entry(t, ok)], t - window)
  }

  function Successes(entries: seq<Entry>): (n: nat)
    ensures n <= |entries|
  {
    if entries == [] then 0
    else Successes(entries[..|entries| - 1]) + (if entries[|entries| - 1].ok then 1 else 0)
  }

  /** Success rate in percent; no traffic counts as 0. */
  function Rate(entries: seq<Entry>): real {
    if entries == [] then 0.0 else 100.0 * Successes(entries) as real / |entries| as real
  }

  class SlidingWindow {
    const window: real
    var entries: seq<Entry>

    constructor (window: real)
      ensures this.window == window && entries == []
    {
      this.window := window;
      entries := [];
    }

    method EvictNow(t: real)
      modifies this
      ensures entries == Evict(old(entries), t - window)
    {
      var cutoff := t - window;
      var i := 0;
      while i < |entries| && entries[i].ts < cutoff
        invariant 0 <= i <= |entries|
        invariant Evict(entries, cutoff) == Evict(entries[i..], cutoff)
      {
        assert entries[i..][1..] == entries[i + 1..];
        i := i + 1;
      }
      entries := entries[i..];
    }

    method Record(ok: bool, t: real)
      modifies this
      ensures entries == Recorded(old(entries), window, t, ok)
    {
      entries := entries + [Entry(t, ok)];
      EvictNow(t);
    }

    method SuccessRate(t: real) returns (rate: real)
      modifies this
      ensures entries == Evict(old(entries), t - window) && rate == Rate(entries)
      ensures entries == [] ==> rate == 0.0
      ensures rate * |entries| as real == 100.0 * Ok(entries) as real
    {
      EvictNow(t);
      var total := |entries|;
      var success := 0;
      var i := 0;
      while i < total
        invariant 0 <= i <= total && success == Successes(entries[..i])
      {
        assert entries[..i + 1][..i] == entries[..i];
        if entries[i].ok {
          success := success + 1;
        }
        i := i + 1;
      }
      assert entries[..total] == entries;
      SuccessesAreOk(entries);
      rate := if total > 0 then 100.0 * success as real / total as real else 0.0;
    }
  }

  /** How many of the entries since `cutoff` are successes, and how many there are: counted by position. */
  ghost function OkSince(entries: seq<Entry>, cutoff: real): nat {
    |set i: nat | i < |entries| && entries[i].ts >= cutoff && entries[i].ok|
  }

  ghost function AllSince(entries: seq<Entry>, cutoff: real): nat {
    |set i: nat | i < |entries| && entries[i].ts >= cutoff|
  }

  ghost function Ok(entries: seq<Entry>): nat {
    |set i: nat | i < |entries| && entries[i].ok|
  }

  lemma {:induction false} SuccessesAreOk(entries: seq<Entry>)
    ensures Successes(entries) == Ok(entries)
  {
    var now := set i: nat | i < |entries| && entries[i].ok;
    if entries == [] {
      assert now == {};
    } else {
      var n := |entries| - 1;
      SuccessesAreOk(entries[..n]);
      var before := set i: nat | i < n && entries[..n][i].ok;
      assert now == before + if entries[n].ok then {n} else {};
    }
  }

  lemma OneMoreAll(entries: seq<Entry>, cutoff: real)
    requires entries != []
    ensures AllSince(entries, cutoff)
         == AllSince(entries[..|entries| - 1], cutoff) + if entries[|entries| - 1].ts >= cutoff then 1 else 0
  {
    var n := |entries| - 1;
    var before := set i: nat | i < n && entries[..n][i].ts >= cutoff;
    var now := set i: nat | i < |entries| && entries[i].ts >= cutoff;
    assert now == before + if entries[n].ts >= cutoff then {n} else {};
  }

  lemma OneMoreOk(entries: seq<Entry>, cutoff: real)
    requires entries != []
    ensures var last := entries[|entries| - 1];
            OkSince(entries, cutoff)
              == OkSince(entries[..|entries| - 1], cutoff) + if last.ts >= cutoff && last.ok then 1 else 0
  {
    var n := |entries| - 1;
    var before := set i: nat | i < n && entries[..n][i].ts >= cutoff && entries[..n][i].ok;
    var now := set i: nat | i < |entries| && entries[i].ts >= cutoff && entries[i].ok;
    assert now == before + if entries[n].ts >= cutoff && entries[n].ok then {n} else {};
  }

  lemma {:induction false} SinceCounts(entries: seq<Entry>, cutoff: real)
    ensures |Since(entries, cutoff)| == AllSince(entries, cutoff)
    ensures Successes(Since(entries, cutoff)) == OkSince(entries, cutoff)
  {
    if entries != [] {
      var pre, e := entries[..|entries| - 1], entries[|entries| - 1];
      SinceCounts(pre, cutoff);
      OneMoreAll(entries, cutoff);
      OneMoreOk(entries, cutoff);
      hide AllSince, OkSince;
      var s := Since(pre, cutoff);
      assert (s + [e])[..|s|] == s;
    }
  }

  /** The success rate, exactly: the percentage that the successes since `cutoff` make up of the entries
      since then, and 0 without any. */
  lemma RateIsFraction(entries: seq<Entry>, cutoff: real)
    ensures var n := AllSince(entries, cutoff);
            && (n == 0 ==> Rate(Since(entries, cutoff)) == 0.0)
            && (n > 0 ==> Rate(Since(entries, cutoff)) * n as real == 100.0 * OkSince(entries, cutoff) as real)
  {
    SinceCounts(entries, cutoff);
  }

  lemma RateBounds(entries: seq<Entry>)
    ensures 0.0 <= Rate(entries) <= 100.0
    ensures entries != [] ==> (Rate(entries) == 100.0 <==> Successes(entries) == |entries|)
  {
    if entries != [] {
      var s, n := Successes(entries) as real, |entries| as real;
      assert 0.0 <= s <= n && n > 0.0;
      Fraction(s, n);
    }
  }

  lemma Fraction(s: real, n: real)
    requires 0.0 <= s <= n && n > 0.0
    ensures 0.0 <= 100.0 * s / n <= 100.0 && (100.0 * s / n == 100.0 <==> s == n)
  {
    var q := 100.0 * s / n;
    assert q * n == 100.0 * s;
    assert q > 100.0 ==> q * n > 100.0 * n;
    assert q < 0.0 ==> q * n < 0.0;
  }

  // ---- The window refines the full history ------------------------------------

  datatype Call = Record(t: real, ok: bool) | Stat(t: real)

  function Stored(entries: seq<Entry>, window: real, calls: seq<Call>): seq<Entry>
    decreases |calls|
  {
    if calls == [] then entries
    else
      var before, c := Stored(entries, window, calls[..|calls| - 1]), calls[|calls| - 1];
      match c
      case Record(t, ok) => Recorded(before, window, t, ok)
      case Stat(t) => Evict(before, t - window)
  }

  /** Everything ever recorded, never evicted. */
  function History(calls: seq<Call>): seq<Entry>
    decreases |calls|
  {
    if calls == [] then []
    else
      var before, c := History(calls[..|calls| - 1]), calls[|calls| - 1];
      if c.Record? then before + [Entry(c.t, c.ok)] else before
  }

  function Since(entries: seq<Entry>, cutoff: real): seq<Entry> {
    if entries == [] then []
    else
      var before, e := Since(entries[..|entries| - 1], cutoff), entries[|entries| - 1];
      if e.ts >= cutoff then before + [e] else before
  }

  predicate Sorted(entries: seq<Entry>) {
    forall i, j :: 0 <= i < j < |entries| ==> entries[i].ts <= entries[j].ts
  }

  predicate MonotoneCalls(calls: seq<Call>) {
    forall i, j :: 0 <= i < j < |calls| ==> calls[i].t <= calls[j].t
  }

  /** On entries in order of time, that part is a suffix: everything since `cutoff` and nothing before. */
  lemma SinceIsSuffix(entries: seq<Entry>, cutoff: real)
    requires Sorted(entries)
    ensures exists k: nat :: k <= |entries| && SplitAt(entries, k, cutoff) && Since(entries, cutoff) == entries[k..]
  {
    var k := EvictSplits(entries, cutoff);
    EvictIsSince(entries, cutoff);
    hide Sorted;
    assert SplitAt(entries, k, cutoff);
  }

  predicate SplitAt(entries: seq<Entry>, k: nat, cutoff: real)
    requires k <= |entries|
  {
    && (forall i :: 0 <= i < k ==> entries[i].ts < cutoff)
    && (forall i :: k <= i < |entries| ==> entries[i].ts >= cutoff)
  }

  lemma {:induction false} EvictSplits(entries: seq<Entry>, cutoff: real) returns (k: nat)
    requires Sorted(entries)
    ensures k <= |entries| && SplitAt(entries, k, cutoff) && Evict(entries, cutoff) == entries[k..]
  {
    if entries != [] && entries[0].ts < cutoff {
      k := EvictSplits(entries[1..], cutoff);
      assert forall i :: 0 < i < |entries| ==> entries[i] == entries[1..][i - 1];
      k := k + 1;
    } else {
      k := 0;
    }
  }

  /** After any run of calls with a non-decreasing clock, what is stored is exactly the part of
      the full history that lies inside the window of the last call. */
  lemma {:induction false} WindowIsRecentHistory(window: real, calls: seq<Call>)
    requires window >= 0.0 && calls != [] && MonotoneCalls(calls)
    ensures Stored([], window, calls) == Since(History(calls), calls[|calls| - 1].t - window)
    ensures var h, cutoff := History(calls), calls[|calls| - 1].t - window;
            exists k: nat :: k <= |h| && SplitAt(h, k, cutoff) && Stored([], window, calls) == h[k..]
    ensures Sorted(History(calls))
    ensures forall e :: e in History(calls) ==> e.ts <= calls[|calls| - 1].t
    decreases |calls|
  {
    hide Recorded, Since, Evict, SplitAt;
    var pre, c := calls[..|calls| - 1], calls[|calls| - 1];
    if pre == [] {
      SinceNothing(c.t - window);
      StepKeepsRecent([], window, c, c.t - window);
    } else {
      WindowIsRecentHistory(window, pre);
      StepKeepsRecent(History(pre), window, c, pre[|pre| - 1].t - window);
    }
    hide History;
    assert Sorted(History(calls));
    SinceIsSuffix(History(calls), c.t - window);
  }

  /** One more call, made at or after the previous one. */
  lemma StepKeepsRecent(h: seq<Entry>, window: real, c: Call, previous: real)
    requires window >= 0.0 && Sorted(h) && previous <= c.t - window
    requires forall e :: e in h ==> e.ts <= c.t
    ensures c.Stat? ==> Evict(Since(h, previous), c.t - window) == Since(h, c.t - window)
    ensures c.Record? ==> Recorded(Since(h, previous), window, c.t, c.ok) == Since(h + [Entry(c.t, c.ok)], c.t - window)
  {
    hide Since, Sorted;
    var kept, cutoff := Since(h, previous), c.t - window;
    SinceTwice(h, previous, cutoff);
    SinceSorted(h, previous);
    SinceMembers(h, previous);
    if c.Stat? {
      EvictIsSince(kept, cutoff);
    } else {
      hide Evict;
      var e := Entry(c.t, c.ok);
      SortedAppend(kept, e);
      EvictIsSince(kept + [e], cutoff);
      SinceAppend(kept, e, cutoff);
      SinceAppend(h, e, cutoff);
    }
  }

  lemma SinceNothing(cutoff: real)
    ensures Since([], cutoff) == []
  {
  }

  lemma SinceAppend(entries: seq<Entry>, e: Entry, cutoff: real)
    ensures Since(entries + [e], cutoff) == Since(entries, cutoff) + if e.ts >= cutoff then [e] else []
  {
    assert (entries + [e])[..|entries|] == entries;
  }

  lemma SortedAppend(entries: seq<Entry>, e: Entry)
    requires Sorted(entries) && forall x :: x in entries ==> x.ts <= e.ts
    ensures Sorted(entries + [e])
  {
  }

  lemma {:induction false} EvictIsSince(entries: seq<Entry>, cutoff: real)
    requires Sorted(entries)
    ensures Evict(entries, cutoff) == Since(entries, cutoff)
  {
    if entries == [] {
    } else if entries[0].ts < cutoff {
      EvictIsSince(entries[1..], cutoff);
      SinceDropsFirst(entries, cutoff);
    } else {
      SinceKeepsAll(entries, cutoff);
    }
  }

  lemma {:induction false} SinceDropsFirst(entries: seq<Entry>, cutoff: real)
    requires entries != [] && entries[0].ts < cutoff
    ensures Since(entries, cutoff) == Since(entries[1..], cutoff)
  {
    var n := |entries|;
    if n > 1 {
      SinceDropsFirst(entries[..n - 1], cutoff);
      assert entries[..n - 1][1..] == entries[1..][..n - 2];
    }
  }

  lemma {:induction false} SinceKeepsAll(entries: seq<Entry>, cutoff: real)
    requires forall i :: 0 <= i < |entries| ==> entries[i].ts >= cutoff
    ensures Since(entries, cutoff) == entries
  {
    if entries != [] {
      SinceKeepsAll(entries[..|entries| - 1], cutoff);
    }
  }

  lemma {:induction false} SinceTwice(entries: seq<Entry>, c1: real, c2: real)
    requires c1 <= c2
    ensures Since(Since(entries, c1), c2) == Since(entries, c2)
  {
    if entries != [] {
      var pre, e := entries[..|entries| - 1], entries[|entries| - 1];
      SinceTwice(pre, c1, c2);
      var s := Since(pre, c1);
      assert (s + [e])[..|s|] == s;
    }
  }

  lemma {:induction false} SinceMembers(entries: seq<Entry>, cutoff: real)
    ensures forall e :: e in Since(entries, cutoff) <==> e in entries && e.ts >= cutoff
  {
    if entries != [] {
      var pre := entries[..|entries| - 1];
      SinceMembers(pre, cutoff);
      assert entries == pre + [entries[|entries| - 1]];
    }
  }

  lemma {:induction false} SinceSorted(entries: seq<Entry>, cutoff: real)
    requires Sorted(entries)
    ensures Sorted(Since(entries, cutoff))
  {
    if entries != [] {
      var pre := entries[..|entries| - 1];
      SinceSorted(pre, cutoff);
      SinceMembers(pre, cutoff);
    }
  }

  // ---- Consecutive failures ---------------------------------------------------

  datatype Outcome = Success | Failure | Reset

  /** sliding.go `Record` and `ResetConsecutive` on one key's counter. */
  function Count(outcomes: seq<Outcome>): nat {
    if outcomes == [] then 0
    else if outcomes[|outcomes| - 1].Failure? then Count(outcomes[..|outcomes| - 1]) + 1
    else 0
  }

  /** The counter is the length of the failing suffix since the last success or reset. */
  lemma {:induction false} CountIsFailingSuffix(outcomes: seq<Outcome>)
    ensures var n := Count(outcomes);
            n <= |outcomes|
            && (forall i :: |outcomes| - n <= i < |outcomes| ==> outcomes[i] == Failure)
            && (n < |outcomes| ==> outcomes[|outcomes| - n - 1] != Failure)
  {
    if outcomes != [] {
      CountIsFailingSuffix(outcomes[..|outcomes| - 1]);
    }
  }

  /** sliding.go `HealthTracker`: one window and one counter per key. */
  class HealthTracker {
    const window: real
    var windows: map<int, seq<Entry>>
    var consecutiveFail: map<int, nat>

    constructor (window: real)
      ensures this.window == window && windows == map[] && consecutiveFail == map[]
    {
      this.window := window;
      windows, consecutiveFail := map[], map[];
    }

    method Record(key: int, ok: bool, t: real)
      modifies this
      ensures windows == old(windows)[key := Recorded(WindowOf(old(windows), key), window, t, ok)]
      ensures consecutiveFail == old(consecutiveFail)[key := if ok then 0 else FailsOf(old(consecutiveFail), key) + 1]
    {
      if key !in windows {
        windows := windows[key := []];
      }
      windows := windows[key := Recorded(windows[key], window, t, ok)];
      if ok {
        consecutiveFail := consecutiveFail[key := 0];
      } else {
        consecutiveFail := consecutiveFail[key := FailsOf(consecutiveFail, key) + 1];
      }
    }

    method SuccessRate(key: int, t: real) returns (rate: real)
      modifies this
      ensures windows == old(windows)[key := Evict(WindowOf(old(windows), key), t - window)]
      ensures consecutiveFail == old(consecutiveFail) && rate == Rate(windows[key])
      ensures rate * |windows[key]| as real == 100.0 * Ok(windows[key]) as real
      ensures windows[key] == [] ==> rate == 0.0
    {
      if key !in windows {
        windows := windows[key := []];
      }
      windows := windows[key := Evict(windows[key], t - window)];
      rate := Rate(windows[key]);
      SuccessesAreOk(windows[key]);
    }

    method ConsecutiveFailures(key: int) returns (n: nat)
      ensures n == FailsOf(consecutiveFail, key)
    {
      n := if key in consecutiveFail then consecutiveFail[key] else 0;
    }

    method ResetConsecutive(key: int)
      modifies this
      ensures consecutiveFail == old(consecutiveFail)[key := 0] && windows == old(windows)
    {
      consecutiveFail := consecutiveFail[key := 0];
    }
  }

  function WindowOf(windows: map<int, seq<Entry>>, key: int): seq<Entry> {
    if key in windows then windows[key] else []
  }

  function FailsOf(fails: map<int, nat>, key: int): nat {
    if key in fails then fails[key] else 0
  }

  // ---- The tracker over whole runs --------------------------------------------

  datatype KeyCall = KeyCall(key: int, outcome: Outcome)

  function Counters(calls: seq<KeyCall>): map<int, nat> {
    if calls == [] then map[]
    else
      var m, c := Counters(calls[..|calls| - 1]), calls[|calls| - 1];
      m[c.key := if c.outcome.Failure? then FailsOf(m, c.key) + 1 else 0]
  }

  function OutcomesOf(calls: seq<KeyCall>, key: int): seq<Outcome> {
    if calls == [] then []
    else
      var o, c := OutcomesOf(calls[..|calls| - 1], key), calls[|calls| - 1];
      if c.key == key then o + [c.outcome] else o
  }

  /** Interleaving keys does not mix their counters. */
  lemma {:induction false} CountersArePerKey(calls: seq<KeyCall>, key: int)
    ensures FailsOf(Counters(calls), key) == Count(OutcomesOf(calls, key))
  {
    if calls != [] {
      var pre, c := calls[..|calls| - 1], calls[|calls| - 1];
      CountersArePerKey(pre, key);
      if c.key == key {
        var o := OutcomesOf(pre, key);
        assert (o + [c.outcome])[..|o|] == o;
      }
    }
  }
}
