/** The single-writer log pipeline of internal/logging/logger.go: callers send without blocking to a
    buffered channel, one goroutine batches entries and writes each batch in one transaction
    (`WriteLogBatch` of internal/data/logs.go), and `Close` asks it to empty the channel and leave. */
module LogDrain {

  const CHANNEL_CAP: nat := 1024
  const BATCH_SIZE: nat := 100

  datatype Entry = Entry(level: string, source: string, trace: string, message: string, context: string)

  /** A row of app_logs. Its id is its position, ids being handed out in insertion order. */
  datatype Row = Row(ts: int, entry: Entry)

  /** The goroutine: in its main select loop, in its final loop, or gone. */
  datatype Phase = Running | Draining | Exited

  /** `accepted` is the history of entries the channel took; `fates` says, for each one that has left
      the batch, whether its transaction committed. `clock` is the time of the latest write. */
  datatype LogState = LogState(
    channel: seq<Entry>, batch: seq<Entry>, table: seq<Row>, phase: Phase, closed: bool,
    accepted: seq<Entry>, fates: seq<bool>, clock: int)

  const INIT := LogState([], [], [], Running, false, [], [], 0)

  function LowerChar(c: char): char {
    if 'A' <= c <= 'Z' then ((c as int) - ('A' as int) + ('a' as int)) as char else c
  }

  function Lower(s: string): string {
    seq(|s|, i requires 0 <= i < |s| => LowerChar(s[i]))
  }

  /** Levels are stored in lower case. */
  function Stored(e: Entry): Entry {
    e.(level := Lower(e.level))
  }

  function StoredAll(es: seq<Entry>): seq<Entry> {
    seq(|es|, i requires 0 <= i < |es| => Stored(es[i]))
  }

  function Rows(es: seq<Entry>, now: int): seq<Row> {
    seq(|es|, i requires 0 <= i < |es| => Row(now, Stored(es[i])))
  }

  function Entries(table: seq<Row>): seq<Entry> {
    seq(|table|, i requires 0 <= i < |table| => table[i].entry)
  }

  // ---- Steps ------------------------------------------------------------------

  function Sent(s: LogState, e: Entry): LogState {
    if |s.channel| < CHANNEL_CAP then s.(channel := s.channel + [e], accepted := s.accepted + [e]) else s
  }

  /** `ok` says whether the transaction commits; its error is ignored and the batch reset either way. */
  function Flushed(s: LogState, now: int, ok: bool): LogState {
    if s.batch == [] then s
    else s.(batch := [], table := s.table + (if ok then Rows(s.batch, now) else []),
            fates := s.fates + seq(|s.batch|, _ => ok), clock := now)
  }

  function Received(s: LogState, now: int, ok: bool): LogState
    requires s.channel != []
  {
    var t := s.(channel := s.channel[1..], batch := s.batch + [s.channel[0]]);
    if |t.batch| >= BATCH_SIZE then Flushed(t, now, ok) else t
  }

  /** One move of a caller or of the goroutine. While running, a select with several ready cases may
      take any of them, so receives go on after `Close` until the goroutine notices it. */
  datatype Step =
    | Send(entry: Entry)
    | Receive(now: int, ok: bool)
    | Tick(now: int, ok: bool)
    | Close
    | NoticeClose
    | Exit(now: int, ok: bool)

  predicate Enabled(s: LogState, step: Step) {
    match step
    case Send(_) => true
    case Receive(now, _) => s.phase != Exited && s.channel != [] && s.clock <= now
    case Tick(now, _) => s.phase == Running && s.clock <= now
    case Close => !s.closed
    case NoticeClose => s.phase == Running && s.closed
    case Exit(now, _) => s.phase == Draining && s.channel == [] && s.clock <= now
  }

  function Apply(s: LogState, step: Step): LogState
    requires Enabled(s, step)
  {
    match step
    case Send(e) => Sent(s, e)
    case Receive(now, ok) => Received(s, now, ok)
    case Tick(now, ok) => Flushed(s, now, ok)
    case Close => s.(closed := true)
    case NoticeClose => s.(phase := Draining)
    case Exit(now, ok) => Flushed(s, now, ok).(phase := Exited)
  }

  predicate Legal(s: LogState, steps: seq<Step>)
    decreases |steps|
  {
    steps == [] || (Enabled(s, steps[0]) && Legal(Apply(s, steps[0]), steps[1..]))
  }

  function After(s: LogState, steps: seq<Step>): LogState
    requires Legal(s, steps)
    decreases |steps|
  {
    if steps == [] then s else After(Apply(s, steps[0]), steps[1..])
  }

  // ---- The logger -------------------------------------------------------------

  class Logger {
    var channel: seq<Entry>
    var batch: seq<Entry>
    var table: seq<Row>
    var phase: Phase
    var closed: bool
    ghost var accepted: seq<Entry>
    ghost var fates: seq<bool>
    ghost var clock: int

    ghost function State(): LogState
      reads this
    {
      LogState(channel, batch, table, phase, closed, accepted, fates, clock)
    }

    constructor ()
      ensures State() == INIT
    {
      channel, batch, table, phase, closed := [], [], [], Running, false;
      accepted, fates, clock := [], [], 0;
    }

    /** The non-blocking send at the end of `log`. */
    method Send(e: Entry)
      modifies this
      ensures State() == Sent(old(State()), e)
    {
      if |channel| < CHANNEL_CAP {
        channel := channel + [e];
        accepted := accepted + [e];
      }
    }

    method WriteLogBatch(now: int, ok: bool)
      modifies this`table
      ensures table == old(table) + if ok then Rows(batch, now) else []
      ensures |table| == |old(table)| + if ok then |batch| else 0
      ensures forall i :: |old(table)| <= i < |table| ==>
                table[i].ts == now && Carries(table[i].entry, batch[i - |old(table)|])
    {
      var tx: seq<Row> := [];
      for i := 0 to |batch|
        invariant tx == Rows(batch, now)[..i]
      {
        tx := tx + [Row(now, Stored(batch[i]))];
      }
      forall i | 0 <= i < |batch| ensures Carries(Stored(batch[i]), batch[i]) {
        CarriesIsStored(Stored(batch[i]), batch[i]);
      }
      hide Stored, Carries;
      if ok {
        table := table + tx;
      }
    }

    method Flush(now: int, ok: bool)
      modifies this
      ensures State() == Flushed(old(State()), now, ok)
    {
      if |batch| == 0 {
        return;
      }
      WriteLogBatch(now, ok);
      fates := fates + seq(|batch|, _ => ok);
      clock := now;
      batch := [];
    }

    method Add(now: int, ok: bool)
      requires channel != []
      modifies this
      ensures State() == Received(old(State()), now, ok)
    {
      var e := channel[0];
      channel := channel[1..];
      batch := batch + [e];
      if |batch| >= BATCH_SIZE {
        Flush(now, ok);
      }
    }

    /** The final loop. Before each receive callers may send more, and each write may fail; `script` says
        what happens, and after it nothing is sent and writes commit; `last` is the fate of the last one. */
    method DrainRest(now: int, script: seq<Racing>, last: bool)
      requires phase == Draining && Inv(State()) && clock <= now
      modifies this
      ensures phase == Exited && channel == [] && batch == [] && Inv(State())
      ensures old(accepted) <= accepted && |fates| == |accepted|
      ensures AllCommit(script) && last ==> Carried(old(State()), State())
      ensures AllCommit(script) && last && Delivered(old(State())) ==> Delivered(State())
    {
      ghost var start := State();
      CarriedSelf(start);
      hide Inv, Carried, Delivered;
      var k := 0;
      while channel != []
        invariant phase == Draining && Inv(State()) && clock <= now && k <= |script|
        invariant start.accepted <= accepted && (AllCommit(script) ==> Carried(start, State()))
        decreases |script| - k, |channel|
      {
        var racing := if k < |script| then script[k] else Racing([], true);
        ghost var before := State();
        ReceiveRacing(now, racing);
        if AllCommit(script) {
          CarriedOn(start, before, State());
        }
        k := if k < |script| then k + 1 else k;
      }
      ghost var before := State();
      Leave(now, last);
      if AllCommit(script) && last {
        CarriedOn(start, before, State());
        CarriedDelivered(start, State());
      }
    }

    /** Sends that race with the final loop, then one receive. */
    method ReceiveRacing(now: int, racing: Racing)
      requires phase == Draining && Inv(State()) && clock <= now && channel != []
      modifies this
      ensures phase == Draining && Inv(State()) && clock <= now && old(accepted) <= accepted
      ensures racing.ok ==> Carried(old(State()), State())
      ensures racing.sends == [] ==> |channel| < |old(channel)|
    {
      ghost var start := State();
      SendAll(racing.sends);
      ghost var before := State();
      InvStep(before, Step.Receive(now, racing.ok));
      if racing.ok {
        CommitKeepsContents(before, Step.Receive(now, racing.ok));
        SameCarried(before, Received(before, now, true));
        CarriedOn(start, before, Received(before, now, true));
      }
      hide Inv, Carried, Delivered;
      Add(now, racing.ok);
    }

    method Leave(now: int, ok: bool)
      requires phase == Draining && Inv(State()) && clock <= now && channel == []
      modifies this
      ensures phase == Exited && channel == [] && batch == [] && Inv(State()) && accepted == old(accepted)
      ensures |fates| == |accepted| && (ok ==> Carried(old(State()), State()))
    {
      ghost var before := State();
      InvStep(before, Step.Exit(now, ok));
      if ok {
        CommitKeepsContents(before, Step.Exit(now, ok));
        SameCarried(before, Apply(before, Step.Exit(now, ok)));
      }
      Flush(now, ok);
      phase := Exited;
      assert State() == Apply(before, Step.Exit(now, ok));
      hide Carried;
    }

    method SendAll(es: seq<Entry>)
      requires Inv(State())
      modifies this
      ensures Inv(State()) && phase == old(phase) && clock == old(clock)
      ensures Carried(old(State()), State()) && old(channel) <= channel && (es == [] ==> channel == old(channel))
    {
      ghost var start := State();
      CarriedSelf(start);
      hide Inv, Carried, Delivered;
      for i := 0 to |es|
        invariant Inv(State()) && phase == start.phase && clock == start.clock
        invariant Carried(start, State()) && start.channel <= channel && (es == [] ==> channel == start.channel)
      {
        ghost var before := State();
        InvStep(before, Step.Send(es[i]));
        SendCarries(before, es[i]);
        CarriedOn(start, before, Sent(before, es[i]));
        Send(es[i]);
      }
    }
  }

  /** What other goroutines do before one receive of the final loop: sends, and whether a write that
      the receive triggers commits. */
  datatype Racing = Racing(sends: seq<Entry>, ok: bool)

  /** Everything in the pipeline, as stored. */
  function Contents(s: LogState): seq<Entry> {
    Entries(s.table) + StoredAll(s.batch + s.channel)
  }

  predicate AllCommit(script: seq<Racing>) {
    forall k :: 0 <= k < |script| ==> script[k].ok
  }

  /** From one state to a later one nothing in the pipeline is lost, and what was accepted in between
      follows it in order. */
  predicate Carried(s: LogState, t: LogState) {
    s.accepted <= t.accepted && Contents(t) == Contents(s) + StoredAll(t.accepted[|s.accepted|..])
  }

  lemma CarriedSelf(s: LogState)
    ensures Carried(s, s)
  {
    assert StoredAll(s.accepted[|s.accepted|..]) == [];
  }

  lemma SameCarried(s: LogState, t: LogState)
    requires Contents(s) == Contents(t) && s.accepted == t.accepted
    ensures Carried(s, t)
  {
    assert StoredAll(t.accepted[|s.accepted|..]) == [];
    hide Contents;
  }

  lemma CarriedOn(a: LogState, b: LogState, c: LogState)
    requires Carried(a, b) && Carried(b, c)
    ensures Carried(a, c)
  {
    var n, m := |a.accepted|, |b.accepted|;
    assert c.accepted[n..] == b.accepted[n..] + c.accepted[m..];
    hide Contents, Stored;
    assert StoredAll(c.accepted[n..]) == StoredAll(b.accepted[n..]) + StoredAll(c.accepted[m..]);
  }

  lemma CarriedDelivered(s: LogState, t: LogState)
    requires Inv(s) && Inv(t) && Carried(s, t)
    ensures Delivered(s) ==> Delivered(t)
  {
    DeliveredIff(s);
    DeliveredIff(t);
    hide Delivered, Inv, Stored, Contents;
    assert t.accepted == s.accepted + t.accepted[|s.accepted|..];
    assert StoredAll(t.accepted) == StoredAll(s.accepted) + StoredAll(t.accepted[|s.accepted|..]);
  }

  lemma SendCarries(s: LogState, e: Entry)
    ensures Carried(s, Sent(s, e)) && s.channel <= Sent(s, e).channel
  {
    var t := Sent(s, e);
    if |s.channel| < CHANNEL_CAP {
      assert t.accepted[|s.accepted|..] == [e];
      assert StoredAll([e]) == [Stored(e)];
      assert t.batch + t.channel == s.batch + s.channel + [e];
      assert StoredAll(t.batch + t.channel) == StoredAll(s.batch + s.channel) + [Stored(e)];
      hide Entries, StoredAll, Stored;
    } else {
      CarriedSelf(s);
    }
  }

  // ---- What a row holds -------------------------------------------------------

  /** `stored` is `given` in lower case: the same length, no upper-case letter, and character by character
      the same or the small form of the same letter. */
  predicate LowerOf(stored: string, given: string) {
    && |stored| == |given|
    && forall i :: 0 <= i < |stored| ==>
         && !('A' <= stored[i] <= 'Z')
         && (stored[i] == given[i] || ('A' <= given[i] <= 'Z' && stored[i] as int == given[i] as int + 32))
  }

  /** The level is stored in lower case, everything else as it is. */
  predicate Carries(row: Entry, e: Entry) {
    && LowerOf(row.level, e.level)
    && row.source == e.source && row.trace == e.trace && row.message == e.message && row.context == e.context
  }

  lemma CarriesIsStored(row: Entry, e: Entry)
    ensures Carries(row, e) <==> row == Stored(e)
  {
    if Carries(row, e) {
      forall i | 0 <= i < |e.level| ensures row.level[i] == Lower(e.level)[i] {
      }
    }
  }

  /** Everything accepted is in the table, in order, and what is not yet is in the batch and the channel. */
  predicate Delivered(s: LogState) {
    && |s.table| + |s.batch| + |s.channel| == |s.accepted|
    && s.accepted[|s.table|..] == s.batch + s.channel
    && forall i :: 0 <= i < |s.table| ==> Carries(s.table[i].entry, s.accepted[i])
  }

  lemma DeliveredIff(s: LogState)
    requires Inv(s)
    ensures Delivered(s) <==> Contents(s) == StoredAll(s.accepted)
  {
    var n := |s.table|;
    forall i | 0 <= i < n && i < |s.accepted|
      ensures Carries(s.table[i].entry, s.accepted[i]) <==> s.table[i].entry == Stored(s.accepted[i])
    {
      CarriesIsStored(s.table[i].entry, s.accepted[i]);
    }
    hide Carries, Stored, Kept, InTimeOrder;
    if Delivered(s) {
      assert s.accepted == s.accepted[..n] + (s.batch + s.channel);
      assert Entries(s.table) == StoredAll(s.accepted[..n]);
      assert StoredAll(s.accepted) == StoredAll(s.accepted[..n]) + StoredAll(s.batch + s.channel);
    }
    if Contents(s) == StoredAll(s.accepted) {
      assert |Contents(s)| == |StoredAll(s.accepted)|;
      assert n == |s.fates|;
      forall i | 0 <= i < n ensures s.table[i].entry == Stored(s.accepted[i]) {
        assert Contents(s)[i] == s.table[i].entry && StoredAll(s.accepted)[i] == Stored(s.accepted[i]);
      }
    }
  }

  /** The positions of the entries whose transaction committed. */
  function CommittedAt(fates: seq<bool>): (at: seq<nat>)
    ensures forall r :: 0 <= r < |at| ==> at[r] < |fates| && fates[at[r]]
  {
    if fates == [] then []
    else
      var n := |fates| - 1;
      CommittedAt(fates[..n]) + if fates[n] then [n] else []
  }

  /** The rows are exactly the entries whose transaction committed, in order. */
  predicate RowsAreCommitted(s: LogState) {
    var at := CommittedAt(s.fates);
    && |s.fates| <= |s.accepted| && |s.table| == |at|
    && forall r :: 0 <= r < |at| ==> Carries(s.table[r].entry, s.accepted[at[r]])
  }

  lemma {:induction false} KeptAreCommitted(es: seq<Entry>, fates: seq<bool>)
    requires |es| == |fates|
    ensures |Kept(es, fates)| == |CommittedAt(fates)|
    ensures forall r :: 0 <= r < |CommittedAt(fates)| ==> Kept(es, fates)[r] == Stored(es[CommittedAt(fates)[r]])
    decreases |es|
  {
    if es != [] {
      KeptAreCommitted(es[..|es| - 1], fates[..|es| - 1]);
      hide Stored;
    }
  }

  lemma InvMeansCommitted(s: LogState)
    requires Inv(s)
    ensures RowsAreCommitted(s)
  {
    var n := |s.fates|;
    KeptAreCommitted(s.accepted[..n], s.fates);
    hide Kept, Stored, Carries, InTimeOrder;
    var at := CommittedAt(s.fates);
    assert |Entries(s.table)| == |s.table|;
    forall r | 0 <= r < |at| ensures Carries(s.table[r].entry, s.accepted[at[r]]) {
      assert Entries(s.table)[r] == s.table[r].entry == Stored(s.accepted[at[r]]);
      CarriesIsStored(s.table[r].entry, s.accepted[at[r]]);
    }
  }

  /** The rows a step adds carry the time of its write, and a write adds the whole batch or nothing. */
  lemma StepStamps(s: LogState, step: Step)
    requires Enabled(s, step)
    ensures var t := Apply(s, step);
            && s.table <= t.table
            && (t.table != s.table ==> (step.Receive? || step.Tick? || step.Exit?) && step.ok && t.batch == [])
            && (t.table != s.table ==> forall i :: |s.table| <= i < |t.table| ==> t.table[i].ts == step.now)
  {
    hide Stored;
  }

  // ---- Invariant --------------------------------------------------------------

  /** The entries whose transaction committed, as stored. */
  function Kept(es: seq<Entry>, fates: seq<bool>): seq<Entry>
    requires |es| == |fates|
  {
    if es == [] then []
    else Kept(es[..|es| - 1], fates[..|es| - 1]) + if fates[|es| - 1] then [Stored(es[|es| - 1])] else []
  }

  /** Everything accepted is, in order, behind in the table (or lost with its failed transaction), in
      the batch, or in the channel; and the table is in order of time. */
  predicate Accounted(s: LogState) {
    && |s.channel| <= CHANNEL_CAP
    && |s.fates| <= |s.accepted| && s.accepted[|s.fates|..] == s.batch + s.channel
    && Entries(s.table) == Kept(s.accepted[..|s.fates|], s.fates)
    && InTimeOrder(s.table, s.clock)
  }

  predicate InTimeOrder(table: seq<Row>, clock: int) {
    && (forall i, j :: 0 <= i < j < |table| ==> table[i].ts <= table[j].ts)
    && (forall i :: 0 <= i < |table| ==> table[i].ts <= clock)
  }

  predicate Inv(s: LogState) {
    && Accounted(s) && |s.batch| < BATCH_SIZE
    && (s.phase != Running ==> s.closed) && (s.phase == Exited ==> s.batch == [])
  }

  lemma {:induction false} KeptAppend(es: seq<Entry>, fates: seq<bool>, more: seq<Entry>, ok: bool)
    requires |es| == |fates|
    ensures Kept(es + more, fates + seq(|more|, _ => ok)) == Kept(es, fates) + if ok then StoredAll(more) else []
  {
    var n := |more|;
    var all, fs := es + more, fates + seq(n, _ => ok);
    if n == 0 {
      assert all == es && fs == fates;
    } else {
      KeptAppend(es, fates, more[..n - 1], ok);
      assert all[..|all| - 1] == es + more[..n - 1];
      assert fs[..|all| - 1] == fates + seq(n - 1, _ => ok);
      assert StoredAll(more) == StoredAll(more[..n - 1]) + [Stored(more[n - 1])];
    }
  }

  lemma FlushOrders(table: seq<Row>, clock: int, es: seq<Entry>, now: int)
    requires InTimeOrder(table, clock) && clock <= now
    ensures InTimeOrder(table, now) && InTimeOrder(table + Rows(es, now), now)
  {
    hide Stored;
  }

  lemma TakeBatch(all: seq<Entry>, n: nat, batch: seq<Entry>, channel: seq<Entry>)
    requires n <= |all| && all[n..] == batch + channel
    ensures var m := n + |batch|;
            m <= |all| && all[..m] == all[..n] + batch && all[m..] == channel
  {
    assert all == all[..n] + (batch + channel);
  }

  lemma EntriesAppend(table: seq<Row>, es: seq<Entry>, now: int)
    ensures Entries(table + Rows(es, now)) == Entries(table) + StoredAll(es)
  {
    hide Stored;
  }

  lemma FlushKeeps(s: LogState, now: int, ok: bool)
    requires Accounted(s) && s.clock <= now
    ensures Accounted(Flushed(s, now, ok)) && Flushed(s, now, ok).batch == []
  {
    if s.batch != [] {
      var n := |s.fates|;
      TakeBatch(s.accepted, n, s.batch, s.channel);
      KeptAppend(s.accepted[..n], s.fates, s.batch, ok);
      EntriesAppend(s.table, s.batch, now);
      FlushOrders(s.table, s.clock, s.batch, now);
      hide Kept, Stored, StoredAll, Entries, Rows, InTimeOrder;
      assert s.table + [] == s.table && [] + s.channel == s.channel;
      assert Entries(s.table) + [] == Entries(s.table);
    }
  }

  lemma SendKeeps(s: LogState, e: Entry)
    requires Accounted(s)
    ensures Accounted(Sent(s, e))
  {
    hide Kept, Entries;
    if |s.channel| < CHANNEL_CAP {
      assert (s.accepted + [e])[|s.fates|..] == s.accepted[|s.fates|..] + [e];
      assert (s.accepted + [e])[..|s.fates|] == s.accepted[..|s.fates|];
    }
  }

  lemma InvStep(s: LogState, step: Step)
    requires Inv(s) && Enabled(s, step)
    ensures Inv(Apply(s, step))
  {
    match step
    case Send(e) => SendKeeps(s, e); hide Accounted;
    case Receive(now, ok) =>
      var t := s.(channel := s.channel[1..], batch := s.batch + [s.channel[0]]);
      assert t.batch + t.channel == s.batch + s.channel;
      assert Accounted(t);
      hide Accounted, Flushed;
      FlushKeeps(t, now, ok);
      FlushFrame(t, now, ok);
    case Tick(now, ok) => hide Accounted, Flushed; FlushKeeps(s, now, ok); FlushFrame(s, now, ok);
    case Close => hide Kept;
    case NoticeClose => hide Kept;
    case Exit(now, ok) =>
      FlushKeeps(s, now, ok);
      FlushFrame(s, now, ok);
      hide Kept, Flushed;
  }

  lemma FlushFrame(s: LogState, now: int, ok: bool)
    ensures var t := Flushed(s, now, ok);
            t.phase == s.phase && t.closed == s.closed && t.channel == s.channel && t.accepted == s.accepted
  {
  }

  /** In every interleaving, also with transactions that fail: the rows are exactly the accepted entries
      whose transaction committed, in order, and what has not left yet is in the batch and the channel. */
  lemma {:induction false} RunInv(s: LogState, steps: seq<Step>)
    requires Legal(s, steps) && Inv(s)
    ensures Inv(After(s, steps)) && RowsAreCommitted(After(s, steps))
    decreases |steps|
  {
    if steps != [] {
      InvStep(s, steps[0]);
      hide Inv, Apply, Enabled, RowsAreCommitted;
      RunInv(Apply(s, steps[0]), steps[1..]);
    } else {
      InvMeansCommitted(s);
    }
  }

  // ---- What it means ----------------------------------------------------------

  predicate Commits(step: Step) {
    match step
    case Receive(_, ok) => ok
    case Tick(_, ok) => ok
    case Exit(_, ok) => ok
    case _ => true
  }

  lemma CommitKeepsContents(s: LogState, step: Step)
    requires Inv(s) && Enabled(s, step) && Commits(step) && !step.Send?
    ensures var t := Apply(s, step);
            Entries(t.table) + StoredAll(t.batch + t.channel) == Entries(s.table) + StoredAll(s.batch + s.channel)
  {
    match step
    case Receive(now, ok) =>
      var t := s.(channel := s.channel[1..], batch := s.batch + [s.channel[0]]);
      assert t.batch + t.channel == s.batch + s.channel;
      FlushContents(t, now);
    case Tick(now, ok) => FlushContents(s, now);
    case Close =>
    case NoticeClose =>
    case Exit(now, ok) => FlushContents(s, now);
  }

  lemma FlushContents(s: LogState, now: int)
    ensures var t := Flushed(s, now, true);
            Entries(t.table) + StoredAll(t.batch + t.channel) == Entries(s.table) + StoredAll(s.batch + s.channel)
  {
    if s.batch != [] {
      hide Stored;
      var t := Flushed(s, now, true);
      assert Entries(t.table) == Entries(s.table) + StoredAll(s.batch);
      assert StoredAll(s.batch + s.channel) == StoredAll(s.batch) + StoredAll(s.channel);
      assert t.batch + t.channel == s.channel;
    }
  }

  lemma {:induction false} ContentsKept(s: LogState, steps: seq<Step>)
    requires Legal(s, steps) && Inv(s) && forall i :: 0 <= i < |steps| ==> Commits(steps[i])
    requires Contents(s) == StoredAll(s.accepted)
    ensures Contents(After(s, steps)) == StoredAll(After(s, steps).accepted)
    decreases |steps|
  {
    if steps != [] {
      var t := Apply(s, steps[0]);
      InvStep(s, steps[0]);
      if steps[0].Send? {
        SendContents(s, steps[0].entry);
      } else {
        CommitKeepsContents(s, steps[0]);
        AcceptedFrame(s, steps[0]);
      }
      hide Inv, Enabled, Apply, Entries, StoredAll;
      assert forall i :: 0 <= i < |steps[1..]| ==> steps[1..][i] == steps[i + 1];
      ContentsKept(t, steps[1..]);
    }
  }

  /** In every interleaving whose transactions commit, nothing accepted is lost, altered or reordered:
      row for row the table carries the accepted entries, each as it was but for its level in lower case,
      and the rest of them is in the batch and the channel. */
  lemma NothingLost(s: LogState, steps: seq<Step>)
    requires Legal(s, steps) && Inv(s) && Delivered(s) && forall i :: 0 <= i < |steps| ==> Commits(steps[i])
    ensures |After(s, steps).batch| < BATCH_SIZE && Delivered(After(s, steps))
  {
    DeliveredIff(s);
    RunInv(s, steps);
    hide Contents, Delivered;
    ContentsKept(s, steps);
    DeliveredIff(After(s, steps));
  }

  lemma AcceptedFrame(s: LogState, step: Step)
    requires Enabled(s, step) && !step.Send?
    ensures Apply(s, step).accepted == s.accepted
  {
  }

  lemma SendContents(s: LogState, e: Entry)
    requires Entries(s.table) + StoredAll(s.batch + s.channel) == StoredAll(s.accepted)
    ensures var t := Sent(s, e);
            Entries(t.table) + StoredAll(t.batch + t.channel) == StoredAll(t.accepted)
  {
    if |s.channel| < CHANNEL_CAP {
      var t := Sent(s, e);
      assert StoredAll(t.accepted) == StoredAll(s.accepted) + [Stored(e)];
      assert t.batch + t.channel == s.batch + s.channel + [e];
      assert StoredAll(s.batch + s.channel + [e]) == StoredAll(s.batch + s.channel) + [Stored(e)];
    }
  }

  /** When the goroutine leaves, whatever the interleaving before: batch and channel are empty, so with
      committed writes the table carries everything accepted, row for row, and in order of (ts, id). */
  lemma ExitIsComplete(steps: seq<Step>, now: int)
    requires Legal(INIT, steps + [Step.Exit(now, true)])
    requires forall i :: 0 <= i < |steps| ==> Commits(steps[i])
    ensures var t := After(INIT, steps + [Step.Exit(now, true)]);
            && t.phase == Exited && t.batch == [] && t.channel == []
            && |t.table| == |t.accepted|
            && (forall i :: 0 <= i < |t.table| ==> Carries(t.table[i].entry, t.accepted[i]))
            && forall i, j :: 0 <= i < j < |t.table| ==> t.table[i].ts <= t.table[j].ts
  {
    var exit := Step.Exit(now, true);
    var all := steps + [exit];
    assert all[..|steps|] == steps && all[|steps|] == exit;
    AfterSplit(INIT, steps, exit);
    NothingLost(INIT, all);
    RunInv(INIT, all);
  }

  lemma {:induction false} AfterSplit(s: LogState, steps: seq<Step>, last: Step)
    requires Legal(s, steps + [last])
    ensures Legal(s, steps) && Enabled(After(s, steps), last)
    ensures After(s, steps + [last]) == Apply(After(s, steps), last)
    decreases |steps|
  {
    var all := steps + [last];
    if steps == [] {
      assert all[1..] == [];
    } else {
      assert all[1..] == steps[1..] + [last];
      AfterSplit(Apply(s, steps[0]), steps[1..], last);
    }
  }

  /** After that only senders move: their entries are accepted into the channel and never stored. */
  lemma {:induction false} ExitedStoresNothing(s: LogState, steps: seq<Step>)
    requires Legal(s, steps) && Inv(s) && s.phase == Exited
    ensures forall i :: 0 <= i < |steps| ==> steps[i].Send?
    ensures After(s, steps).table == s.table && s.channel <= After(s, steps).channel
    ensures |After(s, steps).accepted| - |s.accepted| == |After(s, steps).channel| - |s.channel|
    decreases |steps|
  {
    if steps != [] {
      InvStep(s, steps[0]);
      ExitedStoresNothing(Apply(s, steps[0]), steps[1..]);
    }
  }

  // ---- Drops ------------------------------------------------------------------

  function SentBy(steps: seq<Step>): seq<Entry> {
    if steps == [] then []
    else (if steps[0].Send? then [steps[0].entry] else []) + SentBy(steps[1..])
  }

  /** Entries are dropped only by a full channel: sends that fit in it are all accepted, in order,
      however slow the goroutine. */
  lemma {:induction false} RoomMeansAccepted(s: LogState, steps: seq<Step>)
    requires Legal(s, steps) && |s.channel| + |SentBy(steps)| <= CHANNEL_CAP
    ensures After(s, steps).accepted == s.accepted + SentBy(steps)
    decreases |steps|
  {
    if steps != [] {
      var t := Apply(s, steps[0]);
      ChannelGrowth(s, steps[0]);
      hide Apply, Enabled;
      RoomMeansAccepted(t, steps[1..]);
      assert s.accepted + SentBy(steps) == t.accepted + SentBy(steps[1..]);
    }
  }

  lemma ChannelGrowth(s: LogState, step: Step)
    requires Enabled(s, step)
    ensures var t := Apply(s, step);
            && (step.Send? && |s.channel| < CHANNEL_CAP ==>
              t.accepted == s.accepted + [step.entry] && |t.channel| == |s.channel| + 1)
            && (step.Send? && |s.channel| >= CHANNEL_CAP ==> t == s)
            && (!step.Send? ==> t.accepted == s.accepted && |t.channel| <= |s.channel|)
  {
  }
}
