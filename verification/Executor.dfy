/** The Auto-Pilot executor of internal/autopilot/executor.go: what a decided action may do in each
    mode, the suggestions that wait for a human, and the record of what happened. The mode may change
    between any two steps, and requests that approve or reject suggestions overlap: each reads its
    suggestion, acts on what it read, and then deletes the key, and no lock is held in between. */
module Autopilot {
  import opened Options

  datatype Mode = Manual | Assisted | FullAuto | Unrecognised

  datatype Kind =
    SetConcurrency | SetWeightBoost | DisableKey | OpenCircuit | RevokeCredential | Unknown(name: string)

  datatype Action = Action(
    kind: Kind, keyId: int, credId: int, value: real, reason: string, confidence: real, source: string)

  /** What decoding nothing leaves in an action variable. */
  const ZERO_ACTION := Action(Unknown(""), 0, 0, 0.0, "", 0.0, "")

  const MIN_CONFIDENCE := 0.7
  const EVENT_CAP: nat := 50
  const NANOS := 1_000_000_000

  /** Keys of the settings table. Suggestions are filed under the wall clock in nanoseconds. */
  datatype Key = Pending(nanos: int) | Named(name: string)

  /** A settings value, by what it decodes to as an action. Other JSON objects decode to an action of
      unknown kind. */
  datatype Setting = Suggestion(action: Action) | Unparsable

  /** What actions change: the runtime overrides, the keys and the credentials. */
  datatype World = World(
    concurrency: int, boosts: map<int, real>, enabled: map<int, bool>, coolingUntil: map<int, int>,
      credentials: set<int>)

  datatype Event = Event(ts: int, mode: Mode, action: Action, applied: bool)

  datatype AuditRow = AuditRow(action: Action, applied: bool)

  datatype Cause = ByApply(mode: Mode) | ByApproval(key: Key, request: nat)

  datatype Effect = Effect(action: Action, cause: Cause, now: int)

  datatype Suggested = Suggested(key: Key, action: Action)

  datatype Stage = Fetched | Performed | Returned

  /** A call of `ApprovePending` or `RejectPending`: what it found under the key, how far it has come,
      and how many suggestions had been written and keys resolved when it read. */
  datatype Request = Request(
    approval: bool, mode: Mode, key: Key, found: Option<Action>, stage: Stage, written: nat, resolved: nat)

  /** `recent` and `decisions` are the executor's buffers, `requests` the calls made so far. The last five
      fields are history: every action executed, every suggestion written, every pending key deleted,
      every event, every decision time. */
  datatype State = State(
    world: World, settings: map<Key, Setting>, audit: seq<AuditRow>, recent: seq<Event>, decisions: seq<int>,
    requests: map<nat, Request>, effects: seq<Effect>, written: seq<Suggested>, resolved: seq<Key>,
    events: seq<Event>, decided: seq<int>)

  predicate Destructive(k: Kind) {
    k == DisableKey || k == OpenCircuit || k == RevokeCredential
  }

  // ---- One action -------------------------------------------------------------

  /** `execute`; `now` is in seconds. An update of a key that does not exist changes nothing. */
  function Perform(w: World, a: Action, now: int): World {
    match a.kind
    case SetConcurrency => w.(concurrency := if a.value < 1.0 then 1 else a.value.Floor)
    case SetWeightBoost =>
      if a.value <= 0.0 || 0.99 <= a.value <= 1.01 then w.(boosts := w.boosts - {a.keyId})
      else w.(boosts := w.boosts[a.keyId := a.value])
    case DisableKey => if a.keyId in w.enabled then w.(enabled := w.enabled[a.keyId := false]) else w
    case OpenCircuit =>
      var seconds := if a.value < 1.0 then 60 else a.value.Floor;
      if a.keyId in w.enabled then w.(coolingUntil := w.coolingUntil[a.keyId := now + seconds]) else w
    case RevokeCredential => w.(credentials := w.credentials - {a.credId})
    case Unknown(_) => w
  }

  function Executed(s: State, a: Action, cause: Cause, now: int): State {
    s.(world := Perform(s.world, a, now), effects := s.effects + [Effect(a, cause, now)])
  }

  function LastOf<T>(all: seq<T>, n: nat): seq<T> {
    if |all| > n then all[|all| - n..] else all
  }

  function Recorded(s: State, e: Event): State {
    s.(recent := LastOf(s.recent + [e], EVENT_CAP), events := s.events + [e])
  }

  function Audited(s: State, a: Action, applied: bool): State {
    s.(audit := s.audit + [AuditRow(a, applied)])
  }

  function RanInMode(s: State, mode: Mode, a: Action, now: int): State {
    if a.kind.Unknown? then Audited(s, a, false)
    else Audited(Recorded(Executed(s, a, ByApply(mode), now), Event(now, mode, a, true)), a, true)
  }

  function Noted(s: State, mode: Mode, a: Action, now: int): State {
    Audited(Recorded(s, Event(now, mode, a, false)), a, false)
  }

  /** The body of the loop in `Apply`; `nanos` is the wall clock. */
  function Acted(s: State, mode: Mode, a: Action, nanos: int): State {
    match mode
    case Manual => Noted(s, mode, a, nanos / NANOS)
    case Assisted =>
      if Destructive(a.kind) then
        Audited(s.(settings := s.settings[Pending(nanos) := Suggestion(a)],
          written := s.written + [Suggested(Pending(nanos), a)]), a, false)
      else RanInMode(s, mode, a, nanos / NANOS)
    case FullAuto =>
      if Destructive(a.kind) && a.confidence < MIN_CONFIDENCE then Noted(s, mode, a, nanos / NANOS)
      else RanInMode(s, mode, a, nanos / NANOS)
    case Unrecognised => s
  }

  predicate Approvable(s: State, key: Key) {
    key in s.settings && s.settings[key].Suggestion? && !s.settings[key].action.kind.Unknown?
  }

  function ActionAt(s: State, key: Key): Option<Action> {
    if key in s.settings && s.settings[key].Suggestion? then Some(s.settings[key].action) else None
  }

  /** The call begins: it reads the setting. */
  function FetchedBy(s: State, w: nat, approval: bool, mode: Mode, key: Key): State {
    if w in s.requests then s
    else s.(requests :=
      s.requests[w := Request(approval, mode, key, ActionAt(s, key), Fetched, |s.written|, |s.resolved|)])
  }

  /** What was read can be executed. */
  predicate Runnable(found: Option<Action>) {
    found.Some? && !found.value.kind.Unknown?
  }

  function AtStage(s: State, w: nat, stage: Stage): State
    requires w in s.requests
  {
    s.(requests := s.requests[w := s.requests[w].(stage := stage)])
  }

  function Ran(s: State, r: Request, w: nat, now: int): State
    requires Runnable(r.found)
  {
    var a := r.found.value;
    Audited(Recorded(Executed(s, a, ByApproval(r.key, w), now), Event(now, r.mode, a, true)), a, true)
  }

  /** The call acts on what it read, whatever is there by now: an approval executes it, or fails and
      returns; a rejection records it. */
  function ActedBy(s: State, w: nat, now: int): State {
    if w !in s.requests || s.requests[w].stage != Fetched then s
    else
      var r := s.requests[w];
      if !r.approval then
        AtStage(Noted(s, r.mode, if r.found.Some? then r.found.value else ZERO_ACTION, now), w, Performed)
      else if Runnable(r.found) then AtStage(Ran(s, r, w, now), w, Performed)
      else AtStage(s, w, Returned)
  }

  function Resolved(s: State, key: Key): State {
    s.(settings := s.settings - {key}, resolved := s.resolved + if key in s.settings && key.Pending? then [key] else [])
  }

  /** The call deletes the key and returns. */
  function ReturnedBy(s: State, w: nat): State {
    if w in s.requests && s.requests[w].stage == Performed then Resolved(AtStage(s, w, Returned), s.requests[w].key)
    else s
  }

  /** A call that nothing comes between. */
  function Called(s: State, w: nat, approval: bool, mode: Mode, key: Key, now: int): State {
    ReturnedBy(ActedBy(FetchedBy(s, w, approval, mode, key), w, now), w)
  }

  /** Decision times older than a minute leave from the front. */
  function Trimmed(times: seq<int>, cutoff: int): seq<int> {
    if times != [] && times[0] < cutoff then Trimmed(times[1..], cutoff) else times
  }

  function Bumped(s: State, now: int): State {
    s.(decisions := Trimmed(s.decisions + [now], now - 60), decided := s.decided + [now])
  }

  datatype Step =
    | Act(mode: Mode, action: Action, nanos: int)
    | Bump(now: int)
    | Fetch(request: nat, approval: bool, mode: Mode, key: Key)
    | Proceed(request: nat, now: int)
    | Finish(request: nat)
    | SetOther(name: string, value: Setting)

  /** Other code stores configuration under its own names, never an action of a known kind. */
  predicate Allowed(step: Step) {
    step.SetOther? && step.value.Suggestion? ==> step.value.action.kind.Unknown?
  }

  function Do(s: State, step: Step): State {
    match step
    case Act(mode, a, nanos) => Acted(s, mode, a, nanos)
    case Bump(now) => Bumped(s, now)
    case Fetch(w, approval, mode, key) => FetchedBy(s, w, approval, mode, key)
    case Proceed(w, now) => ActedBy(s, w, now)
    case Finish(w) => ReturnedBy(s, w)
    case SetOther(name, value) => s.(settings := s.settings[Named(name) := value])
  }

  function Run(s: State, steps: seq<Step>): State {
    if steps == [] then s else Do(Run(s, steps[..|steps| - 1]), steps[|steps| - 1])
  }

  /** A batch handed to `Apply`, one clock reading for each action and a last one for the decision. */
  function Batch(mode: Mode, actions: seq<Action>, nanos: seq<int>): seq<Step>
    requires |nanos| == |actions|
  {
    seq(|actions|, i requires 0 <= i < |actions| => Act(mode, actions[i], nanos[i]))
  }

  // ---- The executor -----------------------------------------------------------

  class Executor {
    var world: World
    var settings: map<Key, Setting>
    var audit: seq<AuditRow>
    var recentEvents: seq<Event>
    var decisionTS: seq<int>
    ghost var requests: map<nat, Request>
    ghost var effects: seq<Effect>
    ghost var written: seq<Suggested>
    ghost var resolved: seq<Key>
    ghost var events: seq<Event>
    ghost var decided: seq<int>

    ghost function Now(): State
      reads this
    {
      State(world, settings, audit, recentEvents, decisionTS, requests, effects, written, resolved, events, decided)
    }

    method RecordEvent(a: Action, mode: Mode, applied: bool, now: int)
      modifies this
      ensures Now() == Recorded(old(Now()), Event(now, mode, a, applied))
    {
      recentEvents := recentEvents + [Event(now, mode, a, applied)];
      events := events + [Event(now, mode, a, applied)];
      if |recentEvents| > EVENT_CAP {
        recentEvents := recentEvents[|recentEvents| - EVENT_CAP..];
      }
    }

    method LogAudit(a: Action, applied: bool)
      modifies this
      ensures Now() == Audited(old(Now()), a, applied)
    {
      audit := audit + [AuditRow(a, applied)];
    }

    method Execute(a: Action, now: int, ghost cause: Cause) returns (ok: bool)
      modifies this
      ensures ok <==> !a.kind.Unknown?
      ensures Now() == if ok then Executed(old(Now()), a, cause, now) else old(Now())
    {
      match a.kind {
        case SetConcurrency =>
          var n := a.value.Floor;
          if n < 1 {
            n := 1;
          }
          world := world.(concurrency := n);
        case SetWeightBoost =>
          if a.value <= 0.0 || (a.value >= 0.99 && a.value <= 1.01) {
            world := world.(boosts := world.boosts - {a.keyId});
          } else {
            world := world.(boosts := world.boosts[a.keyId := a.value]);
          }
        case DisableKey =>
          if a.keyId in world.enabled {
            world := world.(enabled := world.enabled[a.keyId := false]);
          }
        case OpenCircuit =>
          var seconds := a.value.Floor;
          if seconds <= 0 {
            seconds := 60;
          }
          if a.keyId in world.enabled {
            world := world.(coolingUntil := world.coolingUntil[a.keyId := now + seconds]);
          }
        case RevokeCredential =>
          world := world.(credentials := world.credentials - {a.credId});
        case Unknown(_) =>
          return false;
      }
      effects := effects + [Effect(a, cause, now)];
      return true;
    }

    method Apply(mode: Mode, actions: seq<Action>, nanos: seq<int>, now: int) returns (applied: nat)
      requires |nanos| == |actions|
      modifies this
      ensures Now() == if actions == [] then old(Now()) else Do(Run(old(Now()), Batch(mode, actions, nanos)), Bump(now))
      ensures applied == |effects| - |old(effects)|
    {
      applied := 0;
      if |actions| == 0 {
        return;
      }
      ghost var start, all := Now(), Batch(mode, actions, nanos);
      for i := 0 to |actions|
        invariant Now() == Run(start, all[..i])
        invariant applied == |effects| - |old(effects)|
      {
        hide Acted, Bumped, FetchedBy, ActedBy, ReturnedBy;
        assert all[..i + 1][..i] == all[..i];
        var more := ApplyOne(mode, actions[i], nanos[i]);
        applied := applied + more;
      }
      assert all[..|actions|] == all;
      BumpDecision(now);
    }

    method ApplyOne(mode: Mode, a: Action, nanos: int) returns (applied: nat)
      modifies this
      ensures Now() == Acted(old(Now()), mode, a, nanos)
      ensures applied == |effects| - |old(effects)|
    {
      applied := 0;
      var now := nanos / NANOS;
      match mode {
        case Manual =>
          RecordEvent(a, mode, false, now);
          LogAudit(a, false);
        case Assisted =>
          if Destructive(a.kind) {
            settings := settings[Pending(nanos) := Suggestion(a)];
            written := written + [Suggested(Pending(nanos), a)];
            LogAudit(a, false);
          } else {
            var ok := Execute(a, now, ByApply(mode));
            if !ok {
              LogAudit(a, false);
              return;
            }
            applied := 1;
            RecordEvent(a, mode, true, now);
            LogAudit(a, true);
          }
        case FullAuto =>
          if Destructive(a.kind) && a.confidence < MIN_CONFIDENCE {
            RecordEvent(a, mode, false, now);
            LogAudit(a, false);
            return;
          }
          var ok := Execute(a, now, ByApply(mode));
          if !ok {
            LogAudit(a, false);
            return;
          }
          applied := 1;
          RecordEvent(a, mode, true, now);
          LogAudit(a, true);
        case Unrecognised =>
      }
    }

    method BumpDecision(now: int)
      modifies this
      ensures Now() == Bumped(old(Now()), now)
    {
      decisionTS := decisionTS + [now];
      decided := decided + [now];
      var cutoff, i := now - 60, 0;
      while i < |decisionTS| && decisionTS[i] < cutoff
        invariant 0 <= i <= |decisionTS|
        invariant Trimmed(decisionTS, cutoff) == Trimmed(decisionTS[i..], cutoff)
      {
        assert decisionTS[i..][1..] == decisionTS[i + 1..];
        i := i + 1;
      }
      decisionTS := decisionTS[i..];
    }

    /** `request` is the identity of this call. */
    method ApprovePending(mode: Mode, key: Key, now: int, ghost request: nat) returns (ok: bool)
      requires request !in requests
      modifies this
      ensures ok <==> Approvable(old(Now()), key)
      ensures Now() == Called(old(Now()), request, true, mode, key, now)
    {
      Begin(request, true, mode, key);
      ghost var read := Now();
      if key !in settings || settings[key].Unparsable? {
        requests := AtStage(Now(), request, Returned).requests;
        return false;
      }
      var a := settings[key].action;
      ok := Execute(a, now, ByApproval(key, request));
      if !ok {
        requests := AtStage(Now(), request, Returned).requests;
        return;
      }
      RecordEvent(a, mode, true, now);
      LogAudit(a, true);
      requests := AtStage(Now(), request, Performed).requests;
      assert Now() == ActedBy(read, request, now);
      hide ActedBy, FetchedBy;
      DeleteSetting(key);
      requests := AtStage(Now(), request, Returned).requests;
    }

    method RejectPending(mode: Mode, key: Key, now: int, ghost request: nat)
      requires request !in requests
      modifies this
      ensures Now() == Called(old(Now()), request, false, mode, key, now)
    {
      Begin(request, false, mode, key);
      ghost var read := Now();
      var a := ZERO_ACTION;
      if key in settings && settings[key].Suggestion? {
        a := settings[key].action;
      }
      RecordEvent(a, mode, false, now);
      LogAudit(a, false);
      requests := AtStage(Now(), request, Performed).requests;
      assert Now() == ActedBy(read, request, now);
      hide ActedBy, FetchedBy;
      DeleteSetting(key);
      requests := AtStage(Now(), request, Returned).requests;
    }

    ghost method Begin(w: nat, approval: bool, mode: Mode, key: Key)
      requires w !in requests
      modifies this`requests
      ensures Now() == FetchedBy(old(Now()), w, approval, mode, key)
    {
      requests := requests[w := Request(approval, mode, key, ActionAt(Now(), key), Fetched, |written|, |resolved|)];
    }

    method DeleteSetting(key: Key)
      modifies this
      ensures Now() == Resolved(old(Now()), key)
    {
      if key in settings && key.Pending? {
        resolved := resolved + [key];
      }
      settings := settings - {key};
    }
  }

  // ---- Who may act ------------------------------------------------------------

  /** The ways an action may take effect. */
  predicate Authorised(e: Effect, written: seq<Suggested>) {
    match e.cause
    case ByApproval(key, _) => Destructive(e.action.kind) && Suggested(key, e.action) in written
    case ByApply(mode) =>
      if Destructive(e.action.kind) then mode == FullAuto && e.action.confidence >= MIN_CONFIDENCE
      else mode == Assisted || mode == FullAuto
  }

  predicate Safe(s: State) {
    && (forall i :: 0 <= i < |s.effects| ==> Authorised(s.effects[i], s.written))
    && (forall i :: 0 <= i < |s.written| ==> s.written[i].key.Pending? && Destructive(s.written[i].action.kind))
    && (forall k :: k in s.settings && Approvable(s, k) ==> Suggested(k, s.settings[k].action) in s.written)
    && (forall w :: w in s.requests && Runnable(s.requests[w].found) ==>
          Suggested(s.requests[w].key, s.requests[w].found.value) in s.written)
  }

  lemma SafeAct(s: State, mode: Mode, a: Action, nanos: int)
    requires Safe(s)
    ensures Safe(Acted(s, mode, a, nanos))
  {
    hide Perform, LastOf, Safe;
    var t := Acted(s, mode, a, nanos);
    if t.written == s.written {
      SafeEffect(s, t);
    } else {
      SafeSuggest(s, t, nanos, a);
    }
  }

  lemma SafeEffect(s: State, t: State)
    requires Safe(s) && t.settings == s.settings && t.written == s.written && t.requests == s.requests
    requires t.effects == s.effects
      || exists e: Effect :: t.effects == s.effects + [e] && Authorised(e, s.written)
    ensures Safe(t)
  {
    hide Authorised, Runnable;
  }

  lemma SafeSuggest(s: State, t: State, nanos: int, a: Action)
    requires Safe(s) && Destructive(a.kind) && t.requests == s.requests && t.effects == s.effects
    requires t.settings == s.settings[Pending(nanos) := Suggestion(a)]
    requires t.written == s.written + [Suggested(Pending(nanos), a)]
    ensures Safe(t)
  {
    hide Runnable;
    assert forall w :: w in s.written ==> w in t.written;
  }

  lemma SafeProceed(s: State, w: nat, now: int)
    requires Safe(s)
    ensures Safe(ActedBy(s, w, now))
  {
    hide Perform, LastOf;
    if w in s.requests && s.requests[w].stage == Fetched && s.requests[w].approval && Runnable(s.requests[w].found) {
      var r, t := s.requests[w], ActedBy(s, w, now);
      assert t.effects == s.effects + [Effect(r.found.value, ByApproval(r.key, w), now)];
      assert Destructive(r.found.value.kind) by {
        var i :| 0 <= i < |s.written| && s.written[i] == Suggested(r.key, r.found.value);
      }
    }
  }

  lemma SafeStep(s: State, step: Step)
    requires Safe(s) && Allowed(step)
    ensures Safe(Do(s, step))
  {
    match step
    case Act(mode, a, nanos) => SafeAct(s, mode, a, nanos); hide Acted, Safe;
    case Bump(now) => hide Trimmed;
    case Proceed(w, now) => SafeProceed(s, w, now); hide ActedBy, Safe;
    case _ => hide LastOf;
  }

  /** Over any run, with the mode switched at will and approvals and rejections overlapping, every
      action that took effect was authorised: a destructive one only by a full-auto decision of
      confidence 0.7 or more, or by approving a suggestion an assisted decision wrote under that key
      with that very action. Manual mode never causes an effect. */
  lemma {:induction false} EveryEffectAuthorised(s: State, steps: seq<Step>)
    requires Safe(s) && forall i :: 0 <= i < |steps| ==> Allowed(steps[i])
    ensures Safe(Run(s, steps))
  {
    if steps != [] {
      EveryEffectAuthorised(s, steps[..|steps| - 1]);
      SafeStep(Run(s, steps[..|steps| - 1]), steps[|steps| - 1]);
      hide Safe, Do;
    }
  }

  /** What a mode does with an action, exactly: it runs one of a known kind that is not destructive under
      assisted and full-auto, and a destructive one under full-auto with enough confidence; it suggests a
      destructive one under assisted. */
  predicate Runs(mode: Mode, a: Action) {
    match a.kind
    case Unknown(_) => false
    case SetConcurrency => mode == Assisted || mode == FullAuto
    case SetWeightBoost => mode == Assisted || mode == FullAuto
    case _ => mode == FullAuto && a.confidence >= 0.7
  }

  predicate Suggests(mode: Mode, a: Action) {
    mode == Assisted && (a.kind == DisableKey || a.kind == OpenCircuit || a.kind == RevokeCredential)
  }

  /** One decision: what takes effect, what is suggested, and what is recorded. Every decision in a known
      mode is audited, and all but suggestions and unknown kinds that were to be run are events. */
  lemma ActDecides(s: State, mode: Mode, a: Action, nanos: int)
    ensures var t, now, ran := Acted(s, mode, a, nanos), nanos / NANOS, Runs(mode, a);
            && t.effects == s.effects + (if ran then [Effect(a, ByApply(mode), now)] else [])
            && t.written == s.written + (if Suggests(mode, a) then [Suggested(Pending(nanos), a)] else [])
            && (Suggests(mode, a) ==> t.settings == s.settings[Pending(nanos) := Suggestion(a)])
            && (!Suggests(mode, a) ==> t.settings == s.settings)
            && t.audit == s.audit + (if mode == Unrecognised then [] else [AuditRow(a, ran)])
            && t.events == s.events +
              if mode == Unrecognised || Suggests(mode, a) || (a.kind.Unknown? && mode != Manual) then []
              else [Event(now, mode, a, ran)]
  {
    hide Perform, LastOf;
  }

  function DecidedEffects(steps: seq<Step>): seq<Effect> {
    if steps == [] then [] else DecidedEffects(steps[..|steps| - 1]) + Decided(steps[|steps| - 1])
  }

  function Decided(step: Step): seq<Effect> {
    if step.Act? && Runs(step.mode, step.action)
    then [Effect(step.action, ByApply(step.mode), step.nanos / 1_000_000_000)] else []
  }

  function ByDecision(effects: seq<Effect>): seq<Effect> {
    if effects == [] then []
    else
      var last := effects[|effects| - 1];
      ByDecision(effects[..|effects| - 1]) + if last.cause.ByApply? then [last] else []
  }

  lemma ByDecisionAppend(effects: seq<Effect>, more: seq<Effect>)
    requires |more| <= 1
    ensures ByDecision(effects + more)
         == ByDecision(effects) + if more != [] && more[0].cause.ByApply? then more else []
  {
    if more == [] {
      assert effects + more == effects;
    } else {
      assert (effects + more)[..|effects|] == effects;
    }
  }

  lemma StepDecides(s: State, step: Step)
    ensures ByDecision(Do(s, step).effects) == ByDecision(s.effects) + Decided(step)
  {
    match step
    case Act(mode, a, nanos) =>
      ActDecides(s, mode, a, nanos);
      ByDecisionAppend(s.effects, if Runs(mode, a) then [Effect(a, ByApply(mode), nanos / NANOS)] else []);
      hide Acted, ByDecision, Runs;
    case Proceed(w, now) =>
      if w in s.requests && s.requests[w].stage == Fetched && s.requests[w].approval && Runnable(s.requests[w].found) {
        var r := s.requests[w];
        var e := Effect(r.found.value, ByApproval(r.key, w), now);
        ByDecisionAppend(s.effects, [e]);
        hide Perform, LastOf, ByDecision, Runs;
        assert Do(s, step).effects == s.effects + [e];
      } else {
        hide LastOf, ByDecision;
      }
    case _ => hide LastOf, ByDecision, Trimmed;
  }

  /** A request that goes on, exactly: an approval that read an action of a known kind executes, audits and
      announces it; a rejection audits and announces what it read as not applied; any other records nothing. */
  lemma ProceedDecides(s: State, w: nat, now: int)
    requires w in s.requests && s.requests[w].stage == Fetched
    ensures var t, r := ActedBy(s, w, now), s.requests[w];
            var ran := r.approval && r.found.Some? && !r.found.value.kind.Unknown?;
            && t.written == s.written && t.settings == s.settings
            && t.effects == s.effects + (if ran then [Effect(r.found.value, ByApproval(r.key, w), now)] else [])
            && (ran ==> t.audit == s.audit + [AuditRow(r.found.value, true)])
            && (ran ==> t.events == s.events + [Event(now, r.mode, r.found.value, true)])
            && (r.approval && !ran ==> t.audit == s.audit && t.events == s.events)
            && (!r.approval && r.found.Some? ==> t.audit == s.audit + [AuditRow(r.found.value, false)])
            && (!r.approval && r.found.Some? ==> t.events == s.events + [Event(now, r.mode, r.found.value, false)])
  {
    hide Perform, LastOf;
  }

  /** Over any run, however requests come between, the effects that decisions have are exactly those their
      modes allow, in the order of the decisions: none is missed, added or repeated. */
  lemma {:induction false} EffectsAreDecisions(s: State, steps: seq<Step>)
    ensures ByDecision(Run(s, steps).effects) == ByDecision(s.effects) + DecidedEffects(steps)
  {
    if steps != [] {
      var n := |steps| - 1;
      EffectsAreDecisions(s, steps[..n]);
      StepDecides(Run(s, steps[..n]), steps[n]);
      hide Do, ByDecision, Decided;
    }
  }

  /** A suggestion is written only by an assisted decision on a destructive action. */
  lemma OnlyAssistedSuggests(s: State, step: Step)
    ensures Do(s, step).written != s.written ==>
              step.Act? && step.mode == Assisted && Destructive(step.action.kind)
              && Do(s, step).written == s.written + [Suggested(Pending(step.nanos), step.action)]
  {
    hide Perform, Trimmed, LastOf;
  }

  lemma {:induction false} ManualChangesNothing(s: State, actions: seq<Action>, nanos: seq<int>)
    requires |nanos| == |actions|
    ensures var t := Run(s, Batch(Manual, actions, nanos));
            && t.world == s.world && t.settings == s.settings && t.effects == s.effects && t.written == s.written
            && |t.events| == |s.events| + |actions|
            && forall i :: 0 <= i < |actions| ==>
              t.events[|s.events| + i] == Event(nanos[i] / NANOS, Manual, actions[i], false)
  {
    if actions != [] {
      var n := |actions| - 1;
      ManualChangesNothing(s, actions[..n], nanos[..n]);
      assert Batch(Manual, actions, nanos)[..n] == Batch(Manual, actions[..n], nanos[..n]);
      hide LastOf;
    }
  }

  // ---- The suggestions --------------------------------------------------------

  predicate Written(written: seq<Suggested>, k: Key) {
    exists i :: 0 <= i < |written| && written[i].key == k
  }

  predicate DistinctKeys(written: seq<Suggested>) {
    forall i, j :: 0 <= i < j < |written| ==> written[i].key != written[j].key
  }

  /** What is pending is what was written and neither approved nor rejected, unaltered, and nothing is
      resolved twice. */
  predicate Booked(s: State) {
    && (forall i :: 0 <= i < |s.written| ==> (s.written[i].key in s.settings <==> s.written[i].key !in s.resolved))
    && (forall i :: 0 <= i < |s.written| && s.written[i].key in s.settings ==>
          s.settings[s.written[i].key] == Suggestion(s.written[i].action))
    && (forall k :: k in s.settings && k.Pending? ==> Written(s.written, k))
    && (forall k :: k in s.resolved ==> k.Pending? && Written(s.written, k))
    && (forall i, j :: 0 <= i < j < |s.resolved| ==> s.resolved[i] != s.resolved[j])
  }

  /** The call read its key after the suggestion was written and before it was first deleted. */
  predicate InTime(s: State, r: Request) {
    && r.written <= |s.written| && r.resolved <= |s.resolved|
    && Written(s.written[..r.written], r.key) && r.key !in s.resolved[..r.resolved]
  }

  /** A call finds something to run exactly when it reads in time. */
  predicate Seen(s: State) {
    forall w :: w in s.requests ==>
      && s.requests[w].written <= |s.written| && s.requests[w].resolved <= |s.resolved|
      && (Runnable(s.requests[w].found) <==> InTime(s, s.requests[w]))
  }

  /** An approval that has gone on with something to run. */
  predicate RunBy(s: State, w: nat) {
    w in s.requests && s.requests[w].approval && s.requests[w].stage != Fetched && Runnable(s.requests[w].found)
  }

  function KeyOf(s: State, w: nat): Key
    requires w in s.requests
  {
    s.requests[w].key
  }

  predicate Caused(effects: seq<Effect>, cause: Cause) {
    exists i :: 0 <= i < |effects| && effects[i].cause == cause
  }

  /** Each approval has run what it read once it has gone on, and once only, and nothing else was run on
      anyone's approval. */
  ghost predicate Traced(s: State) {
    && (forall i :: 0 <= i < |s.effects| && s.effects[i].cause.ByApproval? ==>
          RunBy(s, s.effects[i].cause.request) && s.requests[s.effects[i].cause.request].key == s.effects[i].cause.key)
    && (forall w :: RunBy(s, w) ==> Caused(s.effects, ByApproval(s.requests[w].key, w)))
    && (forall i, j :: 0 <= i < j < |s.effects| && s.effects[i].cause.ByApproval? && s.effects[j].cause.ByApproval? ==>
          s.effects[i].cause.request != s.effects[j].cause.request)
  }

  /** What was run is no longer pending when the approval returns. */
  ghost predicate Gone(s: State) {
    forall w :: RunBy(s, w) && s.requests[w].stage == Returned ==> s.requests[w].key in s.resolved
  }

  ghost predicate Ledger(s: State) {
    Booked(s) && Seen(s) && Traced(s) && Gone(s)
  }

  lemma BookedSuggest(s: State, t: State, nanos: int, a: Action)
    requires Safe(s) && Booked(s) && t.resolved == s.resolved && DistinctKeys(t.written)
    requires t.settings == s.settings[Pending(nanos) := Suggestion(a)]
    requires t.written == s.written + [Suggested(Pending(nanos), a)]
    ensures Booked(t)
  {
    var n := |s.written|;
    assert t.written[n].key == Pending(nanos);
    assert forall i :: 0 <= i < n ==> t.written[i] == s.written[i] && t.written[i].key != t.written[n].key;
    assert Written(t.written, Pending(nanos));
    forall k | Written(s.written, k) ensures Written(t.written, k) {
      var i :| 0 <= i < n && s.written[i].key == k;
      assert t.written[i].key == k;
    }
    assert Pending(nanos) !in s.resolved;
  }

  lemma BookedResolve(s: State, key: Key)
    requires Safe(s) && Booked(s)
    ensures Booked(Resolved(s, key))
    ensures Written(s.written, key) ==> key in Resolved(s, key).resolved
  {
    if Written(s.written, key) {
      var i :| 0 <= i < |s.written| && s.written[i].key == key;
      assert key in s.settings <==> key !in s.resolved;
    }
  }

  lemma BookedFrame(s: State, t: State)
    requires Booked(s) && s.settings == t.settings && s.written == t.written && s.resolved == t.resolved
    ensures Booked(t)
  {
  }

  /** No request changes anything but its stage. */
  ghost predicate SameRequests(s: State, t: State) {
    && (forall w :: w in t.requests <==> w in s.requests)
    && (forall w :: w in s.requests ==> t.requests[w].(stage := Fetched) == s.requests[w].(stage := Fetched))
  }

  lemma SeenFrame(s: State, t: State)
    requires Seen(s) && SameRequests(s, t) && s.written <= t.written && s.resolved <= t.resolved
    ensures Seen(t)
  {
    hide Written;
    forall w | w in t.requests
      ensures t.requests[w].written <= |t.written| && t.requests[w].resolved <= |t.resolved|
      ensures Runnable(t.requests[w].found) <==> InTime(t, t.requests[w])
    {
      var r := s.requests[w];
      assert t.requests[w].(stage := Fetched) == r.(stage := Fetched);
      assert t.written[..r.written] == s.written[..r.written] && t.resolved[..r.resolved] == s.resolved[..r.resolved];
    }
  }

  lemma FoundIffInTime(s: State, key: Key)
    requires Safe(s) && Booked(s)
    ensures Approvable(s, key) <==> Written(s.written, key) && key !in s.resolved
  {
    if Approvable(s, key) {
      var i :| 0 <= i < |s.written| && s.written[i] == Suggested(key, s.settings[key].action);
    }
    if Written(s.written, key) && key !in s.resolved {
      var i :| 0 <= i < |s.written| && s.written[i].key == key;
    }
  }

  lemma SeenFetch(s: State, w: nat, approval: bool, mode: Mode, key: Key)
    requires Safe(s) && Booked(s) && Seen(s)
    ensures Seen(FetchedBy(s, w, approval, mode, key))
  {
    FoundIffInTime(s, key);
    assert s.written[..|s.written|] == s.written && s.resolved[..|s.resolved|] == s.resolved;
    hide Written, Safe, Booked;
    var t := FetchedBy(s, w, approval, mode, key);
    forall v | v in s.requests ensures InTime(t, s.requests[v]) <==> InTime(s, s.requests[v]) {
    }
  }

  /** Traced and Gone depend on the effects, the requests and, growing, the resolved keys. */
  lemma TracedFrame(s: State, t: State)
    requires Traced(s) && Gone(s) && t.requests == s.requests && s.resolved <= t.resolved
    requires t.effects == s.effects
      || exists e: Effect :: t.effects == s.effects + [e] && e.cause.ByApply?
    ensures Traced(t) && Gone(t)
  {
    forall w | RunBy(t, w) ensures Caused(t.effects, ByApproval(t.requests[w].key, w)) {
      assert RunBy(s, w);
      CausedMore(s.effects, t.effects, ByApproval(t.requests[w].key, w));
    }
    hide Caused;
  }

  lemma CausedMore(effects: seq<Effect>, more: seq<Effect>, cause: Cause)
    requires Caused(effects, cause) && effects <= more
    ensures Caused(more, cause)
  {
    var i :| 0 <= i < |effects| && effects[i].cause == cause;
    assert more[i].cause == cause;
  }

  lemma TracedFetch(s: State, w: nat, approval: bool, mode: Mode, key: Key)
    requires Traced(s) && Gone(s)
    ensures Traced(FetchedBy(s, w, approval, mode, key)) && Gone(FetchedBy(s, w, approval, mode, key))
  {
    var t := FetchedBy(s, w, approval, mode, key);
    assert forall v :: RunBy(t, v) <==> RunBy(s, v);
    hide Caused, Runnable;
  }

  lemma TracedRun(s: State, w: nat, now: int)
    requires Traced(s) && Gone(s) && w in s.requests && s.requests[w].stage == Fetched
    requires s.requests[w].approval && Runnable(s.requests[w].found)
    ensures Traced(ActedBy(s, w, now)) && Gone(ActedBy(s, w, now))
  {
    var t, r := ActedBy(s, w, now), s.requests[w];
    hide Runnable, LastOf, Perform;
    var n, e := |s.effects|, Effect(r.found.value, ByApproval(r.key, w), now);
    assert t.effects == s.effects + [e];
    assert forall v :: RunBy(t, v) <==> v == w || RunBy(s, v);
    assert t.effects[n].cause == ByApproval(r.key, w);
    forall v | RunBy(t, v) ensures Caused(t.effects, ByApproval(t.requests[v].key, v)) {
      if v != w {
        CausedMore(s.effects, t.effects, ByApproval(s.requests[v].key, v));
      }
    }
    hide Caused;
  }

  lemma TracedStage(s: State, t: State, w: nat)
    requires Traced(s) && Gone(s) && w in s.requests && w in t.requests
    requires t.requests == AtStage(s, w, t.requests[w].stage).requests
    requires t.effects == s.effects && s.resolved <= t.resolved
    requires forall v :: RunBy(t, v) <==> RunBy(s, v)
    requires RunBy(t, w) && t.requests[w].stage == Returned ==> t.requests[w].key in t.resolved
    ensures Traced(t) && Gone(t)
  {
    hide Caused, Runnable;
  }

  lemma LedgerAct(s: State, mode: Mode, a: Action, nanos: int)
    requires Safe(s) && Ledger(s) && DistinctKeys(Acted(s, mode, a, nanos).written)
    ensures Ledger(Acted(s, mode, a, nanos))
  {
    var t := Acted(s, mode, a, nanos);
    hide Booked, Seen, Traced, Gone, Safe, DistinctKeys, Perform, LastOf;
    if mode == Assisted && Destructive(a.kind) {
      BookedSuggest(s, t, nanos, a);
    } else {
      BookedFrame(s, t);
    }
    SeenFrame(s, t);
    TracedFrame(s, t);
  }

  lemma LedgerProceed(s: State, w: nat, now: int)
    requires Safe(s) && Ledger(s)
    ensures Ledger(ActedBy(s, w, now))
  {
    var t := ActedBy(s, w, now);
    hide Booked, Traced, Gone, Seen, Safe, Perform, LastOf, Runnable;
    if w in s.requests && s.requests[w].stage == Fetched {
      BookedFrame(s, t);
      SeenFrame(s, t);
      if s.requests[w].approval && Runnable(s.requests[w].found) {
        TracedRun(s, w, now);
      } else {
        TracedStage(s, t, w);
      }
    }
  }

  lemma InTimeIsWritten(s: State, r: Request)
    requires InTime(s, r)
    ensures Written(s.written, r.key)
  {
    var i :| 0 <= i < r.written && s.written[..r.written][i].key == r.key;
    assert s.written[i].key == r.key;
  }

  lemma LedgerReturn(s: State, w: nat)
    requires Safe(s) && Ledger(s)
    ensures Ledger(ReturnedBy(s, w))
  {
    if w in s.requests && s.requests[w].stage == Performed {
      var mid, r := AtStage(s, w, Returned), s.requests[w];
      assert Runnable(r.found) ==> InTime(s, r);
      assert Safe(mid);
      BookedFrame(s, mid);
      hide Booked, Traced, Gone, Seen, Safe, Runnable, InTime, Written;
      if Runnable(r.found) {
        InTimeIsWritten(s, r);
      }
      BookedResolve(mid, r.key);
      LedgerDelete(s, w);
    }
  }

  lemma LedgerDelete(s: State, w: nat)
    requires Seen(s) && Traced(s) && Gone(s) && w in s.requests && s.requests[w].stage == Performed
    requires Booked(ReturnedBy(s, w))
      && (Runnable(s.requests[w].found) ==> s.requests[w].key in ReturnedBy(s, w).resolved)
    ensures Ledger(ReturnedBy(s, w))
  {
    var t := ReturnedBy(s, w);
    hide Booked, Traced, Gone, Seen, Runnable;
    assert forall v :: RunBy(t, v) <==> RunBy(s, v);
    assert s.resolved <= t.resolved && t.requests == AtStage(s, w, Returned).requests;
    hide Resolved, ReturnedBy;
    SeenFrame(s, t);
    TracedStage(s, t, w);
  }

  lemma LedgerStep(s: State, step: Step)
    requires Safe(s) && Ledger(s) && Allowed(step) && DistinctKeys(Do(s, step).written)
    ensures Ledger(Do(s, step))
  {
    var t := Do(s, step);
    hide Perform, LastOf, Trimmed, Acted, Booked, Seen, Traced, Gone, Safe, DistinctKeys, ActedBy, ReturnedBy;
    match step
    case Act(mode, a, nanos) => LedgerAct(s, mode, a, nanos);
    case Bump(now) =>
      BookedFrame(s, t);
      SeenFrame(s, t);
      TracedFrame(s, t);
    case Fetch(w, approval, mode, key) =>
      BookedFrame(s, t);
      SeenFetch(s, w, approval, mode, key);
      TracedFetch(s, w, approval, mode, key);
    case Proceed(w, now) => LedgerProceed(s, w, now);
    case Finish(w) => LedgerReturn(s, w);
    case SetOther(name, value) =>
      BookedOther(s, t, name, value);
      SeenFrame(s, t);
      TracedFrame(s, t);
  }

  lemma BookedOther(s: State, t: State, name: string, value: Setting)
    requires Safe(s) && Booked(s) && t == s.(settings := s.settings[Named(name) := value])
    ensures Booked(t)
  {
  }

  lemma DistinctBefore(s: State, step: Step)
    requires DistinctKeys(Do(s, step).written)
    ensures DistinctKeys(s.written)
  {
    OnlyAssistedSuggests(s, step);
    hide Do;
    assert forall i :: 0 <= i < |s.written| ==> s.written[i] == Do(s, step).written[i];
  }

  /** Over any run, overlapping requests included, whose suggestions fell on distinct nanoseconds (in the
      same nanosecond they share a key). */
  lemma {:induction false} PendingIsWrittenMinusResolved(s: State, steps: seq<Step>)
    requires Safe(s) && Ledger(s) && forall i :: 0 <= i < |steps| ==> Allowed(steps[i])
    requires DistinctKeys(Run(s, steps).written)
    ensures Ledger(Run(s, steps))
  {
    if steps != [] {
      var pre, last := steps[..|steps| - 1], steps[|steps| - 1];
      var t := Run(s, pre);
      DistinctBefore(t, last);
      EveryEffectAuthorised(s, pre);
      PendingIsWrittenMinusResolved(s, pre);
      hide Ledger, Safe, Do;
      LedgerStep(t, last);
    }
  }

  // ---- How often a suggestion runs --------------------------------------------

  /** An approval that has gone on and read its suggestion between its writing and its first deletion. */
  predicate Effective(s: State, w: nat) {
    w in s.requests && s.requests[w].approval && s.requests[w].stage != Fetched && InTime(s, s.requests[w])
  }

  predicate RunFor(effects: seq<Effect>, key: Key) {
    exists i :: 0 <= i < |effects| && effects[i].cause.ByApproval? && effects[i].cause.key == key
  }

  predicate AtMostOnce(effects: seq<Effect>, key: Key) {
    forall i, j :: 0 <= i < j < |effects| && effects[i].cause.ByApproval? && effects[j].cause.ByApproval? ==>
      !(effects[i].cause.key == key && effects[j].cause.key == key)
  }

  /** The exact law, over any run from the start: a suggestion is run by exactly those approvals that read
      it in time and have gone on, once by each. So it is run at all, even after it was rejected and
      deleted, if and only if there is such an approval, and at most once if and only if there are not two
      of them. It does not matter who deletes it first, nor when the approvals act. */
  lemma RunsAreApprovalsInTime(s0: State, steps: seq<Step>, key: Key)
    requires Start(s0) && (forall i :: 0 <= i < |steps| ==> Allowed(steps[i])) && DistinctKeys(Run(s0, steps).written)
    ensures var t := Run(s0, steps);
            && (forall w :: w in t.requests && t.requests[w].key == key ==>
                  (Caused(t.effects, ByApproval(key, w)) <==> Effective(t, w)))
            && (RunFor(t.effects, key) <==> exists w :: Effective(t, w) && KeyOf(t, w) == key)
            && (AtMostOnce(t.effects, key) <==>
                  forall v, w :: Effective(t, v) && Effective(t, w) && KeyOf(t, v) == key == KeyOf(t, w) ==> v == w)
  {
    var t := Run(s0, steps);
    StartIsGood(s0);
    PendingIsWrittenMinusResolved(s0, steps);
    hide Run, Start, DistinctKeys, Booked, Safe, InTime;
    assert forall w :: RunBy(t, w) <==> Effective(t, w);
    CausesAre(t, key);
  }

  lemma CausesAre(t: State, key: Key)
    requires Traced(t)
    ensures RunFor(t.effects, key) <==> exists w :: RunBy(t, w) && KeyOf(t, w) == key
    ensures forall w :: w in t.requests && t.requests[w].key == key ==>
      (Caused(t.effects, ByApproval(key, w)) <==> RunBy(t, w))
    ensures AtMostOnce(t.effects, key) <==>
      forall v, w :: RunBy(t, v) && RunBy(t, w) && KeyOf(t, v) == key == KeyOf(t, w) ==> v == w
  {
    hide Runnable;
    if AtMostOnce(t.effects, key) {
      forall v, w | RunBy(t, v) && RunBy(t, w) && KeyOf(t, v) == key == KeyOf(t, w)
        ensures v == w {
        var i :| 0 <= i < |t.effects| && t.effects[i].cause == ByApproval(key, v);
        var j :| 0 <= j < |t.effects| && t.effects[j].cause == ByApproval(key, w);
        assert i == j;
      }
    }
  }

  predicate UnderWay(s: State, w: nat) {
    w in s.requests && s.requests[w].stage != Returned
  }

  ghost predicate Idle(s: State) {
    forall w :: !UnderWay(s, w)
  }

  /** Requests do not overlap. */
  ghost predicate Serial(s0: State, steps: seq<Step>) {
    steps == []
    || (Serial(s0, steps[..|steps| - 1])
        && (steps[|steps| - 1].Fetch? ==> Idle(Run(s0, steps[..|steps| - 1]))))
  }

  /** At most one request is under way, and nothing has been deleted since it read. */
  ghost predicate Solo(s: State) {
    && (forall v, w :: UnderWay(s, v) && UnderWay(s, w) ==> v == w)
    && (forall w :: UnderWay(s, w) ==> s.requests[w].resolved == |s.resolved|)
  }

  ghost predicate OneEach(s: State) {
    forall v, w :: RunBy(s, v) && RunBy(s, w) && KeyOf(s, v) == KeyOf(s, w) ==> v == w
  }

  lemma SoloStep(s: State, step: Step)
    requires Seen(s) && Gone(s) && Solo(s) && OneEach(s) && (step.Fetch? ==> Idle(s))
    ensures Solo(Do(s, step)) && OneEach(Do(s, step))
  {
    var t := Do(s, step);
    hide Perform, LastOf, Trimmed, Runnable, Written, Seen, Gone, InTime, Solo, OneEach;
    match step
    case Act(mode, a, nanos) => SoloFrame(s, t);
    case Fetch(w, approval, mode, key) => hide FetchedBy; SoloFetch(s, w, approval, mode, key);
    case Proceed(w, now) => hide ActedBy; SoloProceed(s, w, now);
    case Finish(w) => hide ReturnedBy; SoloReturn(s, w);
    case _ => SoloFrame(s, t);
  }

  lemma SoloFetch(s: State, w: nat, approval: bool, mode: Mode, key: Key)
    requires Idle(s) && OneEach(s)
    ensures Solo(FetchedBy(s, w, approval, mode, key)) && OneEach(FetchedBy(s, w, approval, mode, key))
  {
    hide Runnable;
    var t := FetchedBy(s, w, approval, mode, key);
    assert forall v :: RunBy(t, v) <==> RunBy(s, v);
    assert forall v :: v != w ==> (UnderWay(t, v) <==> UnderWay(s, v));
  }

  lemma SoloProceed(s: State, w: nat, now: int)
    requires Seen(s) && Gone(s) && Solo(s) && OneEach(s)
    ensures Solo(ActedBy(s, w, now)) && OneEach(ActedBy(s, w, now))
  {
    var t := ActedBy(s, w, now);
    hide Perform, LastOf, Runnable, Written, Seen, Gone, InTime;
    if w in s.requests && s.requests[w].stage == Fetched {
      forall v | RunBy(s, v) ensures v != w && (Runnable(s.requests[w].found) ==> KeyOf(s, v) != KeyOf(s, w)) {
        SoloRun(s, v, w);
      }
      assert forall v :: RunBy(t, v) ==> v == w || RunBy(s, v);
      assert forall v :: UnderWay(t, v) ==> UnderWay(s, v);
    }
  }

  lemma SoloReturn(s: State, w: nat)
    requires Solo(s) && OneEach(s)
    ensures Solo(ReturnedBy(s, w)) && OneEach(ReturnedBy(s, w))
  {
    var t := ReturnedBy(s, w);
    hide Runnable;
    if w in s.requests && s.requests[w].stage == Performed {
      assert forall v :: RunBy(t, v) <==> RunBy(s, v);
      assert UnderWay(s, w);
      assert forall v :: UnderWay(t, v) ==> UnderWay(s, v) && v != w;
    }
  }

  lemma SoloFrame(s: State, t: State)
    requires Solo(s) && OneEach(s) && t.requests == s.requests && t.resolved == s.resolved
    ensures Solo(t) && OneEach(t)
  {
    hide Runnable;
    assert forall v :: (RunBy(t, v) <==> RunBy(s, v)) && (UnderWay(t, v) <==> UnderWay(s, v));
  }

  /** What the one request under way has found was not run before. */
  lemma SoloRun(s: State, v: nat, w: nat)
    requires Seen(s) && Gone(s) && Solo(s) && RunBy(s, v) && w in s.requests && s.requests[w].stage == Fetched
    ensures v != w && (Runnable(s.requests[w].found) ==> KeyOf(s, v) != KeyOf(s, w))
  {
    hide Runnable, Written;
    var r := s.requests[w];
    assert UnderWay(s, w) && !UnderWay(s, v);
    assert s.resolved[..r.resolved] == s.resolved;
    assert Runnable(r.found) ==> InTime(s, r);
  }

  lemma {:induction false} SerialKept(s0: State, steps: seq<Step>)
    requires Start(s0) && (forall i :: 0 <= i < |steps| ==> Allowed(steps[i])) && DistinctKeys(Run(s0, steps).written)
    requires Serial(s0, steps)
    ensures Solo(Run(s0, steps)) && OneEach(Run(s0, steps))
  {
    if steps != [] {
      var pre, last := steps[..|steps| - 1], steps[|steps| - 1];
      DistinctBefore(Run(s0, pre), last);
      SerialKept(s0, pre);
      StartIsGood(s0);
      PendingIsWrittenMinusResolved(s0, pre);
      hide Start, Safe, DistinctKeys, Booked, Traced, Seen, Gone, Solo, OneEach, Do;
      SoloStep(Run(s0, pre), last);
    }
  }

  /** Requests that do not overlap run every suggestion at most once, and what was run is gone when its
      approval returns. */
  lemma SerialRunsOnce(s0: State, steps: seq<Step>, key: Key)
    requires Start(s0) && (forall i :: 0 <= i < |steps| ==> Allowed(steps[i])) && DistinctKeys(Run(s0, steps).written)
    requires Serial(s0, steps)
    ensures var t := Run(s0, steps);
            && AtMostOnce(t.effects, key)
            && (Idle(t) ==> forall i :: 0 <= i < |t.effects| && t.effects[i].cause.ByApproval? ==>
                  t.effects[i].cause.key in t.resolved && t.effects[i].cause.key !in t.settings)
  {
    var t := Run(s0, steps);
    SerialKept(s0, steps);
    StartIsGood(s0);
    PendingIsWrittenMinusResolved(s0, steps);
    EveryEffectAuthorised(s0, steps);
    hide Run, Start, DistinctKeys, Serial, Solo, Seen, Safe, Traced, Gone, Booked, RunBy, Idle;
    CausesAre(t, key);
    if Idle(t) {
      RunIsGone(t);
    }
  }

  lemma RunIsGone(t: State)
    requires Safe(t) && Ledger(t) && Idle(t)
    ensures forall i :: 0 <= i < |t.effects| && t.effects[i].cause.ByApproval? ==>
      t.effects[i].cause.key in t.resolved && t.effects[i].cause.key !in t.settings
  {
    hide Seen;
    forall i | 0 <= i < |t.effects| && t.effects[i].cause.ByApproval?
      ensures t.effects[i].cause.key in t.resolved && t.effects[i].cause.key !in t.settings {
      var e := t.effects[i];
      assert RunBy(t, e.cause.request) && !UnderWay(t, e.cause.request);
      assert Authorised(e, t.written);
      var k :| 0 <= k < |t.written| && t.written[k] == Suggested(e.cause.key, e.action);
    }
  }

  /** Two approvals that both read before either deletes run the suggestion twice. */
  lemma OverlappingApprovalsRunTwice(s: State, mode: Mode, key: Key, now: int)
    requires Approvable(s, key) && 0 !in s.requests && 1 !in s.requests
    ensures var a := s.settings[key].action;
            var t := Run(s, [Fetch(0, true, mode, key), Fetch(1, true, mode, key), Proceed(0, now), Finish(0),
              Proceed(1, now), Finish(1)]);
            && t.effects == s.effects + [Effect(a, ByApproval(key, 0), now), Effect(a, ByApproval(key, 1), now)]
            && key !in t.settings
  {
    var steps := [Fetch(0, true, mode, key), Fetch(1, true, mode, key), Proceed(0, now), Finish(0), Proceed(1, now),
      Finish(1)];
    var r := Request(true, mode, key, Some(s.settings[key].action), Fetched, |s.written|, |s.resolved|);
    assert Runnable(r.found) && r.found == ActionAt(s, key);
    forall k | 0 <= k < |steps| ensures Run(s, steps[..k + 1]) == Do(Run(s, steps[..k]), steps[k]) {
      RunNext(s, steps, k);
    }
    assert steps[..|steps|] == steps && Run(s, steps[..0]) == s;
    hide *;
    var s1 := Do(s, steps[0]);
    FetchWaits(s, r, 0, 1);
    var s2 := Do(s1, steps[1]);
    FetchWaits(s1, r, 1, 0);
    var s4 := Do(Do(s2, steps[2]), steps[3]);
    RunsOnReturning(s2, r, 0, 1, now);
    RunsOnReturning(s4, r, 1, 0, now);
  }

  lemma FetchWaits(s: State, r: Request, w: nat, v: nat)
    requires r.approval && r.stage == Fetched && r.found == ActionAt(s, r.key) && Runnable(r.found)
    requires r.written == |s.written| && r.resolved == |s.resolved| && w !in s.requests && v != w
    ensures var t := Do(s, Fetch(w, true, r.mode, r.key));
            && Waits(t, r, w) && (Waits(s, r, v) ==> Waits(t, r, v)) && (v in t.requests <==> v in s.requests)
            && t.effects == s.effects && t.written == s.written && t.resolved == s.resolved
            && ActionAt(t, r.key) == ActionAt(s, r.key)
  {
  }

  predicate Waits(s: State, r: Request, w: nat) {
    w in s.requests && s.requests[w] == r && r.stage == Fetched && r.approval && Runnable(r.found)
  }

  lemma RunsOnReturning(s: State, r: Request, w: nat, v: nat, now: int)
    requires Waits(s, r, w)
    ensures var t := Do(Do(s, Proceed(w, now)), Finish(w));
            && t.effects == s.effects + [Effect(r.found.value, ByApproval(r.key, w), now)] && r.key !in t.settings
            && (v != w && Waits(s, r, v) ==> Waits(t, r, v))
  {
    hide Perform, LastOf;
  }

  /** A suggestion that has been rejected and deleted is still run by an approval that read it before. */
  lemma RejectedStillRuns(s: State, mode: Mode, key: Key, now: int)
    requires Approvable(s, key) && 0 !in s.requests && 1 !in s.requests
    ensures var rejected := Run(s, [Fetch(0, true, mode, key), Fetch(1, false, mode, key), Proceed(1, now), Finish(1)]);
            && key !in rejected.settings && rejected.effects == s.effects
            && Do(rejected, Proceed(0, now)).effects
               == s.effects + [Effect(s.settings[key].action, ByApproval(key, 0), now)]
  {
    var steps := [Fetch(0, true, mode, key), Fetch(1, false, mode, key), Proceed(1, now), Finish(1)];
    RunFour(s, steps);
    hide Run, Do, Perform, LastOf;
    RejectionKeepsRead(s, mode, key, now);
  }

  lemma RunFour(s: State, steps: seq<Step>)
    requires |steps| == 4
    ensures Run(s, steps) == Do(Do(Do(Do(s, steps[0]), steps[1]), steps[2]), steps[3])
  {
    forall k | 0 <= k < |steps| ensures Run(s, steps[..k + 1]) == Do(Run(s, steps[..k]), steps[k]) {
      RunNext(s, steps, k);
    }
    assert steps[..|steps|] == steps && Run(s, steps[..0]) == s;
    hide Do;
  }

  lemma RejectionKeepsRead(s: State, mode: Mode, key: Key, now: int)
    requires Approvable(s, key) && 0 !in s.requests && 1 !in s.requests
    ensures var read := Do(Do(s, Fetch(0, true, mode, key)), Fetch(1, false, mode, key));
            var t := Do(Do(read, Proceed(1, now)), Finish(1));
            && key !in t.settings && t.effects == s.effects
            && Do(t, Proceed(0, now)).effects
               == s.effects + [Effect(s.settings[key].action, ByApproval(key, 0), now)]
  {
    hide Perform, LastOf;
    var s2 := Do(Do(s, Fetch(0, true, mode, key)), Fetch(1, false, mode, key));
    var s4 := Do(Do(s2, Proceed(1, now)), Finish(1));
    assert s4.requests[0] == s2.requests[0];
  }

  lemma RunNext(s: State, steps: seq<Step>, k: nat)
    requires k < |steps|
    ensures Run(s, steps[..k + 1]) == Do(Run(s, steps[..k]), steps[k])
  {
    assert steps[..k + 1][..k] == steps[..k];
    hide Do;
  }

  /** An assisted decision finds its key pending with a different action. */
  predicate Collides(s: State, step: Step) {
    step.Act? && step.mode == Assisted && Destructive(step.action.kind)
    && ActionAt(s, Pending(step.nanos)).Some? && ActionAt(s, Pending(step.nanos)).value != step.action
  }

  /** A request that has acted deletes its key. */
  predicate Deletes(s: State, step: Step, key: Key) {
    step.Finish? && step.request in s.requests && s.requests[step.request].stage == Performed
    && s.requests[step.request].key == key
  }

  ghost predicate DeletedBetween(s: State, steps: seq<Step>, i: nat, j: nat, key: Key)
    requires j <= |steps|
  {
    exists m :: i <= m < j && Deletes(Run(s, steps[..m]), steps[m], key)
  }

  lemma KeptByStep(s: State, step: Step, key: Key)
    requires key.Pending? && ActionAt(s, key).Some? && !Collides(s, step)
    ensures ActionAt(Do(s, step), key) == ActionAt(s, key) || Deletes(s, step, key)
  {
    hide Perform, LastOf, Trimmed;
  }

  ghost predicate KeptFrom(s: State, steps: seq<Step>, i: nat, j: nat, key: Key)
    requires i <= j <= |steps|
  {
    ActionAt(Run(s, steps[..i]), key).Some? ==>
      ActionAt(Run(s, steps[..j]), key) == ActionAt(Run(s, steps[..i]), key) || DeletedBetween(s, steps, i, j, key)
  }

  lemma {:induction false} KeptUntil(s: State, steps: seq<Step>, i: nat, j: nat, key: Key)
    requires i <= j <= |steps| && key.Pending?
    requires forall m :: 0 <= m < |steps| ==> !Collides(Run(s, steps[..m]), steps[m])
    ensures KeptFrom(s, steps, i, j, key)
    decreases j
  {
    hide Do, Collides, Deletes, ActionAt;
    if i < j && ActionAt(Run(s, steps[..i]), key).Some? {
      KeptUntil(s, steps, i, j - 1, key);
      RunNext(s, steps, j - 1);
      if !DeletedBetween(s, steps, i, j - 1, key) {
        KeptByStep(Run(s, steps[..j - 1]), steps[j - 1], key);
      }
    }
  }

  lemma CollisionOverwrites(s: State, step: Step)
    requires Collides(s, step)
    ensures var key := Pending(step.nanos);
            && ActionAt(s, key).Some? && ActionAt(Do(s, step), key) != ActionAt(s, key) && !Deletes(s, step, key)
  {
    hide Perform, LastOf;
  }

  lemma CollisionLoses(s: State, steps: seq<Step>, m: nat)
    requires m < |steps| && Collides(Run(s, steps[..m]), steps[m])
    ensures steps[m].Act? && !KeptFrom(s, steps, m, m + 1, Pending(steps[m].nanos))
  {
    assert steps[m].Act?;
    hide Run, Do, Collides, Deletes, ActionAt;
    RunNext(s, steps, m);
    CollisionOverwrites(Run(s, steps[..m]), steps[m]);
  }

  /** The exact law over any run, whatever the clock: every suggestion that is pending at some moment stays
      as it is until a request deletes it if and only if no assisted decision ever finds its key pending
      with a different action. */
  lemma SuggestionsKeptIff(s: State, steps: seq<Step>)
    ensures (forall i, j, key: Key :: 0 <= i <= j <= |steps| && key.Pending? ==> KeptFrom(s, steps, i, j, key))
       <==> forall m :: 0 <= m < |steps| ==> !Collides(Run(s, steps[..m]), steps[m])
  {
    hide KeptFrom, Run, Collides;
    if forall m :: 0 <= m < |steps| ==> !Collides(Run(s, steps[..m]), steps[m]) {
      forall i, j, key: Key | 0 <= i <= j <= |steps| && key.Pending? ensures KeptFrom(s, steps, i, j, key) {
        KeptUntil(s, steps, i, j, key);
      }
    } else {
      var m :| 0 <= m < |steps| && Collides(Run(s, steps[..m]), steps[m]);
      CollisionLoses(s, steps, m);
      assert !KeptFrom(s, steps, m, m + 1, Pending(steps[m].nanos));
    }
  }

  /** Two in one nanosecond: the first is overwritten before anyone sees it. */
  lemma SameNanosecondLosesSuggestion(s: State, a: Action, b: Action, nanos: int)
    requires Destructive(a.kind) && Destructive(b.kind) && a != b && forall k :: k in s.settings ==> k.Named?
    ensures var t := Run(s, Batch(Assisted, [a, b], [nanos, nanos]));
            && t.written == s.written + [Suggested(Pending(nanos), a), Suggested(Pending(nanos), b)]
              && t.resolved == s.resolved
            && forall k :: k in t.settings && k.Pending? ==> t.settings[k] == Suggestion(b)
  {
    var steps := Batch(Assisted, [a, b], [nanos, nanos]);
    var first := steps[..1];
    assert Run(s, first[..0]) == s;
    assert Run(s, first) == Do(s, Act(Assisted, a, nanos));
    assert Run(s, steps) == Do(Run(s, first), Act(Assisted, b, nanos));
  }

  /** Rejecting does not look at the key's prefix: it deletes whatever setting has that key. */
  lemma RejectDeletesAnySetting(s: State, w: nat, mode: Mode, key: Key, now: int)
    requires w !in s.requests
    ensures var t := Called(s, w, false, mode, key, now);
            && key !in t.settings && t.world == s.world && t.effects == s.effects
            && (forall k :: k != key ==> (k in t.settings <==> k in s.settings))
            && (forall k :: k in t.settings ==> t.settings[k] == s.settings[k])
  {
    hide LastOf;
  }

  // ---- The record -------------------------------------------------------------

  function Replay(w: World, effects: seq<Effect>): World {
    if effects == [] then w
    else
      var e := effects[|effects| - 1];
      Perform(Replay(w, effects[..|effects| - 1]), e.action, e.now)
  }

  function AppliedActions(audit: seq<AuditRow>): seq<Action> {
    if audit == [] then []
    else
      var last := audit[|audit| - 1];
      AppliedActions(audit[..|audit| - 1]) + if last.applied then [last.action] else []
  }

  function Actions(effects: seq<Effect>): seq<Action> {
    seq(|effects|, i requires 0 <= i < |effects| => effects[i].action)
  }

  /** The actions announced as applied, each with its time. */
  function Announced(events: seq<Event>): seq<(Action, int)> {
    if events == [] then []
    else
      var last := events[|events| - 1];
      Announced(events[..|events| - 1]) + if last.applied then [(last.action, last.ts)] else []
  }

  function TimedActions(effects: seq<Effect>): seq<(Action, int)> {
    seq(|effects|, i requires 0 <= i < |effects| => (effects[i].action, effects[i].now))
  }

  /** The world is what the recorded effects made of it; the audit rows and the events marked applied are
      exactly the executed actions in order, the events with their times; and the event buffer is the
      latest 50 events. */
  predicate Truthful(s: State, w0: World) {
    && s.world == Replay(w0, s.effects)
    && AppliedActions(s.audit) == Actions(s.effects)
    && Announced(s.events) == TimedActions(s.effects)
    && s.recent == LastOf(s.events, EVENT_CAP)
  }

  predicate LastFifty(recent: seq<Event>, events: seq<Event>) {
    |recent| == (if |events| < 50 then |events| else 50) && recent == events[|events| - |recent|..]
  }

  predicate Disables(e: Effect, key: int) {
    e.action.kind == DisableKey && e.action.keyId == key
  }

  predicate Revokes(e: Effect, cred: int) {
    e.action.kind == RevokeCredential && e.action.credId == cred
  }

  /** What the effects amount to: a key is disabled, and a credential gone, exactly when it was so at the
      start or an effect says so; no key appears or is enabled, no credential appears; and the runtime
      overrides stay in their domain. */
  lemma {:induction false} EffectsAmountTo(w: World, effects: seq<Effect>, key: int, cred: int)
    ensures var t := Replay(w, effects);
            && (key in t.enabled <==> key in w.enabled)
            && (key in t.enabled ==>
              (t.enabled[key] <==> w.enabled[key] && forall i :: 0 <= i < |effects| ==> !Disables(effects[i], key)))
            && (cred in t.credentials <==> cred in w.credentials && forall i :: 0 <= i < |effects| ==>
              !Revokes(effects[i], cred))
            && (t.concurrency >= 1 || t.concurrency == w.concurrency)
            && (key in t.boosts ==>
              (t.boosts[key] > 0.0 && !(0.99 <= t.boosts[key] <= 1.01))
                || (key in w.boosts && t.boosts[key] == w.boosts[key]))
  {
    if effects != [] {
      EffectsAmountTo(w, effects[..|effects| - 1], key, cred);
    }
  }

  predicate SetsConcurrency(e: Effect) {
    e.action.kind == SetConcurrency
  }

  predicate SetsBoost(e: Effect, key: int) {
    e.action.kind == SetWeightBoost && e.action.keyId == key
  }

  predicate Cools(e: Effect, key: int) {
    e.action.kind == OpenCircuit && e.action.keyId == key
  }

  /** `n` is the whole part of `v`, or `least` below one. */
  predicate WholePart(n: int, v: real, least: int) {
    if v < 1.0 then n == least else n as real <= v < n as real + 1.0
  }

  function LatestConcurrency(effects: seq<Effect>): Option<Effect> {
    if effects == [] then None
    else if SetsConcurrency(effects[|effects| - 1]) then Some(effects[|effects| - 1])
    else LatestConcurrency(effects[..|effects| - 1])
  }

  function LatestBoost(effects: seq<Effect>, key: int): Option<Effect> {
    if effects == [] then None
    else if SetsBoost(effects[|effects| - 1], key) then Some(effects[|effects| - 1])
    else LatestBoost(effects[..|effects| - 1], key)
  }

  function LatestCooling(effects: seq<Effect>, key: int): Option<Effect> {
    if effects == [] then None
    else if Cools(effects[|effects| - 1], key) then Some(effects[|effects| - 1])
    else LatestCooling(effects[..|effects| - 1], key)
  }

  /** What the latest effect of a kind says, holds: the concurrency is its whole part, at least one; a boost
      is as given, and gone if it is not positive or near one; a stored key cools for the seconds given, or
      for a minute. Without such an effect the value is that of the start. */
  lemma {:induction false} LatestEffectHolds(w: World, effects: seq<Effect>, key: int)
    ensures match LatestConcurrency(effects)
            case None => Replay(w, effects).concurrency == w.concurrency
            case Some(e) => WholePart(Replay(w, effects).concurrency, e.action.value, 1)
    ensures match LatestBoost(effects, key)
            case None => BoostAt(Replay(w, effects), key) == BoostAt(w, key)
            case Some(e) => BoostIs(BoostAt(Replay(w, effects), key), e.action.value)
    ensures if key in w.enabled && LatestCooling(effects, key).Some?
            then CoolsFor(CoolingAt(Replay(w, effects), key), LatestCooling(effects, key).value)
            else CoolingAt(Replay(w, effects), key) == CoolingAt(w, key)
  {
    if effects != [] {
      var n := |effects| - 1;
      LatestEffectHolds(w, effects[..n], key);
      EnabledKept(w, effects[..n], key);
      PerformDecides(Replay(w, effects[..n]), effects[n], key);
      hide Perform, WholePart, BoostIs, CoolsFor, SetsConcurrency, SetsBoost, Cools, BoostAt, CoolingAt;
    }
  }

  function BoostAt(w: World, key: int): Option<real> {
    if key in w.boosts then Some(w.boosts[key]) else None
  }

  function CoolingAt(w: World, key: int): Option<int> {
    if key in w.coolingUntil then Some(w.coolingUntil[key]) else None
  }

  predicate BoostIs(boost: Option<real>, v: real) {
    boost == if v > 0.0 && (v < 0.99 || v > 1.01) then Some(v) else None
  }

  predicate CoolsFor(until: Option<int>, e: Effect) {
    until.Some? && WholePart(until.value - e.now, e.action.value, 60)
  }

  lemma PerformDecides(w: World, e: Effect, key: int)
    ensures var t := Perform(w, e.action, e.now);
            && (key in t.enabled <==> key in w.enabled)
            && (if SetsConcurrency(e) then WholePart(t.concurrency, e.action.value, 1)
                else t.concurrency == w.concurrency)
            && (if SetsBoost(e, key) then BoostIs(BoostAt(t, key), e.action.value)
                else BoostAt(t, key) == BoostAt(w, key))
            && (if Cools(e, key) && key in w.enabled then CoolsFor(CoolingAt(t, key), e)
                else CoolingAt(t, key) == CoolingAt(w, key))
  {
  }

  lemma {:induction false} EnabledKept(w: World, effects: seq<Effect>, key: int)
    ensures key in Replay(w, effects).enabled <==> key in w.enabled
  {
    if effects != [] {
      EnabledKept(w, effects[..|effects| - 1], key);
    }
  }

  lemma TruthfulExecute(s: State, a: Action, cause: Cause, now: int, mode: Mode, w0: World)
    requires Truthful(s, w0)
    ensures Truthful(Audited(Recorded(Executed(s, a, cause, now), Event(now, mode, a, true)), a, true), w0)
  {
    var t := Audited(Recorded(Executed(s, a, cause, now), Event(now, mode, a, true)), a, true);
    hide Perform;
    assert t.events[..|s.events|] == s.events;
    assert TimedActions(t.effects) == TimedActions(s.effects) + [(a, now)];
    assert t.effects[..|s.effects|] == s.effects;
    assert t.audit[..|s.audit|] == s.audit;
    assert Actions(t.effects) == Actions(s.effects) + [a];
  }

  lemma TruthfulNote(s: State, mode: Mode, a: Action, now: int, w0: World)
    requires Truthful(s, w0)
    ensures Truthful(Noted(s, mode, a, now), w0) && Truthful(Audited(s, a, false), w0)
  {
    AuditedUnapplied(s.audit, a);
    RecordsUnapplied(s, Event(now, mode, a, false));
    hide Replay, Actions, TimedActions, AppliedActions, Announced, LastOf;
  }

  lemma AuditedUnapplied(audit: seq<AuditRow>, a: Action)
    ensures AppliedActions(audit + [AuditRow(a, false)]) == AppliedActions(audit)
  {
    assert (audit + [AuditRow(a, false)])[..|audit|] == audit;
  }

  lemma RecordsUnapplied(s: State, e: Event)
    requires !e.applied && s.recent == LastOf(s.events, EVENT_CAP)
    ensures var t := Recorded(s, e);
            Announced(t.events) == Announced(s.events) && t.recent == LastOf(t.events, EVENT_CAP)
  {
    assert (s.events + [e])[..|s.events|] == s.events;
  }

  lemma TruthfulStep(s: State, step: Step, w0: World)
    requires Truthful(s, w0)
    ensures Truthful(Do(s, step), w0)
  {
    match step
    case Act(mode, a, nanos) =>
      var now := nanos / NANOS;
      TruthfulNote(s, mode, a, now, w0);
      TruthfulExecute(s, a, ByApply(mode), now, mode, w0);
      hide Replay, Perform, AppliedActions, Actions, Announced, TimedActions, LastOf;
    case Bump(now) =>
    case Proceed(w, now) =>
      if w in s.requests && s.requests[w].stage == Fetched {
        var r := s.requests[w];
        if r.approval && Runnable(r.found) {
          TruthfulExecute(s, r.found.value, ByApproval(r.key, w), now, r.mode, w0);
        }
        TruthfulNote(s, r.mode, if r.found.Some? then r.found.value else ZERO_ACTION, now, w0);
        hide Replay, Perform, AppliedActions, Actions, Announced, TimedActions, LastOf;
      }
    case _ =>
  }

  lemma {:induction false} RecordIsTruthful(s: State, steps: seq<Step>, w0: World)
    requires Truthful(s, w0)
    ensures Truthful(Run(s, steps), w0) && LastFifty(Run(s, steps).recent, Run(s, steps).events)
  {
    if steps != [] {
      RecordIsTruthful(s, steps[..|steps| - 1], w0);
      TruthfulStep(Run(s, steps[..|steps| - 1]), steps[|steps| - 1], w0);
      hide Truthful, Do;
    }
    RecentIsLastFifty(Run(s, steps), w0);
    hide *;
  }

  lemma RecentIsLastFifty(s: State, w0: World)
    requires Truthful(s, w0)
    ensures LastFifty(s.recent, s.events)
  {
    hide Replay, AppliedActions, Actions, Announced, TimedActions;
  }

  /** An executor that has done nothing yet, over a settings table that holds no suggestion. */
  predicate Start(s: State) {
    && s.requests == map[] && s.effects == [] && s.written == [] && s.resolved == [] && s.events == []
      && s.decided == []
    && s.audit == [] && s.recent == [] && s.decisions == []
    && forall k :: k in s.settings ==> k.Named? && !Approvable(s, k)
  }

  lemma StartIsGood(s: State)
    requires Start(s)
    ensures Safe(s) && Ledger(s) && Truthful(s, s.world)
  {
  }

  /** The three together, for every run from the start. */
  lemma ExecutorSafety(s: State, steps: seq<Step>)
    requires Start(s) && forall i :: 0 <= i < |steps| ==> Allowed(steps[i])
    ensures var t := Run(s, steps);
            Safe(t) && Truthful(t, s.world) && (DistinctKeys(t.written) ==> Ledger(t))
  {
    StartIsGood(s);
    hide Start, Safe, Truthful, Ledger, Run;
    EveryEffectAuthorised(s, steps);
    RecordIsTruthful(s, steps, s.world);
    if DistinctKeys(Run(s, steps).written) {
      PendingIsWrittenMinusResolved(s, steps);
    }
  }

  // ---- The decision rate ------------------------------------------------------

  function CountSince(times: seq<int>, cutoff: int): (n: nat)
    ensures n <= |times|
  {
    if times == [] then 0
    else (if times[|times| - 1] >= cutoff then 1 else 0) + CountSince(times[..|times| - 1], cutoff)
  }

  predicate NonDecreasing(times: seq<int>) {
    forall i, j :: 0 <= i <= j < |times| ==> times[i] <= times[j]
  }

  lemma {:induction false} TrimmedIsCount(times: seq<int>, cutoff: int)
    requires NonDecreasing(times)
    ensures |Trimmed(times, cutoff)| == CountSince(times, cutoff)
    ensures Trimmed(times, cutoff) == times[|times| - CountSince(times, cutoff)..]
  {
    if times != [] {
      var n := |times| - 1;
      TrimmedIsCount(times[..n], cutoff);
      TrimmedAppend(times[..n], times[n], cutoff);
      assert times[..n] + [times[n]] == times;
      if times[n] < cutoff {
        NoneSince(times[..n], cutoff);
      }
    }
  }

  lemma {:induction false} NoneSince(times: seq<int>, cutoff: int)
    requires forall i :: 0 <= i < |times| ==> times[i] < cutoff
    ensures CountSince(times, cutoff) == 0
  {
    if times != [] {
      NoneSince(times[..|times| - 1], cutoff);
    }
  }

  lemma {:induction false} TrimmedAppend(times: seq<int>, last: int, cutoff: int)
    ensures Trimmed(times + [last], cutoff)
         == if Trimmed(times, cutoff) == [] && last < cutoff then [] else Trimmed(times, cutoff) + [last]
  {
    if times != [] && times[0] < cutoff {
      TrimmedAppend(times[1..], last, cutoff);
      assert (times + [last])[1..] == times[1..] + [last];
    } else if times == [] {
      assert [last][1..] == [];
    }
  }

  /** Trimming the trimmed buffer is trimming the whole history. */
  lemma TrimKept(kept: seq<int>, all: seq<int>, now: int)
    requires NonDecreasing(all + [now]) && kept == if all == [] then [] else Trimmed(all, Latest(all) - 60)
    ensures Trimmed(kept + [now], now - 60) == Trimmed(all + [now], now - 60)
  {
    hide Trimmed;
    if all != [] {
      var n := |all|;
      assert (all + [now])[n - 1] == all[n - 1] && (all + [now])[n] == now;
      hide NonDecreasing;
      TrimTwice(all, Latest(all) - 60, now - 60);
      TrimmedAppend(all, now, now - 60);
      TrimmedAppend(kept, now, now - 60);
    }
  }

  lemma BumpKeepsLastMinute(s: State, now: int)
    requires NonDecreasing(s.decided + [now]) && LastMinute(s)
    ensures LastMinute(Bumped(s, now))
  {
    TrimKept(s.decisions, s.decided, now);
    hide Trimmed, NonDecreasing;
  }

  lemma LastMinuteStep(s: State, step: Step)
    requires NonDecreasing(Do(s, step).decided)
    ensures NonDecreasing(s.decided) && (LastMinute(s) ==> LastMinute(Do(s, step)))
  {
    hide Perform, Trimmed, LastOf, LastMinute;
    var t := Do(s, step);
    assert s.decided <= t.decided;
    assert forall i :: 0 <= i < |s.decided| ==> t.decided[i] == s.decided[i];
    if step.Bump? && LastMinute(s) {
      BumpKeepsLastMinute(s, step.now);
    } else {
      LastMinuteFrame(s, t);
    }
  }

  lemma LastMinuteFrame(s: State, t: State)
    ensures s.decided == t.decided && s.decisions == t.decisions ==> (LastMinute(s) <==> LastMinute(t))
  {
  }

  lemma {:induction false} LastMinuteKept(s: State, steps: seq<Step>)
    requires LastMinute(s) && NonDecreasing(Run(s, steps).decided)
    ensures LastMinute(Run(s, steps))
  {
    if steps != [] {
      var t := Run(s, steps[..|steps| - 1]);
      hide Do, LastMinute, NonDecreasing;
      LastMinuteStep(t, steps[|steps| - 1]);
      LastMinuteKept(s, steps[..|steps| - 1]);
    }
  }

  /** With a clock that does not run backwards, the buffer behind decisions-per-minute holds exactly
      the decisions of the minute up to the latest one, although each trim sees only the buffer. */
  lemma DecisionsAreLastMinute(s: State, steps: seq<Step>)
    requires LastMinute(s) && NonDecreasing(Run(s, steps).decided) && Run(s, steps).decided != []
    ensures IsSuffixSince(Run(s, steps).decisions, Run(s, steps).decided, Latest(Run(s, steps).decided) - 60)
  {
    hide Run, CountSince, Trimmed;
    var t := Run(s, steps);
    LastMinuteKept(s, steps);
    TrimmedIsCount(t.decided, Latest(t.decided) - 60);
  }

  function Latest(times: seq<int>): int
    requires times != []
  {
    times[|times| - 1]
  }

  /** `recent` is the end of `times` and has as many entries as there are since `cutoff`. */
  predicate IsSuffixSince(recent: seq<int>, times: seq<int>, cutoff: int) {
    |recent| == CountSince(times, cutoff) && recent == times[|times| - |recent|..]
  }

  predicate LastMinute(s: State) {
    s.decisions == if s.decided == [] then [] else Trimmed(s.decided, Latest(s.decided) - 60)
  }

  lemma {:induction false} TrimTwice(times: seq<int>, c0: int, c1: int)
    requires c0 <= c1
    ensures Trimmed(Trimmed(times, c0), c1) == Trimmed(times, c1)
  {
    if times != [] && times[0] < c0 {
      TrimTwice(times[1..], c0, c1);
    }
  }
}
