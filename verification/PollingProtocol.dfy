/**
 * The enrichment poller (frontend/src/pages/Enrichment.tsx): one effect closure per mount, one
 * `poll` activation per timer, all sharing the `enrichmentStarted` set, against a server that may
 * answer anything in any order. Steps are cut at each `await`.
 */
module PollingProtocol {
  import opened Text

  type BatchId = string

  datatype Status =
    | RECEIVED | INGESTING | QUEUED | RUNNING | PAUSED | CANCEL_REQUESTED
    | CANCELLED | COMPLETED | PARTIAL | FAILED

  datatype Stage = INGESTION | HYGIENE | ENRICHMENT | OTHER(name: string)

  datatype Progress = Progress(status: Status, stage: Stage)

  predicate IsFinal(status: Status) {
    status.COMPLETED? || status.PARTIAL? || status.FAILED? || status.CANCELLED?
  }

  predicate BatchIsTerminal(p: Progress) {
    p.status.FAILED? || p.status.CANCELLED? || (p.stage.ENRICHMENT? && IsFinal(p.status))
  }

  /** The closure of one run of the effect; `sawTerminal` and `syncFailed` only record history. */
  datatype Poller = Poller(batch: BatchId, cancelled: bool, timer: Option<nat>, sawTerminal: bool, syncFailed: bool)

  /** Where an activation of `poll` waits: first detail, start of enrichment, second detail, refresh. */
  datatype Wait = Detail | Enriching | Recheck | Syncing

  datatype Activation = Activation(poller: nat, wait: Wait)

  datatype Entry = Issued(batch: BatchId, seen: Progress) | Cleared(batch: BatchId)

  /** `running` and `armed` are keyed by identifiers below `unused`; `log` records starts and resets. */
  datatype State = State(started: set<BatchId>, pollers: seq<Poller>, running: map<nat, Activation>,
                         armed: map<nat, nat>, unused: nat, log: seq<Entry>)

  datatype Event =
    | Mount(batch: BatchId, shown: Progress)
    | Cleanup(p: nat)
    | Fire(timer: nat)
    | DetailAnswer(a: nat, answer: Option<Progress>)   // None: the call rejected
    | StartAnswer(a: nat, ok: bool)
    | RecheckAnswer(a: nat, answer: Option<Progress>)
    | SyncAnswer(a: nat, ok: bool)
    | Submit(batch: BatchId)                           // an upload clears the id before showing it

  const INITIAL := State({}, [], map[], map[], 0, [])

  // ----- the steps -----

  predicate Enabled(s: State, e: Event) {
    match e
    case Mount(_, _) => true
    case Cleanup(p) => p < |s.pollers| && !s.pollers[p].cancelled
    case Fire(k) => k in s.armed && s.armed[k] < |s.pollers|
    case DetailAnswer(a, _) => Waits(s, a, Detail)
    case StartAnswer(a, _) => Waits(s, a, Enriching)
    case RecheckAnswer(a, _) => Waits(s, a, Recheck)
    case SyncAnswer(a, _) => Waits(s, a, Syncing)
    case Submit(_) => true
  }

  predicate Waits(s: State, a: nat, wait: Wait) {
    a in s.running && s.running[a].wait == wait && s.running[a].poller < |s.pollers|
  }

  function Goto(s: State, a: nat, wait: Wait): State
    requires a in s.running
  {
    s.(running := s.running[a := s.running[a].(wait := wait)])
  }

  function Finish(s: State, a: nat): State { s.(running := s.running - {a}) }

  /** The last line of `poll`: a new timer unless the effect was cleaned up. */
  function Rearm(s: State, a: nat): State
    requires a in s.running && s.running[a].poller < |s.pollers|
  {
    var p := s.running[a].poller;
    if s.pollers[p].cancelled then Finish(s, a)
    else Finish(s, a).(armed := s.armed[s.unused := p], unused := s.unused + 1,
                       pollers := s.pollers[p := s.pollers[p].(timer := Some(s.unused))])
  }

  /** What `poll` does with a batch: a terminal one is synchronised and ends it. */
  function Judge(s: State, a: nat, seen: Progress): State
    requires a in s.running && s.running[a].poller < |s.pollers|
  {
    var p := s.running[a].poller;
    if BatchIsTerminal(seen) then
      Goto(s, a, Syncing).(pollers := s.pollers[p := s.pollers[p].(sawTerminal := true)])
    else Rearm(s, a)
  }

  predicate StartsEnrichment(s: State, batch: BatchId, seen: Progress) {
    seen.stage.HYGIENE? && IsFinal(seen.status) && batch !in s.started
  }

  function Open(s: State, p: nat): State {
    s.(running := s.running[s.unused := Activation(p, Detail)], unused := s.unused + 1)
  }

  function Next(s: State, e: Event): State
    requires Enabled(s, e)
  {
    match e
    case Mount(batch, shown) =>
      if batch == "" || BatchIsTerminal(shown) then s
      else Open(s.(pollers := s.pollers + [Poller(batch, false, None, false, false)]), |s.pollers|)
    case Cleanup(p) =>
      var armed := if s.pollers[p].timer.Some? then s.armed - {s.pollers[p].timer.value} else s.armed;
      s.(armed := armed, pollers := s.pollers[p := s.pollers[p].(cancelled := true)])
    case Fire(k) => Open(s.(armed := s.armed - {k}), s.armed[k])
    case DetailAnswer(a, None) => Rearm(s, a)
    case DetailAnswer(a, Some(seen)) =>
      var poller := s.pollers[s.running[a].poller];
      if poller.cancelled then Finish(s, a)
      else if StartsEnrichment(s, poller.batch, seen) then
        Goto(s, a, Enriching).(started := s.started + {poller.batch}, log := s.log + [Issued(poller.batch, seen)])
      else Judge(s, a, seen)
    case StartAnswer(a, ok) => if ok then Goto(s, a, Recheck) else Rearm(s, a)
    case RecheckAnswer(a, None) => Rearm(s, a)
    case RecheckAnswer(a, Some(seen)) => Judge(s, a, seen)
    case SyncAnswer(a, ok) =>
      var p := s.running[a].poller;
      if ok then Finish(s, a)
      else Rearm(s.(pollers := s.pollers[p := s.pollers[p].(syncFailed := true)]), a)
    case Submit(batch) => s.(started := s.started - {batch}, log := s.log + [Cleared(batch)])
  }

  ghost predicate IsRun(s: State, events: seq<Event>)
    decreases |events|
  {
    events == [] || (Enabled(s, events[0]) && IsRun(Next(s, events[0]), events[1..]))
  }

  ghost function After(s: State, events: seq<Event>): State
    requires IsRun(s, events)
    decreases |events|
  {
    if events == [] then s else After(Next(s, events[0]), events[1..])
  }

  // ----- what every step keeps -----

  /** Two starts of one batch have a reset of it in between; outside `started` a reset came last. */
  ghost predicate OnceInv(started: set<BatchId>, log: seq<Entry>) {
    && (forall i, j :: 0 <= i < j < |log| && log[i].Issued? && log[j].Issued? && log[i].batch == log[j].batch ==>
          exists k :: i < k < j && log[k] == Cleared(log[i].batch))
    && (forall i :: 0 <= i < |log| && log[i].Issued? && log[i].batch !in started ==>
          exists k :: i < k < |log| && log[k] == Cleared(log[i].batch))
    && (forall i :: 0 <= i < |log| && log[i].Issued? ==> log[i].seen.stage.HYGIENE? && IsFinal(log[i].seen.status))
  }

  /** At most one activation or timer per poller. */
  ghost predicate SingleInv(s: State) {
    && (forall a :: a in s.running ==> a < s.unused && s.running[a].poller < |s.pollers|)
    && (forall k :: k in s.armed ==> k < s.unused && s.armed[k] < |s.pollers|)
    && (forall a, b :: a in s.running && b in s.running && a != b ==> s.running[a].poller != s.running[b].poller)
    && (forall k, l :: k in s.armed && l in s.armed && k != l ==> s.armed[k] != s.armed[l])
    && (forall a, k :: a in s.running && k in s.armed ==> s.running[a].poller != s.armed[k])
  }

  /** An armed timer is the one its closure remembers, and that closure still polls. */
  ghost predicate TimerInv(s: State) {
    && (forall k :: k in s.armed ==> s.armed[k] < |s.pollers|)
    && (forall k :: k in s.armed ==> s.pollers[s.armed[k]].timer == Some(k) && !s.pollers[s.armed[k]].cancelled)
  }

  /** A poller that saw a terminal batch only waits for `refresh()`, unless that has rejected. */
  ghost predicate TerminalInv(s: State) {
    && (forall k :: k in s.armed ==> s.armed[k] < |s.pollers|)
    && (forall a :: a in s.running ==> s.running[a].poller < |s.pollers|)
    && (forall k :: k in s.armed && s.pollers[s.armed[k]].sawTerminal ==> s.pollers[s.armed[k]].syncFailed)
    && (forall a :: a in s.running && s.pollers[s.running[a].poller].sawTerminal && !s.running[a].wait.Syncing? ==>
          s.pollers[s.running[a].poller].syncFailed)
    && (forall a :: a in s.running && s.running[a].wait.Syncing? ==> s.pollers[s.running[a].poller].sawTerminal)
  }

  ghost predicate Inv(s: State) {
    OnceInv(s.started, s.log) && SingleInv(s) && TimerInv(s) && TerminalInv(s)
  }

  lemma IssueKeeps(started: set<BatchId>, log: seq<Entry>, batch: BatchId, seen: Progress)
    requires OnceInv(started, log) && batch !in started && seen.stage.HYGIENE? && IsFinal(seen.status)
    ensures OnceInv(started + {batch}, log + [Issued(batch, seen)])
  {
    var after := log + [Issued(batch, seen)];
    forall i, j | 0 <= i < j < |after| && after[i].Issued? && after[j].Issued? && after[i].batch == after[j].batch
      ensures exists k :: i < k < j && after[k] == Cleared(after[i].batch)
    {
      var k :| i < k < |log| && log[k] == Cleared(log[i].batch) && k < j;
      assert after[k] == log[k];
    }
    forall i | 0 <= i < |after| && after[i].Issued? && after[i].batch !in started + {batch}
      ensures exists k :: i < k < |after| && after[k] == Cleared(after[i].batch)
    {
      var k :| i < k < |log| && log[k] == Cleared(log[i].batch);
      assert after[k] == log[k];
    }
  }

  lemma ClearKeeps(started: set<BatchId>, log: seq<Entry>, batch: BatchId)
    requires OnceInv(started, log)
    ensures OnceInv(started - {batch}, log + [Cleared(batch)])
  {
    var after := log + [Cleared(batch)];
    forall i, j | 0 <= i < j < |after| && after[i].Issued? && after[j].Issued? && after[i].batch == after[j].batch
      ensures exists k :: i < k < j && after[k] == Cleared(after[i].batch)
    {
      var k :| i < k < j && log[k] == Cleared(log[i].batch);
      assert after[k] == log[k];
    }
    forall i | 0 <= i < |after| && after[i].Issued? && after[i].batch !in started - {batch}
      ensures exists k :: i < k < |after| && after[k] == Cleared(after[i].batch)
    {
      if log[i].batch == batch {
        assert after[|log|] == Cleared(batch);
      } else {
        var k :| i < k < |log| && log[k] == Cleared(log[i].batch);
        assert after[k] == log[k];
      }
    }
  }

  ghost predicate FlowInv(s: State) { SingleInv(s) && TimerInv(s) && TerminalInv(s) }

  /** Nothing un-cancels a poller or forgets that it saw a terminal batch. */
  ghost predicate Persists(s: State, t: State) {
    && |s.pollers| <= |t.pollers|
    && (forall p :: 0 <= p < |s.pollers| ==> PollerPersists(s.pollers[p], t.pollers[p]))
  }

  ghost predicate PollerPersists(a: Poller, b: Poller) {
    a.batch == b.batch && (a.cancelled ==> b.cancelled) && (a.sawTerminal ==> b.sawTerminal)
  }

  /** Nor does a step arm a timer for a cancelled poller. */
  ghost predicate Lasting(s: State, t: State) {
    && Persists(s, t)
    && (forall k :: k in t.armed && k !in s.armed ==> t.armed[k] < |s.pollers| && !s.pollers[t.armed[k]].cancelled)
  }

  lemma RearmSingle(s: State, a: nat)
    requires SingleInv(s) && a in s.running
    ensures SingleInv(Rearm(s, a))
  {
  }

  lemma RearmTimer(s: State, a: nat)
    requires SingleInv(s) && TimerInv(s) && a in s.running
    ensures TimerInv(Rearm(s, a))
  {
  }

  lemma RearmTerminal(s: State, a: nat)
    requires SingleInv(s) && TerminalInv(s) && a in s.running
    requires var poller := s.pollers[s.running[a].poller]; poller.sawTerminal ==> poller.syncFailed
    ensures TerminalInv(Rearm(s, a))
  {
  }

  lemma RearmKeeps(s: State, a: nat)
    requires FlowInv(s) && a in s.running
    requires var poller := s.pollers[s.running[a].poller]; poller.sawTerminal ==> poller.syncFailed
    ensures FlowInv(Rearm(s, a)) && Lasting(s, Rearm(s, a))
  {
    RearmSingle(s, a);
    RearmTimer(s, a);
    RearmTerminal(s, a);
    hide TimerInv, TerminalInv;
  }

  lemma JudgeKeeps(s: State, a: nat, seen: Progress)
    requires FlowInv(s) && a in s.running && !s.running[a].wait.Syncing?
    ensures FlowInv(Judge(s, a, seen)) && Lasting(s, Judge(s, a, seen))
  {
    if !BatchIsTerminal(seen) { RearmKeeps(s, a); }
  }

  lemma OpenKeeps(s: State, p: nat)
    requires FlowInv(s) && p < |s.pollers| && (s.pollers[p].sawTerminal ==> s.pollers[p].syncFailed)
    requires (forall a :: a in s.running ==> s.running[a].poller != p) && (forall k :: k in s.armed ==> s.armed[k] != p)
    ensures FlowInv(Open(s, p)) && Lasting(s, Open(s, p))
  {
  }

  lemma CleanupKeeps(s: State, p: nat)
    requires FlowInv(s) && Enabled(s, Cleanup(p))
    ensures FlowInv(Next(s, Cleanup(p))) && Lasting(s, Next(s, Cleanup(p)))
  {
  }

  lemma GotoKeeps(s: State, a: nat, wait: Wait, started: set<BatchId>, log: seq<Entry>)
    requires FlowInv(s) && a in s.running && !s.running[a].wait.Syncing? && !wait.Syncing?
    ensures var t := Goto(s, a, wait).(started := started, log := log); FlowInv(t) && Lasting(s, t)
  {
  }

  lemma FinishKeeps(s: State, a: nat)
    requires FlowInv(s)
    ensures FlowInv(Finish(s, a)) && Lasting(s, Finish(s, a))
  {
  }

  lemma DetailKeeps(s: State, a: nat, answer: Option<Progress>)
    requires FlowInv(s) && Enabled(s, DetailAnswer(a, answer))
    ensures FlowInv(Next(s, DetailAnswer(a, answer))) && Lasting(s, Next(s, DetailAnswer(a, answer)))
  {
    hide FlowInv, Lasting, Judge, Rearm, Goto, Finish;
    if answer.None? {
      WaitKeeps(s, a);
    } else {
      var t := Next(s, DetailAnswer(a, answer));
      JudgeKeeps(s, a, answer.value);
      FinishKeeps(s, a);
      GotoKeeps(s, a, Enriching, t.started, t.log);
    }
  }

  lemma MountKeeps(s: State, batch: BatchId, shown: Progress)
    requires FlowInv(s)
    ensures FlowInv(Next(s, Mount(batch, shown))) && Lasting(s, Next(s, Mount(batch, shown)))
  {
    if batch != "" && !BatchIsTerminal(shown) {
      OpenKeeps(s.(pollers := s.pollers + [Poller(batch, false, None, false, false)]), |s.pollers|);
    }
  }

  lemma FireKeeps(s: State, k: nat)
    requires FlowInv(s) && Enabled(s, Fire(k))
    ensures FlowInv(Next(s, Fire(k))) && Lasting(s, Next(s, Fire(k)))
  {
    OpenKeeps(s.(armed := s.armed - {k}), s.armed[k]);
  }

  lemma MarkKeeps(s: State, p: nat)
    requires FlowInv(s) && p < |s.pollers|
    ensures FlowInv(s.(pollers := s.pollers[p := s.pollers[p].(syncFailed := true)]))
  {
    var t := s.(pollers := s.pollers[p := s.pollers[p].(syncFailed := true)]);
    MarkTimers(s, p);
    assert SingleInv(t) by { hide TimerInv, TerminalInv; }
    hide SingleInv, TimerInv, TerminalInv;
  }

  lemma MarkTimers(s: State, p: nat)
    requires SingleInv(s) && TimerInv(s) && TerminalInv(s) && p < |s.pollers|
    ensures var t := s.(pollers := s.pollers[p := s.pollers[p].(syncFailed := true)]); TimerInv(t) && TerminalInv(t)
  {
    hide SingleInv;
  }

  lemma MarkLasts(s: State, p: nat, u: State)
    requires p < |s.pollers| && Lasting(s.(pollers := s.pollers[p := s.pollers[p].(syncFailed := true)]), u)
    ensures Lasting(s, u)
  {
    var t := s.(pollers := s.pollers[p := s.pollers[p].(syncFailed := true)]);
    forall q | 0 <= q < |s.pollers| ensures PollerPersists(s.pollers[q], u.pollers[q]) {
      assert PollerPersists(t.pollers[q], u.pollers[q]);
    }
  }

  lemma SyncKeeps(s: State, a: nat, ok: bool)
    requires FlowInv(s) && Enabled(s, SyncAnswer(a, ok))
    ensures FlowInv(Next(s, SyncAnswer(a, ok))) && Lasting(s, Next(s, SyncAnswer(a, ok)))
  {
    if ok {
      FinishKeeps(s, a);
    } else {
      var p := s.running[a].poller;
      var t := s.(pollers := s.pollers[p := s.pollers[p].(syncFailed := true)]);
      MarkKeeps(s, p);
      RearmKeeps(t, a);
      assert Next(s, SyncAnswer(a, ok)) == Rearm(t, a);
      MarkLasts(s, p, Rearm(t, a));
      hide FlowInv, Next, Rearm, Lasting;
    }
  }

  lemma WaitKeeps(s: State, a: nat)
    requires FlowInv(s) && a in s.running && !s.running[a].wait.Syncing?
    ensures FlowInv(Rearm(s, a)) && Lasting(s, Rearm(s, a))
    ensures FlowInv(Goto(s, a, Recheck)) && Lasting(s, Goto(s, a, Recheck))
  {
    RearmKeeps(s, a);
    GotoKeeps(s, a, Recheck, s.started, s.log);
  }

  lemma FlowKept(s: State, e: Event)
    requires FlowInv(s) && Enabled(s, e)
    ensures FlowInv(Next(s, e)) && Lasting(s, Next(s, e))
  {
    hide FlowInv, Lasting, Judge, Rearm, Goto, Open;
    match e
    case Mount(batch, shown) => MountKeeps(s, batch, shown);
    case Cleanup(p) => CleanupKeeps(s, p);
    case Fire(k) => FireKeeps(s, k);
    case DetailAnswer(a, answer) => DetailKeeps(s, a, answer);
    case StartAnswer(a, ok) => WaitKeeps(s, a);
    case RecheckAnswer(a, answer) => if answer.None? { WaitKeeps(s, a); } else { JudgeKeeps(s, a, answer.value); }
    case SyncAnswer(a, ok) => SyncKeeps(s, a, ok);
    case Submit(batch) => SubmitKeeps(s, batch);
  }

  lemma SubmitKeeps(s: State, batch: BatchId)
    requires FlowInv(s)
    ensures FlowInv(Next(s, Submit(batch))) && Lasting(s, Next(s, Submit(batch)))
  {
  }

  lemma LogUntouched(s: State, a: nat, seen: Progress)
    requires a in s.running && s.running[a].poller < |s.pollers|
    ensures Rearm(s, a).started == s.started && Rearm(s, a).log == s.log
    ensures Judge(s, a, seen).started == s.started && Judge(s, a, seen).log == s.log
  {
  }

  lemma LogKept(s: State, e: Event)
    requires OnceInv(s.started, s.log) && Enabled(s, e)
    ensures OnceInv(Next(s, e).started, Next(s, e).log)
  {
    hide OnceInv, Rearm, Judge;
    match e
    case DetailAnswer(a, None) => LogUntouched(s, a, Progress(FAILED, HYGIENE));
    case DetailAnswer(a, Some(seen)) =>
      var batch := s.pollers[s.running[a].poller].batch;
      LogUntouched(s, a, seen);
      if StartsEnrichment(s, batch, seen) { IssueKeeps(s.started, s.log, batch, seen); }
    case StartAnswer(a, ok) => LogUntouched(s, a, Progress(FAILED, HYGIENE));
    case RecheckAnswer(a, None) => LogUntouched(s, a, Progress(FAILED, HYGIENE));
    case RecheckAnswer(a, Some(seen)) => LogUntouched(s, a, seen);
    case SyncAnswer(a, ok) =>
      var p := s.running[a].poller;
      LogUntouched(s.(pollers := s.pollers[p := s.pollers[p].(syncFailed := true)]), a, Progress(FAILED, HYGIENE));
    case Submit(batch) => ClearKeeps(s.started, s.log, batch);
    case _ =>
  }

  /** The step invariant. */
  lemma StepKeeps(s: State, e: Event)
    requires Inv(s) && Enabled(s, e)
    ensures Inv(Next(s, e)) && Lasting(s, Next(s, e))
  {
    FlowKept(s, e);
    LogKept(s, e);
    hide SingleInv, TimerInv, TerminalInv, OnceInv, Lasting, Next, Enabled;
  }
}
