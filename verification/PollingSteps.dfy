/**
 * What single events do to the enrichment pollers, and what every poller is always busy with
 * (frontend/src/pages/Enrichment.tsx). The statuses are spelled out here, once more and on their own.
 */
module PollingSteps {
  import opened Text
  import opened PollingProtocol
  import opened PollingRuns

  /** Nothing more will happen to a batch with this status in the stage it is in. */
  predicate Ended(status: Status) { status in {COMPLETED, PARTIAL, FAILED, CANCELLED} }

  /** FAILED and CANCELLED end a batch in any stage; COMPLETED and PARTIAL only after enrichment. */
  predicate Over(seen: Progress) {
    seen.status == FAILED || seen.status == CANCELLED || (seen.stage == ENRICHMENT && Ended(seen.status))
  }

  /** A detail answer to the running poll `a` of an effect that is not cleaned up. */
  predicate LiveDetail(s: State, e: Event, batch: BatchId) {
    && e.DetailAnswer? && e.answer.Some? && e.a in s.running && s.running[e.a].wait == Detail
    && s.running[e.a].poller < |s.pollers| && !s.pollers[s.running[e.a].poller].cancelled
    && s.pollers[s.running[e.a].poller].batch == batch
  }

  predicate StartIsDue(s: State, e: Event, batch: BatchId) {
    LiveDetail(s, e, batch) && e.answer.value.stage == HYGIENE && Ended(e.answer.value.status) && batch !in s.started
  }

  ghost predicate IssuesStart(s: State, e: Event, batch: BatchId)
    requires Enabled(s, e)
  {
    |Next(s, e).log| > |s.log| && Next(s, e).log[|s.log|].Issued? && Next(s, e).log[|s.log|].batch == batch
  }

  /**
   * A step issues a start of enrichment for a batch if and only if it is a detail answer, for a poller of
   * that batch that is not cleaned up, that shows HYGIENE ended, while the batch is not in the set. Then the
   * batch is in the set and the poll waits for the start; and no step records more than one entry.
   */
  lemma StartIssued(s: State, e: Event, batch: BatchId)
    requires Enabled(s, e)
    ensures IssuesStart(s, e, batch) <==> StartIsDue(s, e, batch)
    ensures StartIsDue(s, e, batch) ==>
      Next(s, e).log == s.log + [Issued(batch, e.answer.value)] && batch in Next(s, e).started
      && e.a in Next(s, e).running && Next(s, e).running[e.a].wait == Enriching
    ensures s.log <= Next(s, e).log && |Next(s, e).log| <= |s.log| + 1
  {
  }

  /** The set of started batches grows by starts only and shrinks by resets only. */
  lemma StartedSet(s: State, e: Event, batch: BatchId)
    requires Enabled(s, e)
    ensures batch in Next(s, e).started <==> (batch in s.started && e != Submit(batch)) || StartIsDue(s, e, batch)
  {
  }

  /** The step judges a batch, for poller p: any detail answer that issues no start, or the second detail. */
  predicate Judges(s: State, e: Event, p: nat)
    requires p < |s.pollers|
  {
    var batch := s.pollers[p].batch;
    || (LiveDetail(s, e, batch) && s.running[e.a].poller == p && !StartIsDue(s, e, batch))
    || (e.RecheckAnswer? && e.answer.Some? && e.a in s.running && s.running[e.a].wait == Recheck
        && s.running[e.a].poller == p)
  }

  /** A poller is cancelled by its cleanup only, and sees a terminal batch when one is judged only. */
  lemma PollerFlags(s: State, e: Event, p: nat)
    requires Enabled(s, e) && p < |s.pollers|
    ensures p < |Next(s, e).pollers|
    ensures Next(s, e).pollers[p].cancelled <==> s.pollers[p].cancelled || e == Cleanup(p)
    ensures Next(s, e).pollers[p].sawTerminal <==> s.pollers[p].sawTerminal || (Judges(s, e, p) && Over(e.answer.value))
    ensures Next(s, e).pollers[p].batch == s.pollers[p].batch
  {
  }

  /** A mount opens one poll, unless there is no batch or it is over. */
  lemma Mounted(s: State, batch: BatchId, shown: Progress)
    requires s.unused !in s.running
    ensures var t := Next(s, Mount(batch, shown));
      if batch == "" || Over(shown) then t == s
      else
        && |t.pollers| == |s.pollers| + 1 && t.pollers[|s.pollers|].batch == batch
        && !t.pollers[|s.pollers|].cancelled && !t.pollers[|s.pollers|].sawTerminal
        && s.unused in t.running && t.running[s.unused] == Activation(|s.pollers|, Detail)
  {
  }

  /** What a poll waits for next: the second detail behind a start, `refresh()` behind a terminal batch. */
  lemma WaitsFor(s: State, e: Event, a: nat)
    requires Enabled(s, e) && a in s.running && s.running[a].poller < |s.pollers| && a < s.unused
    ensures a in Next(s, e).running && Next(s, e).running[a].wait == Recheck
       <==> (e == StartAnswer(a, true) || (s.running[a].wait == Recheck && !(e.RecheckAnswer? && e.a == a)))
    ensures a in Next(s, e).running && Next(s, e).running[a].wait == Syncing
       <==> ((e.DetailAnswer? || e.RecheckAnswer?) && e.a == a && Judges(s, e, s.running[a].poller)
             && Over(e.answer.value))
            || (s.running[a].wait == Syncing && !(e.SyncAnswer? && e.a == a))
  {
  }

  // ----- always busy -----

  /** Poller p has a running poll or a timer. */
  ghost predicate Busy(s: State, p: nat) {
    (exists a :: a in s.running && s.running[a].poller == p) || (exists k :: k in s.armed && s.armed[k] == p)
  }

  ghost predicate AllBusy(s: State) {
    forall p :: 0 <= p < |s.pollers| && !s.pollers[p].cancelled && !s.pollers[p].sawTerminal ==> Busy(s, p)
  }

  /** The timer a closure remembers, while it is armed, is its own. */
  ghost predicate OwnTimer(s: State, p: nat)
    requires p < |s.pollers|
  {
    s.pollers[p].timer.Some? ==>
      var k := s.pollers[p].timer.value; k < s.unused && (k in s.armed ==> s.armed[k] == p)
  }

  ghost predicate OwnTimers(s: State) { forall p :: 0 <= p < |s.pollers| ==> OwnTimer(s, p) }

  lemma RearmOwns(s: State, a: nat)
    requires OwnTimers(s) && a in s.running && s.running[a].poller < |s.pollers|
    ensures OwnTimers(Rearm(s, a))
  {
    var t := Rearm(s, a);
    forall p | 0 <= p < |t.pollers| ensures OwnTimer(t, p) { assert OwnTimer(s, p); }
  }

  lemma OwnTimersStep(s: State, e: Event)
    requires Inv(s) && OwnTimers(s) && Enabled(s, e)
    ensures OwnTimers(Next(s, e))
  {
    var t := Next(s, e);
    if t.pollers == s.pollers && t.armed == s.armed && t.unused >= s.unused {
      forall p | 0 <= p < |t.pollers| ensures OwnTimer(t, p) { assert OwnTimer(s, p); }
    } else if e.Mount? || e.Cleanup? || e.Fire? {
      forall p | 0 <= p < |t.pollers| ensures OwnTimer(t, p) { if p < |s.pollers| { assert OwnTimer(s, p); } }
    } else {
      PollOwns(s, e);
    }
  }

  /** An event of a poll: it re-arms, or marks its poller and then perhaps re-arms. */
  lemma PollOwns(s: State, e: Event)
    requires Inv(s) && OwnTimers(s) && Enabled(s, e) && !e.Mount? && !e.Cleanup? && !e.Fire? && !e.Submit?
    ensures OwnTimers(Next(s, e))
  {
    var p := s.running[e.a].poller;
    var marked := s.(pollers := s.pollers[p := s.pollers[p].(syncFailed := true)]);
    forall q | 0 <= q < |marked.pollers| ensures OwnTimer(marked, q) { assert OwnTimer(s, q); }
    RearmOwns(s, e.a);
    RearmOwns(marked, e.a);
    var t := Next(s, e);
    if t != Rearm(s, e.a) && t != Rearm(marked, e.a) {
      hide Rearm;
      forall q | 0 <= q < |t.pollers| ensures OwnTimer(t, q) { assert OwnTimer(s, q); }
    }
  }

  lemma RearmBusy(s: State, a: nat)
    requires a in s.running && s.running[a].poller < |s.pollers|
    ensures var p := s.running[a].poller; s.pollers[p].cancelled || Busy(Rearm(s, a), p)
  {
    var p := s.running[a].poller;
    if !s.pollers[p].cancelled { assert s.unused in Rearm(s, a).armed && Rearm(s, a).armed[s.unused] == p; }
  }

  lemma StillRunning(s: State, p: nat, a: nat)
    requires a in s.running && s.running[a].poller == p
    ensures Busy(s, p)
  {
  }

  /** The poll an event answers. */
  predicate AnswersPoll(e: Event, a: nat) {
    (e.DetailAnswer? || e.StartAnswer? || e.RecheckAnswer? || e.SyncAnswer?) && e.a == a
  }

  lemma OtherPolls(s: State, e: Event, a: nat)
    requires Inv(s) && Enabled(s, e) && a in s.running && !AnswersPoll(e, a)
    ensures a in Next(s, e).running && Next(s, e).running[a].poller == s.running[a].poller
  {
    hide OnceInv, TimerInv, TerminalInv;
    assert a < s.unused;
  }

  lemma AnsweredStaysBusy(s: State, e: Event, a: nat)
    requires Inv(s) && Enabled(s, e) && a in s.running && AnswersPoll(e, a)
    requires var p := s.running[a].poller; !Next(s, e).pollers[p].cancelled && !Next(s, e).pollers[p].sawTerminal
    ensures Busy(Next(s, e), s.running[a].poller)
  {
    var t, p := Next(s, e), s.running[a].poller;
    PollerFlags(s, e, p);
    RearmBusy(s, a);
    if a in t.running {
      assert t.running[a].poller == p by { hide Inv, Busy; }
      StillRunning(t, p, a);
    } else {
      assert t == Rearm(s, a) by { hide Inv, Busy; }
    }
  }

  lemma RunningStaysBusy(s: State, e: Event, a: nat)
    requires Inv(s) && Enabled(s, e) && a in s.running
    requires var p := s.running[a].poller; !Next(s, e).pollers[p].cancelled && !Next(s, e).pollers[p].sawTerminal
    ensures Busy(Next(s, e), s.running[a].poller)
  {
    hide Busy, Inv, Next, Enabled;
    if AnswersPoll(e, a) {
      AnsweredStaysBusy(s, e, a);
    } else {
      OtherPolls(s, e, a);
      StillRunning(Next(s, e), s.running[a].poller, a);
    }
  }

  /** An armed timer goes off, is cleared by its own poller's cleanup, or stays. */
  lemma ArmedNext(s: State, e: Event, k: nat)
    requires Inv(s) && OwnTimers(s) && Enabled(s, e) && k in s.armed
    ensures if e == Fire(k) then s.unused in Next(s, e).running && Next(s, e).running[s.unused].poller == s.armed[k]
            else e == Cleanup(s.armed[k]) || (k in Next(s, e).armed && Next(s, e).armed[k] == s.armed[k])
  {
    assert k < s.unused;
    if e.Cleanup? { assert OwnTimer(s, e.p); }
    hide OnceInv, TerminalInv, OwnTimers;
  }

  lemma ArmedStaysBusy(s: State, e: Event, k: nat)
    requires Inv(s) && OwnTimers(s) && Enabled(s, e) && k in s.armed && s.armed[k] < |Next(s, e).pollers|
    requires !Next(s, e).pollers[s.armed[k]].cancelled
    ensures Busy(Next(s, e), s.armed[k])
  {
    PollerFlags(s, e, s.armed[k]);
    ArmedNext(s, e, k);
    hide Inv, OwnTimers, Next, Enabled;
  }

  lemma BusyStep(s: State, e: Event, p: nat)
    requires Inv(s) && OwnTimers(s) && AllBusy(s) && Enabled(s, e) && p < |Next(s, e).pollers|
    requires !Next(s, e).pollers[p].cancelled && !Next(s, e).pollers[p].sawTerminal
    ensures Busy(Next(s, e), p)
  {
    if p < |s.pollers| {
      PollerFlags(s, e, p);
      assert Busy(s, p);
      hide Inv, OwnTimers, Next, Enabled, AllBusy;
      if a :| a in s.running && s.running[a].poller == p {
        RunningStaysBusy(s, e, a);
      } else {
        var k :| k in s.armed && s.armed[k] == p;
        ArmedStaysBusy(s, e, k);
      }
    } else {
      NewIsBusy(s, e, p);
    }
  }

  lemma NewIsBusy(s: State, e: Event, p: nat)
    requires Enabled(s, e) && |s.pollers| <= p < |Next(s, e).pollers|
    ensures Busy(Next(s, e), p)
  {
    assert e.Mount? by { hide Busy; }
    assert s.unused in Next(s, e).running && Next(s, e).running[s.unused].poller == p;
  }

  lemma {:induction false} RunBusy(s: State, events: seq<Event>)
    requires Inv(s) && OwnTimers(s) && AllBusy(s) && IsRun(s, events)
    ensures AllBusy(After(s, events)) && OwnTimers(After(s, events))
    decreases |events|
  {
    if events != [] {
      var t := Next(s, events[0]);
      hide Next, Enabled, Inv, Busy, OwnTimers;
      StepKeeps(s, events[0]);
      OwnTimersStep(s, events[0]);
      forall p | 0 <= p < |t.pollers| && !t.pollers[p].cancelled && !t.pollers[p].sawTerminal ensures Busy(t, p) {
        BusyStep(s, events[0], p);
      }
      RunBusy(t, events[1..]);
    }
  }

  /**
   * In every reachable state a poller that is not cleaned up and has not seen a terminal batch has exactly
   * one running poll or timer.
   */
  lemma ExactlyOne(events: seq<Event>, p: nat)
    requires IsRun(INITIAL, events) && p < |After(INITIAL, events).pollers|
    requires var poller := After(INITIAL, events).pollers[p]; !poller.cancelled && !poller.sawTerminal
    ensures var s := After(INITIAL, events);
      && Busy(s, p)
      && (forall a, b :: a in s.running && b in s.running && s.running[a].poller == p == s.running[b].poller ==> a == b)
      && (forall k, l :: k in s.armed && l in s.armed && s.armed[k] == p == s.armed[l] ==> k == l)
      && (forall a, k :: a in s.running && k in s.armed ==> !(s.running[a].poller == p == s.armed[k]))
  {
    RunBusy(INITIAL, events);
    OnePending(events);
    hide IsRun;
  }
}
