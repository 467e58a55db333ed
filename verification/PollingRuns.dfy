/** What holds of the enrichment pollers in every run, for every server behaviour. */
module PollingRuns {
  import opened Text
  import opened PollingProtocol

  lemma {:induction false} RunKeeps(s: State, events: seq<Event>)
    requires Inv(s) && IsRun(s, events)
    ensures Inv(After(s, events))
    ensures Persists(s, After(s, events))
    decreases |events|
  {
    if events != [] {
      StepKeeps(s, events[0]);
      RunKeeps(Next(s, events[0]), events[1..]);
    }
  }

  /**
   * Every start of enrichment comes after a detail answer that showed HYGIENE with a final status, and
   * between two starts of one batch its id was reset.
   */
  lemma StartedOnce(events: seq<Event>)
    requires IsRun(INITIAL, events)
    ensures var log := After(INITIAL, events).log;
      && (forall i :: 0 <= i < |log| && log[i].Issued? ==> log[i].seen.stage.HYGIENE? && IsFinal(log[i].seen.status))
      && (forall i, j :: 0 <= i < j < |log| && log[i].Issued? && log[j].Issued? && log[i].batch == log[j].batch ==>
            exists k :: i < k < j && log[k] == Cleared(log[i].batch))
  {
    RunKeeps(INITIAL, events);
  }

  /** Each poller has at most one pending call or timer, in every reachable state. */
  lemma OnePending(events: seq<Event>)
    requires IsRun(INITIAL, events)
    ensures var s := After(INITIAL, events);
      && (forall a, b :: a in s.running && b in s.running && s.running[a].poller == s.running[b].poller ==> a == b)
      && (forall k, l :: k in s.armed && l in s.armed && s.armed[k] == s.armed[l] ==> k == l)
      && (forall a, k :: a in s.running && k in s.armed ==> s.running[a].poller != s.armed[k])
  {
    RunKeeps(INITIAL, events);
  }

  /** Once cleaned up, a poller has no timer, and none is armed for it in the rest of the run. */
  lemma CleanedUpStaysQuiet(before: seq<Event>, rest: seq<Event>, p: nat)
    requires IsRun(INITIAL, before) && IsRun(After(INITIAL, before), rest)
    requires var s := After(INITIAL, before); p < |s.pollers| && s.pollers[p].cancelled
    ensures var t := After(After(INITIAL, before), rest); forall k :: k in t.armed ==> t.armed[k] != p
  {
    RunKeeps(INITIAL, before);
    RunKeeps(After(INITIAL, before), rest);
  }

  // ----- a poller that saw a terminal batch -----

  ghost predicate HasTimer(s: State, p: nat) { exists k :: k in s.armed && s.armed[k] == p }

  /** The step is the rejection of p's own `refresh()` before its cleanup. */
  predicate RejectsOwn(s: State, e: Event, p: nat) {
    && e.SyncAnswer? && !e.ok && e.a in s.running && s.running[e.a].poller == p
    && p < |s.pollers| && !s.pollers[p].cancelled
  }

  /** Somewhere in the run p has a timer. */
  ghost predicate EverTimed(s: State, events: seq<Event>, p: nat)
    requires IsRun(s, events)
    decreases |events|
  {
    HasTimer(s, p) || (events != [] && EverTimed(Next(s, events[0]), events[1..], p))
  }

  /** Somewhere in the run p's own `refresh()` rejects before its cleanup. */
  ghost predicate EverRejects(s: State, events: seq<Event>, p: nat)
    requires IsRun(s, events)
    decreases |events|
  {
    events != [] && (RejectsOwn(s, events[0], p) || EverRejects(Next(s, events[0]), events[1..], p))
  }

  /** A rejection recorded for p came after its cleanup. */
  predicate Unfailed(s: State, p: nat) { p < |s.pollers| && s.pollers[p].syncFailed ==> s.pollers[p].cancelled }

  /** Before its first rejection a poller that saw a terminal batch has no timer; with it, it has one. */
  lemma TimerNow(s: State, e: Event, p: nat)
    requires Inv(s) && Enabled(s, e) && p < |s.pollers| && s.pollers[p].sawTerminal && Unfailed(s, p)
    ensures !HasTimer(s, p)
    ensures RejectsOwn(s, e, p) ==> HasTimer(Next(s, e), p)
  {
    if RejectsOwn(s, e, p) { assert Next(s, e).armed[s.unused] == p; }
  }

  lemma UnfailedStep(s: State, e: Event, p: nat)
    requires Inv(s) && Enabled(s, e) && Unfailed(s, p) && !RejectsOwn(s, e, p)
    ensures Unfailed(Next(s, e), p)
  {
    StepKeeps(s, e);
    if p < |s.pollers| && !s.pollers[p].syncFailed { StaysUnfailed(s, e, p); }
    if p >= |s.pollers| { NewUnfailed(s, e, p); }
  }

  lemma NewUnfailed(s: State, e: Event, p: nat)
    requires Enabled(s, e) && |s.pollers| <= p
    ensures p < |Next(s, e).pollers| ==> !Next(s, e).pollers[p].syncFailed
  {
  }

  lemma NoTimer(s: State, p: nat)
    requires Inv(s) && p < |s.pollers| && s.pollers[p].sawTerminal && Unfailed(s, p)
    ensures !HasTimer(s, p)
  {
  }

  /**
   * The exact condition, over every run that goes on from a state in which p saw a terminal batch: p has
   * a timer at some time if and only if at some time its own `refresh()` rejects before its cleanup.
   */
  lemma {:induction false} TerminalTimer(s: State, events: seq<Event>, p: nat)
    requires Inv(s) && IsRun(s, events) && p < |s.pollers| && s.pollers[p].sawTerminal && Unfailed(s, p)
    ensures EverTimed(s, events, p) <==> EverRejects(s, events, p)
    decreases |events|
  {
    NoTimer(s, p);
    if events != [] {
      var e := events[0];
      StepKeeps(s, e);
      TimerNow(s, e, p);
      if RejectsOwn(s, e, p) {
        assert EverTimed(Next(s, e), events[1..], p);
      } else {
        UnfailedStep(s, e, p);
        hide Next, Enabled, Inv, HasTimer, RejectsOwn, Unfailed;
        TerminalTimer(Next(s, e), events[1..], p);
      }
    }
  }

  lemma {:induction false} UnfailedRun(s: State, events: seq<Event>, p: nat)
    requires Inv(s) && IsRun(s, events) && Unfailed(s, p) && !EverRejects(s, events, p)
    ensures Unfailed(After(s, events), p)
    decreases |events|
  {
    if events != [] {
      StepKeeps(s, events[0]);
      UnfailedStep(s, events[0], p);
      hide Next, Enabled, Inv, Unfailed, RejectsOwn;
      UnfailedRun(Next(s, events[0]), events[1..], p);
    }
  }

  /** So without such a rejection a poller that saw a terminal batch never has a timer again. */
  lemma TerminalIsLast(before: seq<Event>, rest: seq<Event>, p: nat)
    requires IsRun(INITIAL, before) && IsRun(After(INITIAL, before), rest)
    requires !EverRejects(INITIAL, before, p) && !EverRejects(After(INITIAL, before), rest, p)
    requires var s := After(INITIAL, before); p < |s.pollers| && s.pollers[p].sawTerminal
    ensures !EverTimed(After(INITIAL, before), rest, p)
  {
    RunKeeps(INITIAL, before);
    UnfailedRun(INITIAL, before, p);
    hide Unfailed, EverRejects, EverTimed;
    TerminalTimer(After(INITIAL, before), rest, p);
  }

  /** And a single step arms that timer if and only if it is such a rejection. */
  lemma TerminalRearm(s: State, e: Event, p: nat)
    requires Inv(s) && Enabled(s, e) && p < |s.pollers| && s.pollers[p].sawTerminal && Unfailed(s, p)
    ensures HasTimer(Next(s, e), p) <==> RejectsOwn(s, e, p)
  {
    assert [e][1..] == [] && IsRun(Next(s, e), []) && IsRun(s, [e]);
    assert EverTimed(s, [e], p) <==> HasTimer(s, p) || EverTimed(Next(s, e), [], p);
    assert EverRejects(s, [e], p) <==> RejectsOwn(s, e, p) || EverRejects(Next(s, e), [], p);
    NoTimer(s, p);
    hide Next, Enabled, Inv, HasTimer, RejectsOwn, Unfailed;
    TerminalTimer(s, [e], p);
  }

  /** Such a run: the batch is seen finished, `refresh()` rejects, and the poller has a timer again. */
  lemma TerminalRearmed() returns (events: seq<Event>)
    ensures IsRun(INITIAL, events)
    ensures var s := After(INITIAL, events);
      |s.pollers| == 1 && s.pollers[0].sawTerminal && !s.pollers[0].cancelled && s.armed == map[1 := 0]
  {
    var mount := Mount("b", Progress(RUNNING, ENRICHMENT));
    var detail := DetailAnswer(0, Some(Progress(COMPLETED, ENRICHMENT)));
    var rejects := SyncAnswer(0, false);
    RearmedSteps(mount, detail, rejects);
    events := [mount, detail, rejects];
    hide Next, Enabled, INITIAL;
    ThreeSteps(INITIAL, mount, detail, rejects);
  }

  lemma RearmedSteps(mount: Event, detail: Event, rejects: Event)
    requires mount == Mount("b", Progress(RUNNING, ENRICHMENT)) && rejects == SyncAnswer(0, false)
    requires detail == DetailAnswer(0, Some(Progress(COMPLETED, ENRICHMENT)))
    ensures Enabled(INITIAL, mount) && Enabled(Next(INITIAL, mount), detail)
    ensures Enabled(Next(Next(INITIAL, mount), detail), rejects)
    ensures var s := Next(Next(Next(INITIAL, mount), detail), rejects);
      |s.pollers| == 1 && s.pollers[0].sawTerminal && !s.pollers[0].cancelled && s.armed == map[1 := 0]
  {
    assert 0 in Next(INITIAL, mount).running;
    assert 0 in Next(Next(INITIAL, mount), detail).running;
    var s := Next(Next(Next(INITIAL, mount), detail), rejects);
    assert forall k :: k in s.armed <==> k == 1;
  }

  lemma ThreeSteps(s: State, a: Event, b: Event, c: Event)
    requires Enabled(s, a) && Enabled(Next(s, a), b) && Enabled(Next(Next(s, a), b), c)
    ensures IsRun(s, [a, b, c]) && After(s, [a, b, c]) == Next(Next(Next(s, a), b), c)
  {
    hide Next, Enabled;
    assert [a, b, c][1..] == [b, c] && [b, c][1..] == [c] && [c][1..] == [];
    assert IsRun(Next(Next(s, a), b), [c]) && After(Next(Next(s, a), b), [c]) == Next(Next(Next(s, a), b), c);
    assert IsRun(Next(s, a), [b, c]) && After(Next(s, a), [b, c]) == Next(Next(Next(s, a), b), c);
  }

  lemma StaysUnfailed(s: State, e: Event, p: nat)
    requires Inv(s) && Enabled(s, e) && p < |s.pollers| && !s.pollers[p].syncFailed
    requires !RejectsOwn(s, e, p)
    ensures !Next(s, e).pollers[p].syncFailed || Next(s, e).pollers[p].cancelled
  {
    hide OnceInv, SingleInv, TimerInv, TerminalInv, BatchIsTerminal, StartsEnrichment, IsFinal;
  }

  lemma NoRestartStep(s: State, e: Event, batch: BatchId)
    requires Enabled(s, e) && batch in s.started && e != Submit(batch)
    ensures batch in Next(s, e).started && s.log <= Next(s, e).log
    ensures forall i :: |s.log| <= i < |Next(s, e).log| ==> Next(s, e).log[i].batch != batch
  {
  }

  /**
   * Once started, even when the start call failed, a batch is neither started again nor forgotten in
   * the rest of the run, until its id is reset.
   */
  lemma {:induction false} NoRestart(s: State, events: seq<Event>, batch: BatchId)
    requires IsRun(s, events) && batch in s.started && Submit(batch) !in events
    ensures var t := After(s, events);
      && batch in t.started && s.log <= t.log
      && forall i :: |s.log| <= i < |t.log| ==> t.log[i].batch != batch
    decreases |events|
  {
    if events != [] {
      var mid := Next(s, events[0]);
      NoRestartStep(s, events[0], batch);
      hide Next, Enabled;
      NoRestart(mid, events[1..], batch);
      var t := After(s, events);
      forall i | |s.log| <= i < |t.log| ensures t.log[i].batch != batch {
        if i < |mid.log| { assert t.log[i] == mid.log[i]; }
      }
    }
  }
}
