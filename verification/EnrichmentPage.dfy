/**
 * The polling effect as it is written (frontend/src/pages/Enrichment.tsx): code segments between
 * awaits that assign closure variables and the shared set. Each does one step of PollingProtocol.
 */
module EnrichmentPage {
  import opened Text
  import opened PollingProtocol

  class Page {
    var enrichmentStarted: set<BatchId>
    var pollers: seq<Poller>
    var running: map<nat, Activation>
    var armed: map<nat, nat>
    var unused: nat
    var log: seq<Entry>

    ghost function View(): State
      reads this
    {
      State(enrichmentStarted, pollers, running, armed, unused, log)
    }

    constructor ()
      ensures View() == INITIAL
    {
      enrichmentStarted, pollers, running, armed, unused, log := {}, [], map[], map[], 0, [];
    }

    /** Calls `poll`, which runs up to its first await. */
    method Poll(p: nat)
      modifies this`running, this`unused
      ensures View() == Open(old(View()), p)
    {
      running := running[unused := Activation(p, Detail)];
      unused := unused + 1;
    }

    /** `if (!cancelled) timer = window.setTimeout(poll, 3_000)`, then the activation returns. */
    method EndOfPoll(a: nat)
      requires a in running && running[a].poller < |pollers|
      modifies this`running, this`armed, this`unused, this`pollers
      ensures View() == Rearm(old(View()), a)
    {
      var p := running[a].poller;
      if !pollers[p].cancelled {
        armed := armed[unused := p];
        pollers := pollers[p := pollers[p].(timer := Some(unused))];
        unused := unused + 1;
      }
      running := running - {a};
    }

    /** From `setBatchResult` on: a terminal batch is synchronised, any other is polled again. */
    method ShowBatch(a: nat, seen: Progress)
      requires a in running && running[a].poller < |pollers|
      modifies this`running, this`armed, this`unused, this`pollers
      ensures View() == Judge(old(View()), a, seen)
    {
      if BatchIsTerminal(seen) {
        var p := running[a].poller;
        pollers := pollers[p := pollers[p].(sawTerminal := true)];
        running := running[a := running[a].(wait := Syncing)];
      } else {
        EndOfPoll(a);
      }
    }

    method OnMount(batch: BatchId, shown: Progress)
      modifies this
      ensures View() == Next(old(View()), Mount(batch, shown))
    {
      if batch == "" || BatchIsTerminal(shown) { return; }
      pollers := pollers + [Poller(batch, false, None, false, false)];
      Poll(|pollers| - 1);
    }

    method OnCleanup(p: nat)
      requires Enabled(View(), Cleanup(p))
      modifies this`armed, this`pollers
      ensures View() == Next(old(View()), Cleanup(p))
    {
      if pollers[p].timer.Some? { armed := armed - {pollers[p].timer.value}; }
      pollers := pollers[p := pollers[p].(cancelled := true)];
    }

    method OnTimer(k: nat)
      requires Enabled(View(), Fire(k))
      modifies this`armed, this`running, this`unused
      ensures View() == Next(old(View()), Fire(k))
    {
      var p := armed[k];
      armed := armed - {k};
      Poll(p);
    }

    method OnDetail(a: nat, answer: Option<Progress>)
      requires Enabled(View(), DetailAnswer(a, answer))
      modifies this
      ensures View() == Next(old(View()), DetailAnswer(a, answer))
    {
      if answer.None? { EndOfPoll(a); return; }
      var seen, poller := answer.value, pollers[running[a].poller];
      if poller.cancelled { running := running - {a}; return; }
      if seen.stage.HYGIENE? && IsFinal(seen.status) && poller.batch !in enrichmentStarted {
        enrichmentStarted := enrichmentStarted + {poller.batch};
        log := log + [Issued(poller.batch, seen)];
        running := running[a := running[a].(wait := Enriching)];
      } else {
        ShowBatch(a, seen);
      }
    }

    method OnEnrichmentStarted(a: nat, ok: bool)
      requires Enabled(View(), StartAnswer(a, ok))
      modifies this`running, this`armed, this`unused, this`pollers
      ensures View() == Next(old(View()), StartAnswer(a, ok))
    {
      if ok { running := running[a := running[a].(wait := Recheck)]; } else { EndOfPoll(a); }
    }

    method OnRecheck(a: nat, answer: Option<Progress>)
      requires Enabled(View(), RecheckAnswer(a, answer))
      modifies this`running, this`armed, this`unused, this`pollers
      ensures View() == Next(old(View()), RecheckAnswer(a, answer))
    {
      if answer.None? { EndOfPoll(a); } else { ShowBatch(a, answer.value); }
    }

    method OnSynced(a: nat, ok: bool)
      requires Enabled(View(), SyncAnswer(a, ok))
      modifies this`running, this`armed, this`unused, this`pollers
      ensures View() == Next(old(View()), SyncAnswer(a, ok))
    {
      if ok { running := running - {a}; return; }
      var p := running[a].poller;
      pollers := pollers[p := pollers[p].(syncFailed := true)];
      EndOfPoll(a);
    }

    method OnSubmit(batch: BatchId)
      modifies this`enrichmentStarted, this`log
      ensures View() == Next(old(View()), Submit(batch))
    {
      enrichmentStarted := enrichmentStarted - {batch};
      log := log + [Cleared(batch)];
    }
  }
}
