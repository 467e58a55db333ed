/**
 * Runs as a browser schedules them. A network or body completion opens a turn, and the promise jobs it
 * leads to (a refresh's `finally`, the calls waiting for it, the rest of login and logout) are drained
 * before the next completion is looked at. Within a turn the jobs come in any order, and user code may
 * start calls at any time.
 */
module SessionTurns {
  import opened Text
  import opened SessionProtocol
  import opened SessionRuns

  predicate IsCompletion(e: Event) {
    e.FirstResponse? || e.RetryResponse? || e.BodyRead? || e.RefreshResponse? || e.RefreshPayload?
  }

  ghost predicate NoneReturned(s: State) { forall c :: 0 <= c < |s.calls| ==> !s.calls[c].phase.Returned? }

  /** Call `c` waits for a refresh whose `finally` ran: its resumption is queued. */
  predicate Queued(s: State, c: nat) {
    && c < |s.calls| && s.calls[c].phase.Waiting? && s.calls[c].phase.r < |s.refreshes|
    && s.refreshes[s.calls[c].phase.r].phase.Closed?
  }

  ghost predicate NoneSettled(s: State) { forall r :: 0 <= r < |s.refreshes| ==> !s.refreshes[r].phase.Settled? }

  ghost predicate NoneQueued(s: State) { forall c :: 0 <= c < |s.calls| ==> !Queued(s, c) }

  /** No promise job is left. */
  ghost predicate Drained(s: State) { NoneReturned(s) && NoneSettled(s) && NoneQueued(s) }

  ghost predicate IsTurnRun(s: State, events: seq<Event>)
    decreases |events|
  {
    events == []
    || (Enabled(s, events[0]) && (IsCompletion(events[0]) ==> Drained(s)) && IsTurnRun(Next(s, events[0]), events[1..]))
  }

  lemma {:induction false} TurnRunIsRun(s: State, events: seq<Event>)
    requires IsTurnRun(s, events)
    ensures IsRun(s, events)
    decreases |events|
  {
    if events != [] { TurnRunIsRun(Next(s, events[0]), events[1..]); }
  }

  // ----- the token between a renewal and the retries it leads to -----

  /** `accessToken` is the renewed token, or as useless as an empty one; and nobody is about to set it. */
  ghost predicate Holds(s: State, renewed: Token) {
    && (if renewed != "" then s.token == Some(renewed) else !Truthy(s.token))
    && NoneReturned(s)
  }

  ghost predicate SettledHold(s: State) {
    forall r :: 0 <= r < |s.refreshes| && s.refreshes[r].phase.Settled? && s.refreshes[r].phase.outcome.Renewed? ==>
      Holds(s, s.refreshes[r].phase.outcome.token)
  }

  ghost predicate QueuedHold(s: State) {
    forall c :: 0 <= c < |s.calls| && Queued(s, c) && s.refreshes[s.calls[c].phase.r].phase.outcome.Renewed? ==>
      Holds(s, s.refreshes[s.calls[c].phase.r].phase.outcome.token)
  }

  /** What the second fetch of a call carries. */
  ghost predicate RetryRight(call: Call) {
    |call.sent| == 2 ==>
      && call.got.Some? && call.got.value.Renewed?
      && (call.sent[1] == Bearer(call.got.value.token) <==> !call.kind.Blob? || call.got.value.token != "")
  }

  ghost predicate RetriesRight(s: State) { forall c :: 0 <= c < |s.calls| ==> RetryRight(s.calls[c]) }

  ghost predicate TurnInv(s: State) { SettledHold(s) && QueuedHold(s) && RetriesRight(s) }

  lemma StartKeeps(s: State, kind: Kind)
    requires Inv(s) && TurnInv(s)
    ensures TurnInv(Begin(s, kind))
  {
    var t := Begin(s, kind);
    forall c | 0 <= c < |s.calls| ensures t.calls[c] == s.calls[c] {}
    assert !t.calls[|s.calls|].phase.Returned? && |t.calls[|s.calls|].sent| <= 1;
    assert NoneReturned(s) ==> NoneReturned(t);
    hide NoneReturned;
  }

  lemma CallAfterResponse(s: State, e: Event, c: nat)
    requires Inv(s) && TurnInv(s) && NoneQueued(s) && Enabled(s, e) && c < |Next(s, e).calls|
    requires e.FirstResponse? || e.RetryResponse? || e.BodyRead?
    ensures !Queued(Next(s, e), c) && RetryRight(Next(s, e).calls[c])
  {
    assert RetryRight(s.calls[c]) && !Queued(s, c);
    assert CallInv(s.refreshes, s.calls[c]);
    hide NoneQueued, SettledHold, QueuedHold, RetriesRight, StarterInv, CallsInv, Bearer, Renews;
  }

  lemma CallAfterRefresh(s: State, e: Event, c: nat)
    requires TurnInv(s) && NoneQueued(s) && Enabled(s, e) && c < |Next(s, e).calls|
    requires e.RefreshResponse? || e.RefreshPayload?
    ensures !Queued(Next(s, e), c) && RetryRight(Next(s, e).calls[c])
  {
    assert RetryRight(s.calls[c]) && !Queued(s, c);
    hide NoneQueued, SettledHold, QueuedHold, RetriesRight, RetryRight;
  }

  lemma CompletionKeeps(s: State, e: Event)
    requires Inv(s) && TurnInv(s) && Drained(s) && Enabled(s, e) && IsCompletion(e)
    ensures TurnInv(Next(s, e))
  {
    var t := Next(s, e);
    forall c | 0 <= c < |t.calls| ensures !Queued(t, c) && RetryRight(t.calls[c]) {
      if e.RefreshResponse? || e.RefreshPayload? { CallAfterRefresh(s, e, c); } else { CallAfterResponse(s, e, c); }
    }
    assert SettledHold(t) by { hide QueuedHold, RetriesRight, Inv; }
    hide SettledHold, NoneReturned, NoneSettled, NoneQueued, Queued, RetryRight, Inv, Next, Enabled;
  }

  lemma BearerIs(a: Token, b: Token)
    ensures Bearer(a) == Bearer(b) <==> a == b
  {
    assert ("Bearer " + a)[7..] == a && ("Bearer " + b)[7..] == b;
  }

  lemma ResumeKeeps(s: State, c: nat)
    requires Inv(s) && TurnInv(s) && Enabled(s, Resume(c))
    ensures TurnInv(Next(s, Resume(c)))
  {
    var t := Next(s, Resume(c));
    var outcome := s.refreshes[s.calls[c].phase.r].phase.outcome;
    assert Queued(s, c) && CallInv(s.refreshes, s.calls[c]);
    if outcome.Renewed? && s.token.Some? { BearerIs(s.token.value, outcome.token); }
    assert RetryRight(t.calls[c]) by { hide NoneReturned; }
    forall k | 0 <= k < |t.calls| && k != c ensures t.calls[k] == s.calls[k] {}
    assert NoneReturned(s) ==> NoneReturned(t);
    hide NoneReturned, RetryRight;
  }

  lemma ContinueKeeps(s: State, c: nat, payload: Payload)
    requires TurnInv(s) && Enabled(s, Continue(c, payload))
    ensures TurnInv(Next(s, Continue(c, payload)))
  {
    var t := Next(s, Continue(c, payload));
    assert !NoneReturned(s);
    forall k | 0 <= k < |t.calls|
      ensures RetryRight(t.calls[k]) && (Queued(t, k) ==> Queued(s, k) && t.calls[k] == s.calls[k])
    {
      assert RetryRight(s.calls[k]);
    }
    hide NoneReturned, RetryRight, Queued;
  }

  lemma FinallyHolds(s: State, r: nat)
    requires Inv(s) && TurnInv(s) && Enabled(s, Finally(r))
    ensures TurnInv(Next(s, Finally(r)))
  {
    var t := Next(s, Finally(r));
    assert t.calls == s.calls && t.token == s.token;
    forall c | 0 <= c < |t.calls| && Queued(t, c) && t.refreshes[t.calls[c].phase.r].phase.outcome.Renewed?
      ensures Holds(s, t.refreshes[t.calls[c].phase.r].phase.outcome.token)
    {
      if t.calls[c].phase.r != r { assert Queued(s, c); }
    }
  }

  lemma TurnStepKeeps(s: State, e: Event)
    requires Inv(s) && TurnInv(s) && Enabled(s, e) && (IsCompletion(e) ==> Drained(s))
    ensures TurnInv(Next(s, e))
  {
    match e
    case Start(kind) => StartKeeps(s, kind);
    case Resume(c) => ResumeKeeps(s, c);
    case Continue(c, payload) => ContinueKeeps(s, c, payload);
    case Finally(r) => FinallyHolds(s, r);
    case _ => CompletionKeeps(s, e);
  }

  lemma {:induction false} TurnRunKeeps(s: State, events: seq<Event>)
    requires Inv(s) && TurnInv(s) && IsTurnRun(s, events)
    ensures IsRun(s, events) && Inv(After(s, events)) && TurnInv(After(s, events))
    decreases |events|
  {
    if events != [] {
      StepKeeps(s, events[0]);
      TurnStepKeeps(s, events[0]);
      TurnRunKeeps(Next(s, events[0]), events[1..]);
    }
  }

  // ----- the results -----

  /**
   * Over every run scheduled in turns, the second fetch of a call carries the token that its refresh
   * returned, for JSON and for blobs alike, if and only if it is no blob or that token is not empty.
   */
  lemma RetryToken(events: seq<Event>, c: nat)
    requires IsTurnRun(INITIAL, events)
    ensures IsRun(INITIAL, events)
    ensures var s := After(INITIAL, events);
      c < |s.calls| && |s.calls[c].sent| == 2 ==>
        var call := s.calls[c];
        && call.got.Some? && call.got.value.Renewed?
        && (call.sent[1] == Bearer(call.got.value.token) <==> !call.kind.Blob? || call.got.value.token != "")
  {
    TurnRunKeeps(INITIAL, events);
    var s := After(INITIAL, events);
    if c < |s.calls| { assert RetryRight(s.calls[c]); }
  }

  /** Scheduling in turns never blocks a run: unless all is done, a step other than a new call may come. */
  lemma TurnProgress(s: State) returns (e: Event)
    requires Inv(s) && !Quiet(s)
    ensures !e.Start? && Enabled(s, e) && (IsCompletion(e) ==> Drained(s))
  {
    if Drained(s) {
      e := Progress(s);
    } else if r: nat :| r < |s.refreshes| && s.refreshes[r].phase.Settled? {
      e := Finally(r);
    } else if c: nat :| c < |s.calls| && Queued(s, c) {
      e := Resume(c);
    } else {
      var c: nat :| c < |s.calls| && s.calls[c].phase.Returned?;
      e := Continue(c, Null);
    }
  }

  lemma PrependTurn(s: State, e: Event, rest: seq<Event>)
    requires Enabled(s, e) && (IsCompletion(e) ==> Drained(s)) && IsTurnRun(Next(s, e), rest)
    ensures IsTurnRun(s, [e] + rest)
    ensures IsRun(Next(s, e), rest) && IsRun(s, [e] + rest) && After(s, [e] + rest) == After(Next(s, e), rest)
  {
    assert ([e] + rest)[1..] == rest;
    TurnRunIsRun(Next(s, e), rest);
  }

  /** A blob call waits for refresh 0, which was answered with an empty token. */
  const EMPTY_ANSWER := State(Some(""), Some(0), [Refresh(Settled(Renewed("")), 0)],
                              [Call(Blob, Waiting(0), [None], true, Some(0), None)])

  lemma RetryWithoutToken() returns (events: seq<Event>)
    ensures IsTurnRun(EMPTY_ANSWER, events) && IsRun(EMPTY_ANSWER, events)
    ensures After(EMPTY_ANSWER, events).calls
         == [Call(Blob, Retry, [None, None], true, Some(0), Some(Renewed("")))]
  {
    var closed := Next(EMPTY_ANSWER, Finally(0));
    var last := Next(closed, Resume(0));
    var header := FirstHeader(Some(""), None);
    assert header == None && EMPTY_ANSWER.calls[0].sent + [header] == [None, None];
    assert last.calls == [Call(Blob, Retry, [None, None], true, Some(0), Some(Renewed("")))];
    assert After(last, []) == last;
    PrependTurn(closed, Resume(0), []);
    events := [Resume(0)] + [];
    PrependTurn(EMPTY_ANSWER, Finally(0), events);
    events := [Finally(0)] + events;
  }

  /** The failing input: a refresh answered with an empty token. The blob retry then carries none. */
  lemma EmptyRenewal() returns (events: seq<Event>)
    ensures IsTurnRun(INITIAL, events) && IsRun(INITIAL, events)
    ensures After(INITIAL, events).calls == [Call(Blob, Retry, [None, None], true, Some(0), Some(Renewed("")))]
  {
    events := RetryWithoutToken();
    var s1 := Next(INITIAL, Start(Blob));
    var s2 := Next(s1, FirstResponse(0, Unauthorized));
    var s3 := Next(s2, RefreshResponse(0, Some(true)));
    assert Next(s3, RefreshPayload(0, Object(Some("")))) == EMPTY_ANSWER;
    PrependTurn(s3, RefreshPayload(0, Object(Some(""))), events);
    events := [RefreshPayload(0, Object(Some("")))] + events;
    PrependTurn(s2, RefreshResponse(0, Some(true)), events);
    events := [RefreshResponse(0, Some(true))] + events;
    PrependTurn(s1, FirstResponse(0, Unauthorized), events);
    events := [FirstResponse(0, Unauthorized)] + events;
    PrependTurn(INITIAL, Start(Blob), events);
    events := [Start(Blob)] + events;
  }
}
