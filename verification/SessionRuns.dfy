/** Safety and termination of the refresh protocol, over every run from the page load. */
module SessionRuns {
  import opened Text
  import opened SessionProtocol

  lemma {:induction false} RunKeeps(s: State, events: seq<Event>)
    requires Inv(s) && IsRun(s, events)
    ensures Inv(After(s, events)) && Grows(s, After(s, events))
    decreases |events|
  {
    if events != [] {
      StepKeeps(s, events[0]);
      RunKeeps(Next(s, events[0]), events[1..]);
    }
  }

  /**
   * In every reachable state at most one refresh is outstanding, and `refreshPromise` holds a refresh
   * exactly from its start until its `finally` step, whatever its outcome.
   */
  lemma SingleFlight(events: seq<Event>)
    requires IsRun(INITIAL, events)
    ensures var s := After(INITIAL, events);
      && (forall r :: 0 <= r < |s.refreshes| ==> (s.slot == Some(r) <==> !s.refreshes[r].phase.Closed?))
      && (s.slot.Some? ==> s.slot.value < |s.refreshes|)
      && (forall q, r | 0 <= q < |s.refreshes| && 0 <= r < |s.refreshes| ::
            !s.refreshes[q].phase.Closed? && !s.refreshes[r].phase.Closed? ==> q == r)
  {
    RunKeeps(INITIAL, events);
  }

  /**
   * Over every run: calls that joined one refresh and went on got the same outcome from it; a call has
   * at most two fetches of its own, a second one only after a renewal; and the retry of `request`
   * carries the very token that refresh returned, whatever became of `accessToken` meanwhile.
   */
  lemma SharedOutcome(events: seq<Event>, b: nat, c: nat)
    requires IsRun(INITIAL, events)
    requires var s := After(INITIAL, events); b < |s.calls| && c < |s.calls|
    ensures var s := After(INITIAL, events);
      var x, y := s.calls[b], s.calls[c];
      && (x.joined.Some? && x.joined == y.joined && x.got.Some? && y.got.Some? ==> x.got == y.got)
      && (x.got.Some? ==> x.joined.Some? && x.joined.value < |s.refreshes|
                          && s.refreshes[x.joined.value].phase == Closed(x.got.value))
      && |x.sent| <= 2
      && (|x.sent| == 2 ==> x.got.Some? && x.got.value.Renewed?)
      && (|x.sent| == 2 && x.kind.Request? ==> x.sent[1] == Bearer(x.got.value.token))
      && (x.kind.Restore? ==> x.sent == [])
  {
    RunKeeps(INITIAL, events);
    var s := After(INITIAL, events);
    assert CallInv(s.refreshes, s.calls[b]) && CallInv(s.refreshes, s.calls[c]);
  }

  // ----- refreshes are not started without need -----

  ghost predicate Demands(call: Call) { call.kind.Restore? || call.unauthorized }

  ghost function Demanding(s: State): set<nat> {
    set c: nat | c < |s.calls| && Demands(s.calls[c])
  }

  ghost function Starters(s: State, n: nat): set<nat>
    requires n <= |s.refreshes|
  {
    if n == 0 then {} else Starters(s, n - 1) + {s.refreshes[n - 1].starter}
  }

  lemma {:induction false} StartersCount(s: State, n: nat)
    requires Inv(s) && n <= |s.refreshes|
    ensures |Starters(s, n)| == n
    ensures forall c :: c in Starters(s, n) ==> c < |s.calls| && s.calls[c].joined.Some? && s.calls[c].joined.value < n
  {
    hide SlotInv, CallsInv;
    if n > 0 {
      StartersCount(s, n - 1);
      var c := s.refreshes[n - 1].starter;
      assert s.calls[c].joined == Some(n - 1);
      assert c !in Starters(s, n - 1);
    }
  }

  lemma StartersDemand(s: State)
    requires Inv(s)
    ensures Starters(s, |s.refreshes|) <= Demanding(s)
  {
    StartersCount(s, |s.refreshes|);
    hide SlotInv, StarterInv, Starters;
    forall c | c in Starters(s, |s.refreshes|) ensures c in Demanding(s) { assert CallInv(s.refreshes, s.calls[c]); }
  }

  lemma {:induction false} SubsetSize(a: set<nat>, b: set<nat>)
    requires a <= b
    ensures |a| <= |b|
  {
    if a != {} {
      var x :| x in a;
      SubsetSize(a - {x}, b - {x});
    }
  }

  /** Refreshes started never exceed first attempts answered 401 plus session restores. */
  lemma RefreshesAreDemanded(events: seq<Event>)
    requires IsRun(INITIAL, events)
    ensures var s := After(INITIAL, events); |s.refreshes| <= |Demanding(s)|
  {
    RunKeeps(INITIAL, events);
    var s := After(INITIAL, events);
    StartersCount(s, |s.refreshes|);
    StartersDemand(s);
    SubsetSize(Starters(s, |s.refreshes|), Demanding(s));
  }

  // ----- every run ends -----

  function CallWork(phase: Phase): nat {
    match phase
    case First => 8
    case Waiting(_) => 4
    case Retry => 3
    case Body(_) => 2
    case Returned(_) => 1
    case Done(_) => 0
  }

  function RefreshWork(phase: RefreshPhase): nat {
    match phase
    case Fetching => 3
    case Reading(_) => 2
    case Settled(_) => 1
    case Closed(_) => 0
  }

  ghost function CallsWork(calls: seq<Call>): nat {
    if calls == [] then 0 else CallsWork(calls[..|calls| - 1]) + CallWork(calls[|calls| - 1].phase)
  }

  ghost function RefreshesWork(refreshes: seq<Refresh>): nat {
    if refreshes == [] then 0
    else RefreshesWork(refreshes[..|refreshes| - 1]) + RefreshWork(refreshes[|refreshes| - 1].phase)
  }

  /** What is left to do in a state; `Start` adds at most 8, every other step uses some up. */
  ghost function Work(s: State): nat { CallsWork(s.calls) + RefreshesWork(s.refreshes) }

  lemma {:induction false} CallsWorkUpdate(calls: seq<Call>, c: nat, call: Call)
    requires c < |calls|
    ensures CallsWork(calls[c := call]) == CallsWork(calls) - CallWork(calls[c].phase) + CallWork(call.phase)
  {
    var n := |calls| - 1;
    if c == n {
      assert calls[c := call][..n] == calls[..n];
    } else {
      CallsWorkUpdate(calls[..n], c, call);
      assert calls[c := call][..n] == calls[..n][c := call];
    }
  }

  lemma {:induction false} RefreshesWorkUpdate(refreshes: seq<Refresh>, r: nat, refresh: Refresh)
    requires r < |refreshes|
    ensures RefreshesWork(refreshes[r := refresh])
         == RefreshesWork(refreshes) - RefreshWork(refreshes[r].phase) + RefreshWork(refresh.phase)
  {
    var n := |refreshes| - 1;
    if r == n {
      assert refreshes[r := refresh][..n] == refreshes[..n];
    } else {
      RefreshesWorkUpdate(refreshes[..n], r, refresh);
      assert refreshes[r := refresh][..n] == refreshes[..n][r := refresh];
    }
  }

  lemma AddCallWork(calls: seq<Call>, call: Call)
    ensures CallsWork(calls + [call]) == CallsWork(calls) + CallWork(call.phase)
  {
    assert (calls + [call])[..|calls|] == calls;
  }

  lemma JoinWork(s: State, c: nat)
    requires c < |s.calls|
    ensures Work(JoinRefresh(s, c)) <= Work(s) - CallWork(s.calls[c].phase) + 7
  {
    CallsWorkUpdate(s.calls, c, JoinRefresh(s, c).calls[c]);
    if s.slot.None? {
      assert (s.refreshes + [Refresh(Fetching, c)])[..|s.refreshes|] == s.refreshes;
    }
  }

  lemma BeginShape(s: State, kind: Kind)
    requires !kind.Restore?
    ensures var t := Begin(s, kind);
      t.refreshes == s.refreshes && exists call: Call :: t.calls == s.calls + [call] && CallWork(call.phase) <= 8
  {
    var t := Begin(s, kind);
    assert t.calls == s.calls + [t.calls[|s.calls|]];
  }

  lemma BeginWork(s: State, kind: Kind)
    ensures Work(Begin(s, kind)) <= Work(s) + 8
  {
    if kind.Restore? {
      var created := Call(kind, First, [], false, None, None);
      AddCallWork(s.calls, created);
      hide CallsWork, RefreshesWork;
      JoinWork(s.(calls := s.calls + [created]), |s.calls|);
    } else {
      BeginShape(s, kind);
      hide CallsWork, RefreshesWork, Begin;
      var call: Call :| Begin(s, kind).calls == s.calls + [call] && CallWork(call.phase) <= 8;
      AddCallWork(s.calls, call);
    }
  }

  lemma FirstResponseWork(s: State, c: nat, response: Response)
    requires Enabled(s, FirstResponse(c, response))
    ensures Work(Next(s, FirstResponse(c, response))) <= Work(s) - 1
  {
    hide CallsWork, RefreshesWork;
    var t := Next(s, FirstResponse(c, response));
    var u := SetCall(s, c, s.calls[c].(unauthorized := response.Unauthorized?));
    CallsWorkUpdate(s.calls, c, u.calls[c]);
    if response.Unauthorized? && Renews(s.calls[c].kind) { JoinWork(u, c); }
    else { CallsWorkUpdate(u.calls, c, t.calls[c]); }
  }

  lemma CallStepWork(s: State, e: Event)
    requires Enabled(s, e) && (e.Resume? || e.RetryResponse? || e.BodyRead? || e.Continue?)
    ensures Work(Next(s, e)) <= Work(s) - 1
  {
    hide CallsWork, RefreshesWork;
    CallsWorkUpdate(s.calls, e.c, Next(s, e).calls[e.c]);
  }

  lemma RefreshStepWork(s: State, e: Event)
    requires Enabled(s, e) && (e.RefreshResponse? || e.RefreshPayload? || e.Finally?)
    ensures Work(Next(s, e)) <= Work(s) - 1
  {
    hide CallsWork, RefreshesWork;
    RefreshesWorkUpdate(s.refreshes, e.r, Next(s, e).refreshes[e.r]);
  }

  lemma StepWork(s: State, e: Event)
    requires Enabled(s, e)
    ensures Work(Next(s, e)) <= if e.Start? then Work(s) + 8 else Work(s) - 1
  {
    if e.Start? {
      BeginWork(s, e.kind);
    } else if e.FirstResponse? {
      FirstResponseWork(s, e.c, e.response);
    } else if e.RefreshResponse? || e.RefreshPayload? || e.Finally? {
      RefreshStepWork(s, e);
    } else {
      CallStepWork(s, e);
    }
  }

  ghost function CallsMade(events: seq<Event>): nat {
    if events == [] then 0 else (if events[0].Start? then 1 else 0) + CallsMade(events[1..])
  }

  lemma {:induction false} RunLength(s: State, events: seq<Event>)
    requires IsRun(s, events)
    ensures |events| + Work(After(s, events)) <= 9 * CallsMade(events) + Work(s)
    decreases |events|
  {
    if events != [] {
      StepWork(s, events[0]);
      RunLength(Next(s, events[0]), events[1..]);
    }
  }

  ghost predicate Quiet(s: State) {
    && (forall c :: 0 <= c < |s.calls| ==> s.calls[c].phase.Done?)
    && (forall r :: 0 <= r < |s.refreshes| ==> s.refreshes[r].phase.Closed?)
  }

  /** Nothing ever waits for ever: unless all is done, some step other than a new call is possible. */
  lemma Progress(s: State) returns (e: Event)
    requires Inv(s) && !Quiet(s)
    ensures !e.Start? && Enabled(s, e)
  {
    if r: nat :| r < |s.refreshes| && !s.refreshes[r].phase.Closed? {
      match s.refreshes[r].phase
      case Fetching => e := RefreshResponse(r, None);
      case Reading(_) => e := RefreshPayload(r, Null);
      case Settled(_) => e := Finally(r);
    } else {
      var c: nat :| c < |s.calls| && !s.calls[c].phase.Done?;
      assert CallInv(s.refreshes, s.calls[c]);
      match s.calls[c].phase
      case First => e := FirstResponse(c, NetworkFailure);
      case Waiting(_) => e := Resume(c);
      case Retry => e := RetryResponse(c, NetworkFailure);
      case Body(_) => e := BodyRead(c, false);
      case Returned(_) => e := Continue(c, Null);
    }
  }

  /**
   * With finitely many calls every run ends: a run has at most nine steps a call, and a run that
   * cannot go on without a new call has finished every call and emptied the slot.
   */
  lemma RunsEnd(events: seq<Event>)
    requires IsRun(INITIAL, events)
    ensures |events| <= 9 * CallsMade(events)
    ensures var s := After(INITIAL, events);
      (forall e :: Enabled(s, e) ==> e.Start?) ==> Quiet(s) && s.slot.None?
  {
    RunLength(INITIAL, events);
    RunKeeps(INITIAL, events);
    var s := After(INITIAL, events);
    if !Quiet(s) { var e := Progress(s); }
  }
}
