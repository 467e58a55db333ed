/**
 * Single-flight token refresh (frontend/src/api.ts), as interleaved steps cut at each `await`.
 *
 * `token` and `slot` are the module variables `accessToken` and `refreshPromise`. Any number of calls
 * share them; the browser runs one step at a time, in any order, and the server answers anything.
 * `refreshes` and `calls` also keep what happened, so that statements about whole runs can be made.
 */
module SessionProtocol {
  import opened Text

  type Token = string

  datatype Kind =
    | Request(path: string, own: Option<string>)  // `own`: an Authorization header given by the caller
    | Blob
    | Login
    | Logout
    | Restore

  /** Rejected: a bad answer; Broken: a good answer whose JSON is `null`; Unreachable: no answer. */
  datatype Outcome = Renewed(token: Token) | Rejected | Broken | Unreachable

  /** What `response.json().catch(() => ({}))` gave: JSON `null`, or something with or without `access`. */
  datatype Payload = Null | Object(access: Option<Token>)

  datatype RefreshPhase =
    | Fetching                   // awaiting fetch of /auth/token/refresh/
    | Reading(ok: bool)          // awaiting response.json()
    | Settled(outcome: Outcome)  // the async body ended; its `.finally` has not run
    | Closed(outcome: Outcome)   // `.finally` ran

  datatype Refresh = Refresh(phase: RefreshPhase, starter: nat)

  datatype Phase =
    | First             // awaiting the first fetch
    | Waiting(r: nat)   // awaiting refresh r
    | Retry             // awaiting the second fetch
    | Body(ok: bool)    // awaiting the response body
    | Returned(ok: bool) // login, logout: the inner request ended, the caller has not resumed
    | Done(ok: bool)

  /** `sent`: the Authorization header of each fetch of the call; `got`: what its refresh gave it. */
  datatype Call = Call(kind: Kind, phase: Phase, sent: seq<Option<string>>, unauthorized: bool,
                       joined: Option<nat>, got: Option<Outcome>)

  datatype State = State(token: Option<Token>, slot: Option<nat>, refreshes: seq<Refresh>, calls: seq<Call>)

  datatype Response = NetworkFailure | Unauthorized | NoContent | Answer(ok: bool)

  datatype Event =
    | Start(kind: Kind)
    | FirstResponse(c: nat, response: Response)
    | Resume(c: nat)
    | RetryResponse(c: nat, response: Response)
    | BodyRead(c: nat, intact: bool)                    // whether the body could be read
    | Continue(c: nat, payload: Payload)                // what login's request resolved with
    | RefreshResponse(r: nat, answer: Option<bool>)     // None: the fetch itself rejected
    | RefreshPayload(r: nat, payload: Payload)
    | Finally(r: nat)

  const INITIAL := State(None, None, [], [])

  // ----- the steps -----

  predicate Truthy(token: Option<string>) { token.Some? && token.value != "" }

  function Bearer(token: Token): Option<string> { Some("Bearer " + token) }

  function FirstHeader(token: Option<Token>, own: Option<string>): Option<string> {
    if Truthy(token) && !Truthy(own) then Bearer(token.value) else own
  }

  predicate NamesAuthToken(path: string) {
    "/auth/token" <= path || (path != [] && NamesAuthToken(path[1..]))
  }

  predicate Renews(kind: Kind) {
    match kind
    case Request(path, _) => !NamesAuthToken(path)
    case Blob => true
    case _ => false
  }

  function SetCall(s: State, c: nat, call: Call): State
    requires c < |s.calls|
  {
    s.(calls := s.calls[c := call])
  }

  function SetRefresh(s: State, r: nat, phase: RefreshPhase): State
    requires r < |s.refreshes|
  {
    s.(refreshes := s.refreshes[r := s.refreshes[r].(phase := phase)])
  }

  /** `refreshAccessToken`: join the refresh in the slot, or start one and put it there. */
  function JoinRefresh(s: State, c: nat): State
    requires c < |s.calls|
  {
    var id := if s.slot.Some? then s.slot.value else |s.refreshes|;
    var refreshes := if s.slot.Some? then s.refreshes else s.refreshes + [Refresh(Fetching, c)];
    SetCall(s.(slot := Some(id), refreshes := refreshes), c,
            s.calls[c].(phase := Waiting(id), joined := Some(id)))
  }

  /** Login and logout have code after their request; the other calls end with it. */
  function End(kind: Kind, ok: bool): Phase {
    if kind.Login? || kind.Logout? then Returned(ok) else Done(ok)
  }

  function AfterResponse(kind: Kind, response: Response): Phase {
    match response
    case NetworkFailure => End(kind, false)
    case Unauthorized => Body(false)
    case NoContent => if kind.Blob? then Body(true) else End(kind, !kind.Login?)  // login reads a field of nothing
    case Answer(ok) => Body(ok)
  }

  /** An unreadable JSON body counts as `{}`; an unreadable blob makes the call fail. */
  function AfterBody(kind: Kind, ok: bool, intact: bool): Phase { End(kind, ok && (intact || !kind.Blob?)) }

  function Begin(s: State, kind: Kind): State {
    var created := Call(kind, First, [], false, None, None);
    match kind
    case Restore => JoinRefresh(s.(calls := s.calls + [created]), |s.calls|)
    case Logout =>
      if Truthy(s.token) then s.(calls := s.calls + [created.(sent := [FirstHeader(s.token, None)])])
      else s.(token := None, calls := s.calls + [created.(phase := Done(true))])
    case Request(_, own) => s.(calls := s.calls + [created.(sent := [FirstHeader(s.token, own)])])
    case _ => s.(calls := s.calls + [created.(sent := [FirstHeader(s.token, None)])])
  }

  /** A JSON retry sends the token its refresh returned; a blob retry reads `accessToken` again. */
  function RetryHeader(s: State, kind: Kind, renewed: Token): Option<string> {
    if kind.Blob? then FirstHeader(s.token, None) else Bearer(renewed)
  }

  function Woken(s: State, c: nat, outcome: Outcome): State
    requires c < |s.calls|
  {
    var call := s.calls[c].(got := Some(outcome));
    if outcome.Renewed? && !call.kind.Restore? then
      SetCall(s, c, call.(phase := Retry, sent := call.sent + [RetryHeader(s, call.kind, outcome.token)]))
    else
      SetCall(s, c, call.(phase := Done(outcome.Renewed?)))
  }

  /** Reading `access` of a `null` payload throws, before the token is touched. */
  predicate Resolves(call: Call, payload: Payload) {
    call.phase.Returned? && call.phase.ok && !(call.kind.Login? && payload.Null?)
  }

  function Continued(s: State, c: nat, payload: Payload): State
    requires c < |s.calls| && s.calls[c].phase.Returned?
  {
    var call := s.calls[c];
    var token := if call.kind.Logout? then None
                 else if call.kind.Login? && Resolves(call, payload) then payload.access else s.token;
    SetCall(s.(token := token), c, call.(phase := Done(Resolves(call, payload))))
  }

  /** The refresh body after its JSON: a bad answer clears the token, a good one sets it. */
  function Answered(s: State, r: nat, payload: Payload): State
    requires r < |s.refreshes| && s.refreshes[r].phase.Reading?
  {
    if !s.refreshes[r].phase.ok then SetRefresh(s.(token := None), r, Settled(Rejected))
    else if payload.Null? then SetRefresh(s, r, Settled(Broken))
    else if payload.access.None? then SetRefresh(s.(token := None), r, Settled(Rejected))
    else SetRefresh(s.(token := payload.access), r, Settled(Renewed(payload.access.value)))
  }

  predicate Enabled(s: State, e: Event) {
    match e
    case Start(_) => true
    case FirstResponse(c, _) => c < |s.calls| && s.calls[c].phase.First?
    case Resume(c) =>
      c < |s.calls| && s.calls[c].phase.Waiting? && s.calls[c].phase.r < |s.refreshes|
      && s.refreshes[s.calls[c].phase.r].phase.Closed?
    case RetryResponse(c, _) => c < |s.calls| && s.calls[c].phase.Retry?
    case BodyRead(c, _) => c < |s.calls| && s.calls[c].phase.Body?
    case Continue(c, _) => c < |s.calls| && s.calls[c].phase.Returned?
    case RefreshResponse(r, _) => r < |s.refreshes| && s.refreshes[r].phase.Fetching?
    case RefreshPayload(r, _) => r < |s.refreshes| && s.refreshes[r].phase.Reading?
    case Finally(r) => r < |s.refreshes| && s.refreshes[r].phase.Settled?
  }

  function Next(s: State, e: Event): State
    requires Enabled(s, e)
  {
    match e
    case Start(kind) => Begin(s, kind)
    case FirstResponse(c, response) =>
      var t := SetCall(s, c, s.calls[c].(unauthorized := response.Unauthorized?));
      if response.Unauthorized? && Renews(s.calls[c].kind) then JoinRefresh(t, c)
      else SetCall(t, c, t.calls[c].(phase := AfterResponse(t.calls[c].kind, response)))
    case Resume(c) => Woken(s, c, s.refreshes[s.calls[c].phase.r].phase.outcome)
    case RetryResponse(c, response) =>
      SetCall(s, c, s.calls[c].(phase := AfterResponse(s.calls[c].kind, response)))
    case BodyRead(c, intact) =>
      SetCall(s, c, s.calls[c].(phase := AfterBody(s.calls[c].kind, s.calls[c].phase.ok, intact)))
    case Continue(c, payload) => Continued(s, c, payload)
    case RefreshResponse(r, answer) =>
      SetRefresh(s, r, if answer.None? then Settled(Unreachable) else Reading(answer.value))
    case RefreshPayload(r, payload) => Answered(s, r, payload)
    case Finally(r) => SetRefresh(s.(slot := None), r, Closed(s.refreshes[r].phase.outcome))
  }

  // ----- runs -----

  ghost predicate IsRun(s: State, events: seq<Event>)
    decreases |events|
  {
    events == [] || (Enabled(s, events[0]) && IsRun(Next(s, events[0]), events[1..]))
  }

  ghost function After(s: State, events: seq<Event>): State
    requires IsRun(s, events)
    decreases |events|
  {
    if events == [] then s else After(Next(s, events[0]), events[1..])
  }

  // ----- what every step keeps -----

  ghost predicate SlotInv(s: State) {
    && (s.slot.Some? ==> s.slot.value < |s.refreshes|)
    && forall r :: 0 <= r < |s.refreshes| ==> (s.slot == Some(r) <==> !s.refreshes[r].phase.Closed?)
  }

  /** Every refresh has a starter of its own, which joined it. */
  ghost predicate StarterInv(s: State) {
    forall r :: 0 <= r < |s.refreshes| ==>
      s.refreshes[r].starter < |s.calls| && s.calls[s.refreshes[r].starter].joined == Some(r)
  }

  ghost predicate CallInv(refreshes: seq<Refresh>, call: Call) {
    && (call.phase.Waiting? ==> call.joined == Some(call.phase.r) && call.got.None?)
    && (call.joined.Some? ==>
          call.joined.value < |refreshes| && (call.kind.Restore? || (call.unauthorized && Renews(call.kind))))
    && (call.got.Some? ==> call.joined.Some? && refreshes[call.joined.value].phase == Closed(call.got.value))
    && (call.joined.None? ==> call.got.None?)
    && (call.phase.First? ==> call.joined.None?)
    && (call.phase.Retry? ==> call.got.Some?)
    && |call.sent| <= 2
    && (call.got.None? ==> |call.sent| <= 1)
    && (call.kind.Restore? ==> |call.sent| == 0 && (call.phase.Waiting? || call.phase.Done?))
    && (|call.sent| == 2 ==> call.got.Some? && call.got.value.Renewed?)
    && (|call.sent| == 2 && call.kind.Request? ==> call.sent[1] == Bearer(call.got.value.token))
  }

  ghost predicate CallsInv(s: State) {
    forall c :: 0 <= c < |s.calls| ==> CallInv(s.refreshes, s.calls[c])
  }

  ghost predicate Inv(s: State) { SlotInv(s) && StarterInv(s) && CallsInv(s) }

  /** Closed refreshes stay closed with the same outcome; refreshes and calls are never forgotten. */
  ghost predicate Grows(s: State, t: State) {
    && |s.refreshes| <= |t.refreshes| && |s.calls| <= |t.calls|
    && (forall r :: 0 <= r < |s.refreshes| && s.refreshes[r].phase.Closed? ==>
          t.refreshes[r].phase == s.refreshes[r].phase)
    && (forall c :: 0 <= c < |s.calls| ==> t.calls[c].kind == s.calls[c].kind)
  }

  lemma AddCallKeeps(s: State, call: Call)
    requires Inv(s) && CallInv(s.refreshes, call)
    ensures var t := s.(calls := s.calls + [call]); Inv(t) && Grows(s, t)
  {
    var t := s.(calls := s.calls + [call]);
    assert forall c :: 0 <= c < |s.calls| ==> t.calls[c] == s.calls[c];
  }

  lemma SetCallKeeps(s: State, c: nat, call: Call)
    requires Inv(s) && c < |s.calls| && CallInv(s.refreshes, call)
    requires call.kind == s.calls[c].kind && call.joined == s.calls[c].joined
    ensures Inv(SetCall(s, c, call)) && Grows(s, SetCall(s, c, call))
  {
  }

  lemma SetRefreshKeeps(s: State, r: nat, phase: RefreshPhase)
    requires Inv(s) && r < |s.refreshes| && !s.refreshes[r].phase.Closed? && !phase.Closed?
    ensures Inv(SetRefresh(s, r, phase)) && Grows(s, SetRefresh(s, r, phase))
  {
    var t := SetRefresh(s, r, phase);
    forall c | 0 <= c < |t.calls| ensures CallInv(t.refreshes, t.calls[c]) { assert CallInv(s.refreshes, s.calls[c]); }
  }

  lemma FinallyKeeps(s: State, r: nat)
    requires Inv(s) && Enabled(s, Finally(r))
    ensures Inv(Next(s, Finally(r))) && Grows(s, Next(s, Finally(r)))
  {
    var t := Next(s, Finally(r));
    forall c | 0 <= c < |t.calls| ensures CallInv(t.refreshes, t.calls[c]) { assert CallInv(s.refreshes, s.calls[c]); }
  }

  lemma JoinKeeps(s: State, c: nat)
    requires Inv(s) && c < |s.calls|
    requires var call := s.calls[c];
      call.joined.None? && (call.kind.Restore? || (call.unauthorized && Renews(call.kind)))
      && (call.kind.Restore? ==> call.sent == [])
    ensures Inv(JoinRefresh(s, c)) && Grows(s, JoinRefresh(s, c))
  {
    var t := JoinRefresh(s, c);
    forall k | 0 <= k < |t.calls| ensures CallInv(t.refreshes, t.calls[k]) { assert CallInv(s.refreshes, s.calls[k]); }
    assert forall r :: 0 <= r < |s.refreshes| ==> t.refreshes[r] == s.refreshes[r];
  }

  lemma BeginKeeps(s: State, kind: Kind)
    requires Inv(s)
    ensures Inv(Begin(s, kind)) && Grows(s, Begin(s, kind))
  {
    var created := Call(kind, First, [], false, None, None);
    var t := Begin(s, kind);
    match kind
    case Restore =>
      var u := s.(calls := s.calls + [created.(phase := Done(false))]);
      AddCallKeeps(s, created.(phase := Done(false)));
      JoinKeeps(u, |s.calls|);
      assert t == JoinRefresh(u, |s.calls|);
    case Logout =>
      if Truthy(s.token) { AddCallKeeps(s, created.(sent := [FirstHeader(s.token, None)])); }
      else { AddCallKeeps(s, created.(phase := Done(true))); }
    case Request(_, own) => AddCallKeeps(s, created.(sent := [FirstHeader(s.token, own)]));
    case _ => AddCallKeeps(s, created.(sent := [FirstHeader(s.token, None)]));
  }

  lemma FirstResponseKeeps(s: State, c: nat, response: Response)
    requires Inv(s) && Enabled(s, FirstResponse(c, response))
    ensures Inv(Next(s, FirstResponse(c, response))) && Grows(s, Next(s, FirstResponse(c, response)))
  {
    var call := s.calls[c].(unauthorized := response.Unauthorized?);
    assert CallInv(s.refreshes, s.calls[c]);
    SetCallKeeps(s, c, call);
    var t := SetCall(s, c, call);
    if response.Unauthorized? && Renews(call.kind) {
      JoinKeeps(t, c);
    } else {
      SetCallKeeps(t, c, call.(phase := AfterResponse(call.kind, response)));
    }
  }

  lemma GrowsAsShown(s: State, t: State, u: State)
    requires Grows(s, t) && t.refreshes == u.refreshes && t.calls == u.calls
    ensures Grows(s, u)
  {
  }

  lemma TokenKeeps(s: State, token: Option<Token>)
    requires Inv(s)
    ensures Inv(s.(token := token))
  {
  }

  /** The step invariant: every step from a good state leads to a good state and forgets nothing. */
  lemma StepKeeps(s: State, e: Event)
    requires Inv(s) && Enabled(s, e)
    ensures Inv(Next(s, e)) && Grows(s, Next(s, e))
  {
    hide SlotInv, StarterInv, Grows;
    match e
    case Start(kind) => BeginKeeps(s, kind);
    case FirstResponse(c, response) => FirstResponseKeeps(s, c, response);
    case Resume(c) =>
      var call, outcome := s.calls[c], s.refreshes[s.calls[c].phase.r].phase.outcome;
      assert CallInv(s.refreshes, call);
      SetCallKeeps(s, c, Woken(s, c, outcome).calls[c]);
    case RetryResponse(c, response) =>
      assert CallInv(s.refreshes, s.calls[c]);
      SetCallKeeps(s, c, s.calls[c].(phase := AfterResponse(s.calls[c].kind, response)));
    case BodyRead(c, intact) =>
      assert CallInv(s.refreshes, s.calls[c]);
      SetCallKeeps(s, c, s.calls[c].(phase := AfterBody(s.calls[c].kind, s.calls[c].phase.ok, intact)));
    case Continue(c, payload) =>
      assert CallInv(s.refreshes, s.calls[c]);
      var call := s.calls[c].(phase := Done(Resolves(s.calls[c], payload)));
      SetCallKeeps(s, c, call);
      TokenKeeps(SetCall(s, c, call), Next(s, e).token);
      GrowsAsShown(s, SetCall(s, c, call), Next(s, e));
    case RefreshResponse(r, answer) =>
      SetRefreshKeeps(s, r, if answer.None? then Settled(Unreachable) else Reading(answer.value));
    case RefreshPayload(r, payload) =>
      var t := SetRefresh(s, r, Answered(s, r, payload).refreshes[r].phase);
      SetRefreshKeeps(s, r, t.refreshes[r].phase);
      TokenKeeps(t, Next(s, e).token);
      GrowsAsShown(s, t, Next(s, e));
    case Finally(r) => FinallyKeeps(s, r);
  }
}
