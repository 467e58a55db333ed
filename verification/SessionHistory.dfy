/**
 * What a run's events alone say about the session (frontend/src/api.ts): which token is held, which calls
 * wait for a refresh, how many fetches a call issues and how it ends. `h` is the list of the events so far;
 * the functions on it do not know the protocol's states, and the states are proved to agree with them.
 */
module SessionHistory {
  import opened Text
  import opened SessionProtocol
  import opened SessionRuns

  // ----- answers in a history -----

  /** The kinds of the calls, in the order in which they were started. */
  function Kinds(h: seq<Event>): seq<Kind> {
    if h == [] then []
    else Kinds(h[..|h| - 1]) + if h[|h| - 1].Start? then [h[|h| - 1].kind] else []
  }

  /** The answer to the first fetch of call `c`. */
  function FirstAnswer(h: seq<Event>, c: nat): Option<Response> {
    if h == [] then None
    else if h[|h| - 1].FirstResponse? && h[|h| - 1].c == c then Some(h[|h| - 1].response)
    else FirstAnswer(h[..|h| - 1], c)
  }

  /** The answer to its retry. */
  function SecondAnswer(h: seq<Event>, c: nat): Option<Response> {
    if h == [] then None
    else if h[|h| - 1].RetryResponse? && h[|h| - 1].c == c then Some(h[|h| - 1].response)
    else SecondAnswer(h[..|h| - 1], c)
  }

  /** Whether its body could be read. */
  function BodyIntact(h: seq<Event>, c: nat): bool {
    if h == [] then false
    else if h[|h| - 1].BodyRead? && h[|h| - 1].c == c then h[|h| - 1].intact
    else BodyIntact(h[..|h| - 1], c)
  }

  /** What login's request resolved with. */
  function LoginPayload(h: seq<Event>, c: nat): Option<Payload> {
    if h == [] then None
    else if h[|h| - 1].Continue? && h[|h| - 1].c == c then Some(h[|h| - 1].payload)
    else LoginPayload(h[..|h| - 1], c)
  }

  /** The answer to the fetch of refresh `r`. */
  function RefreshAnswer(h: seq<Event>, r: nat): Option<Option<bool>> {
    if h == [] then None
    else if h[|h| - 1].RefreshResponse? && h[|h| - 1].r == r then Some(h[|h| - 1].answer)
    else RefreshAnswer(h[..|h| - 1], r)
  }

  /** Its JSON. */
  function RefreshBody(h: seq<Event>, r: nat): Option<Payload> {
    if h == [] then None
    else if h[|h| - 1].RefreshPayload? && h[|h| - 1].r == r then Some(h[|h| - 1].payload)
    else RefreshBody(h[..|h| - 1], r)
  }

  predicate IsCall(h: seq<Event>, c: nat, kind: Kind) { c < |Kinds(h)| && Kinds(h)[c] == kind }

  // ----- the token -----

  /**
   * The token held after a history: that of the last good refresh answer or successful login; none after
   * the last bad refresh answer or end of a logout.
   */
  function Held(h: seq<Event>): Option<Token> {
    if h == [] then None
    else
      var before, e := h[..|h| - 1], h[|h| - 1];
      match e
      case Start(Logout) => if Held(before).Some? && Held(before).value != "" then Held(before) else None
      case Continue(c, payload) =>
        if IsCall(before, c, Logout) then None
        else if IsCall(before, c, Login) && FirstAnswer(before, c) == Some(Answer(true)) && payload.Object? then
          payload.access
        else Held(before)
      case RefreshPayload(r, payload) =>
        if RefreshAnswer(before, r) != Some(Some(true)) then None
        else if payload.Object? then payload.access
        else Held(before)
      case _ => Held(before)
  }

  // ----- which calls try a refresh -----

  /** The path holds "/auth/token" somewhere. */
  ghost predicate AboutTokens(path: string) {
    exists i :: 0 <= i <= |path| && "/auth/token" <= path[i..]
  }

  lemma {:induction false} AboutTokensExact(path: string)
    ensures NamesAuthToken(path) <==> AboutTokens(path)
  {
    if path != [] {
      AboutTokensExact(path[1..]);
      if i :| 0 <= i <= |path| && "/auth/token" <= path[i..] {
        if i > 0 { assert path[1..][i - 1..] == path[i..]; } else { assert path[0..] == path; }
      }
      if i :| 0 <= i <= |path[1..]| && "/auth/token" <= path[1..][i..] { assert path[i + 1..] == path[1..][i..]; }
      if "/auth/token" <= path { assert path[0..] == path; }
    } else {
      assert forall i :: 0 <= i <= |path| ==> path[i..] == [];
    }
  }

  ghost predicate TriesRefresh(kind: Kind) { kind.Blob? || (kind.Request? && !AboutTokens(kind.path)) }

  lemma TriesExact(kind: Kind)
    ensures TriesRefresh(kind) <==> Renews(kind)
  {
    if kind.Request? { AboutTokensExact(kind.path); }
  }

  // ----- how a call ends -----

  /** The answer a call ends with: that of its retry, once there is one, else that of its first fetch. */
  function LastAnswer(h: seq<Event>, call: Call, c: nat): Option<Response> {
    if |call.sent| == 2 then SecondAnswer(h, c) else FirstAnswer(h, c)
  }

  predicate Good(x: Option<Response>) { x == Some(Answer(true)) || x == Some(NoContent) }

  /** Whether a finished call succeeded. */
  ghost predicate Succeeds(h: seq<Event>, call: Call, c: nat) {
    if call.got.Some? && !call.got.value.Renewed? then false
    else
      match call.kind
      case Restore => call.got.Some?
      case Request(_, _) => Good(LastAnswer(h, call, c))
      case Blob => Good(LastAnswer(h, call, c)) && BodyIntact(h, c)
      case Login =>
        LastAnswer(h, call, c) == Some(Answer(true)) && LoginPayload(h, c).Some? && LoginPayload(h, c).value.Object?
      case Logout => call.sent == [] || Good(LastAnswer(h, call, c))
  }

  /** What a call's phase says about the answers it got. */
  ghost predicate PhaseTold(h: seq<Event>, call: Call, c: nat) {
    match call.phase
    case First => FirstAnswer(h, c).None? && |call.sent| == 1 && !call.kind.Restore?
    case Waiting(_) => |call.sent| == if call.kind.Restore? then 0 else 1
    case Retry => SecondAnswer(h, c).None? && |call.sent| == 2
    case Body(ok) => ok == Good(LastAnswer(h, call, c)) && !call.kind.Restore? && |call.sent| > 0
                     && LastAnswer(h, call, c).Some? && (call.kind.Login? ==> LastAnswer(h, call, c) != Some(NoContent))
    case Returned(ok) =>
      (call.kind.Login? || call.kind.Logout?) && |call.sent| > 0
      && (ok <==> if call.kind.Login? then LastAnswer(h, call, c) == Some(Answer(true))
                  else Good(LastAnswer(h, call, c)))
    case Done(ok) => ok <==> Succeeds(h, call, c)
  }

  ghost predicate CallTold(h: seq<Event>, call: Call, c: nat) {
    && PhaseTold(h, call, c)
    && (call.joined.Some?
        <==> call.kind.Restore? || (FirstAnswer(h, c) == Some(Unauthorized) && TriesRefresh(call.kind)))
    && (|call.sent| == 2 <==> call.got.Some? && call.got.value.Renewed? && !call.kind.Restore?)
    && (|call.sent| < 2 ==> SecondAnswer(h, c).None?)
    && (call.joined.Some? && call.got.None? <==> call.phase.Waiting?)
  }

  ghost predicate CallsTold(h: seq<Event>, s: State) {
    && |s.calls| == |Kinds(h)|
    && (forall c :: 0 <= c < |s.calls| ==> s.calls[c].kind == Kinds(h)[c] && CallTold(h, s.calls[c], c))
    && (forall c: nat :: c >= |s.calls| ==> FirstAnswer(h, c).None? && SecondAnswer(h, c).None?)
  }

  /** What a refresh's phase says about its answer. */
  ghost predicate RefreshTold(h: seq<Event>, phase: RefreshPhase, r: nat) {
    match phase
    case Fetching => RefreshAnswer(h, r).None?
    case Reading(ok) => RefreshAnswer(h, r) == Some(Some(ok))
    case Settled(outcome) => OutcomeTold(h, outcome, r)
    case Closed(outcome) => OutcomeTold(h, outcome, r)
  }

  ghost predicate OutcomeTold(h: seq<Event>, outcome: Outcome, r: nat) {
    match outcome
    case Unreachable => RefreshAnswer(h, r) == Some(None)
    case Broken => RefreshAnswer(h, r) == Some(Some(true)) && RefreshBody(h, r) == Some(Null)
    case Renewed(token) => RefreshAnswer(h, r) == Some(Some(true)) && RefreshBody(h, r) == Some(Object(Some(token)))
    case Rejected =>
      RefreshAnswer(h, r) == Some(Some(false))
      || (RefreshAnswer(h, r) == Some(Some(true)) && RefreshBody(h, r) == Some(Object(None)))
  }

  ghost predicate RefreshesTold(h: seq<Event>, s: State) {
    && (forall r :: 0 <= r < |s.refreshes| ==> RefreshTold(h, s.refreshes[r].phase, r))
    && (forall r: nat :: r >= |s.refreshes| ==> RefreshAnswer(h, r).None?)
  }

  ghost predicate Told(h: seq<Event>, s: State) { CallsTold(h, s) && RefreshesTold(h, s) && s.token == Held(h) }

  // ----- one more event -----

  /** How each function on histories reads one event more. */
  lemma OneMoreEvent(h: seq<Event>, e: Event)
    ensures Kinds(h + [e]) == Kinds(h) + if e.Start? then [e.kind] else []
    ensures forall c ::
      FirstAnswer(h + [e], c) == if e.FirstResponse? && e.c == c then Some(e.response) else FirstAnswer(h, c)
    ensures forall c ::
      SecondAnswer(h + [e], c) == if e.RetryResponse? && e.c == c then Some(e.response) else SecondAnswer(h, c)
    ensures forall c :: BodyIntact(h + [e], c) == if e.BodyRead? && e.c == c then e.intact else BodyIntact(h, c)
    ensures forall c ::
      LoginPayload(h + [e], c) == if e.Continue? && e.c == c then Some(e.payload) else LoginPayload(h, c)
    ensures forall r ::
      RefreshAnswer(h + [e], r) == if e.RefreshResponse? && e.r == r then Some(e.answer) else RefreshAnswer(h, r)
    ensures forall r ::
      RefreshBody(h + [e], r) == if e.RefreshPayload? && e.r == r then Some(e.payload) else RefreshBody(h, r)
  {
    assert (h + [e])[..|h|] == h && (h + [e])[|h|] == e;
  }

  lemma HeldNext(h: seq<Event>, s: State, e: Event)
    requires Inv(s) && Told(h, s) && Enabled(s, e)
    ensures Next(s, e).token == Held(h + [e])
  {
    assert (h + [e])[..|h|] == h && (h + [e])[|h|] == e;
    if e.Continue? { assert CallTold(h, s.calls[e.c], e.c) && CallInv(s.refreshes, s.calls[e.c]); }
    if e.RefreshPayload? { assert RefreshTold(h, s.refreshes[e.r].phase, e.r); }
    hide Kinds, FirstAnswer, SecondAnswer, BodyIntact, LoginPayload, RefreshAnswer, RefreshBody, Inv;
  }

  /** The functions on histories agree on one call. */
  ghost predicate SameAnswers(h: seq<Event>, k: seq<Event>, c: nat) {
    && FirstAnswer(h, c) == FirstAnswer(k, c) && SecondAnswer(h, c) == SecondAnswer(k, c)
    && BodyIntact(h, c) == BodyIntact(k, c) && LoginPayload(h, c) == LoginPayload(k, c)
  }

  lemma SameTold(h: seq<Event>, k: seq<Event>, call: Call, c: nat)
    requires CallTold(h, call, c) && SameAnswers(h, k, c)
    ensures CallTold(k, call, c)
  {
    hide FirstAnswer, SecondAnswer, BodyIntact, LoginPayload;
  }

  lemma StartTold(h: seq<Event>, s: State, kind: Kind)
    requires Inv(s) && CallsTold(h, s)
    ensures var k, t := h + [Start(kind)], Begin(s, kind);
      && |t.calls| == |s.calls| + 1 && t.calls[|s.calls|].kind == kind && CallTold(k, t.calls[|s.calls|], |s.calls|)
      && forall c :: 0 <= c < |s.calls| ==> t.calls[c] == s.calls[c]
  {
    BeginShape(s, kind);
    NewUnanswered(h, s, kind);
    hide *;
    var call := Begin(s, kind).calls[|s.calls|];
    BegunKind(call, kind);
    NewTold(h + [Start(kind)], call, |s.calls|);
  }

  lemma NewUnanswered(h: seq<Event>, s: State, kind: Kind)
    requires CallsTold(h, s)
    ensures FirstAnswer(h + [Start(kind)], |s.calls|).None? && SecondAnswer(h + [Start(kind)], |s.calls|).None?
  {
    OneMoreEvent(h, Start(kind));
    hide FirstAnswer, SecondAnswer, CallTold;
  }

  /** How a call begins. */
  predicate Begun(call: Call, kind: Kind) {
    && call.kind == kind && call.got.None? && (call.joined.Some? <==> kind.Restore?)
    && if kind.Restore? then call.phase.Waiting? && call.sent == []
       else if call.phase.Done? then kind.Logout? && call.phase.ok && call.sent == []
       else call.phase.First? && |call.sent| == 1
  }

  lemma BegunKind(call: Call, kind: Kind)
    requires Begun(call, kind)
    ensures call.kind == kind
  {
  }

  lemma BeginShape(s: State, kind: Kind)
    ensures var t := Begin(s, kind);
      && |t.calls| == |s.calls| + 1 && Begun(t.calls[|s.calls|], kind)
      && forall c :: 0 <= c < |s.calls| ==> t.calls[c] == s.calls[c]
  {
  }

  lemma NewTold(h: seq<Event>, call: Call, c: nat)
    requires FirstAnswer(h, c).None? && SecondAnswer(h, c).None? && Begun(call, call.kind)
    ensures CallTold(h, call, c)
  {
    hide FirstAnswer, SecondAnswer, BodyIntact, LoginPayload, AboutTokens;
  }

  lemma FirstTold(h: seq<Event>, s: State, c: nat, response: Response)
    requires Inv(s) && CallsTold(h, s) && Enabled(s, FirstResponse(c, response))
    ensures var e := FirstResponse(c, response); CallTold(h + [e], Next(s, e).calls[c], c)
  {
    var e := FirstResponse(c, response);
    OneMoreEvent(h, e);
    TriesExact(s.calls[c].kind);
    assert CallTold(h, s.calls[c], c) && CallInv(s.refreshes, s.calls[c]);
    hide Kinds, FirstAnswer, SecondAnswer, BodyIntact, LoginPayload, Inv, AboutTokens, NamesAuthToken, Renews;
  }

  lemma ResumeTold(h: seq<Event>, s: State, c: nat)
    requires Inv(s) && CallsTold(h, s) && Enabled(s, Resume(c))
    ensures CallTold(h + [Resume(c)], Next(s, Resume(c)).calls[c], c)
  {
    OneMoreEvent(h, Resume(c));
    assert CallTold(h, s.calls[c], c) && CallInv(s.refreshes, s.calls[c]);
    hide Kinds, FirstAnswer, SecondAnswer, BodyIntact, LoginPayload, Inv, AboutTokens, NamesAuthToken, Renews;
  }

  lemma RetryTold(h: seq<Event>, s: State, c: nat, response: Response)
    requires Inv(s) && CallsTold(h, s) && Enabled(s, RetryResponse(c, response))
    ensures var e := RetryResponse(c, response); CallTold(h + [e], Next(s, e).calls[c], c)
  {
    var e := RetryResponse(c, response);
    OneMoreEvent(h, e);
    TriesExact(s.calls[c].kind);
    assert CallTold(h, s.calls[c], c) && CallInv(s.refreshes, s.calls[c]);
    hide Kinds, FirstAnswer, SecondAnswer, BodyIntact, LoginPayload, Inv, AboutTokens, NamesAuthToken, Renews;
  }

  lemma BodyTold(h: seq<Event>, s: State, c: nat, intact: bool)
    requires Inv(s) && CallsTold(h, s) && Enabled(s, BodyRead(c, intact))
    ensures var e := BodyRead(c, intact); CallTold(h + [e], Next(s, e).calls[c], c)
  {
    var e := BodyRead(c, intact);
    OneMoreEvent(h, e);
    assert CallTold(h, s.calls[c], c) && CallInv(s.refreshes, s.calls[c]);
    hide Kinds, FirstAnswer, SecondAnswer, BodyIntact, LoginPayload, Inv, AboutTokens, NamesAuthToken, Renews;
  }

  lemma ContinueTold(h: seq<Event>, s: State, c: nat, payload: Payload)
    requires Inv(s) && CallsTold(h, s) && Enabled(s, Continue(c, payload))
    ensures var e := Continue(c, payload); CallTold(h + [e], Next(s, e).calls[c], c)
  {
    var e := Continue(c, payload);
    OneMoreEvent(h, e);
    assert CallTold(h, s.calls[c], c) && CallInv(s.refreshes, s.calls[c]);
    hide Kinds, FirstAnswer, SecondAnswer, BodyIntact, LoginPayload, Inv, AboutTokens, NamesAuthToken, Renews;
  }

  /** The call an event is about. */
  function CallOf(e: Event): Option<nat> {
    match e
    case FirstResponse(c, _) => Some(c)
    case Resume(c) => Some(c)
    case RetryResponse(c, _) => Some(c)
    case BodyRead(c, _) => Some(c)
    case Continue(c, _) => Some(c)
    case _ => None
  }

  lemma OthersUntouched(s: State, e: Event, c: nat)
    requires Enabled(s, e) && c < |s.calls| && CallOf(e) != Some(c)
    ensures c < |Next(s, e).calls| && Next(s, e).calls[c] == s.calls[c]
    ensures |Next(s, e).calls| == |s.calls| + if e.Start? then 1 else 0
  {
  }

  lemma CallCount(s: State, e: Event)
    requires Enabled(s, e)
    ensures |Next(s, e).calls| == |s.calls| + if e.Start? then 1 else 0
    ensures forall c :: 0 <= c < |s.calls| ==> Next(s, e).calls[c].kind == s.calls[c].kind
  {
  }

  lemma TouchedTold(h: seq<Event>, s: State, e: Event)
    requires Inv(s) && CallsTold(h, s) && Enabled(s, e) && CallOf(e).Some?
    ensures var c := CallOf(e).value; c < |Next(s, e).calls| && CallTold(h + [e], Next(s, e).calls[c], c)
  {
    CallCount(s, e);
    hide CallTold, CallsTold, Inv, Next;
    match e
    case FirstResponse(c, response) => FirstTold(h, s, c, response);
    case Resume(c) => ResumeTold(h, s, c);
    case RetryResponse(c, response) => RetryTold(h, s, c, response);
    case BodyRead(c, intact) => BodyTold(h, s, c, intact);
    case Continue(c, payload) => ContinueTold(h, s, c, payload);
  }

  lemma CallsNext(h: seq<Event>, s: State, e: Event)
    requires Inv(s) && CallsTold(h, s) && Enabled(s, e)
    ensures CallsTold(h + [e], Next(s, e))
  {
    var t, k := Next(s, e), h + [e];
    OneMoreEvent(h, e);
    CallCount(s, e);
    if e.Start? { StartTold(h, s, e.kind); }
    forall c | 0 <= c < |s.calls| ensures CallTold(k, t.calls[c], c) {
      if CallOf(e) == Some(c) {
        TouchedTold(h, s, e);
      } else {
        OthersUntouched(s, e, c);
        SameTold(h, k, s.calls[c], c);
      }
    }
    hide CallTold, FirstAnswer, SecondAnswer, BodyIntact, LoginPayload, Inv;
  }

  lemma SameRefreshTold(h: seq<Event>, k: seq<Event>, phase: RefreshPhase, r: nat)
    requires RefreshTold(h, phase, r)
    requires RefreshAnswer(h, r) == RefreshAnswer(k, r) && RefreshBody(h, r) == RefreshBody(k, r)
    ensures RefreshTold(k, phase, r)
  {
    hide RefreshAnswer, RefreshBody;
  }

  /** The refresh an event is about. */
  function RefreshOf(e: Event): Option<nat> {
    match e
    case RefreshResponse(r, _) => Some(r)
    case RefreshPayload(r, _) => Some(r)
    case Finally(r) => Some(r)
    case _ => None
  }

  lemma OtherRefreshes(s: State, e: Event, r: nat)
    requires Enabled(s, e) && RefreshOf(e) != Some(r) && r < |Next(s, e).refreshes|
    ensures if r < |s.refreshes| then Next(s, e).refreshes[r] == s.refreshes[r]
            else Next(s, e).refreshes[r].phase.Fetching?
  {
  }

  lemma TouchedRefresh(h: seq<Event>, s: State, e: Event)
    requires RefreshesTold(h, s) && Enabled(s, e) && RefreshOf(e).Some?
    ensures var r := RefreshOf(e).value;
      r < |Next(s, e).refreshes| && RefreshTold(h + [e], Next(s, e).refreshes[r].phase, r)
  {
    var r := RefreshOf(e).value;
    AnswersNext(h, e, r);
    assert RefreshTold(h, s.refreshes[r].phase, r);
    hide RefreshAnswer, RefreshBody;
  }

  lemma AnswersNext(h: seq<Event>, e: Event, r: nat)
    ensures RefreshAnswer(h + [e], r) == if e.RefreshResponse? && e.r == r then Some(e.answer) else RefreshAnswer(h, r)
    ensures RefreshBody(h + [e], r) == if e.RefreshPayload? && e.r == r then Some(e.payload) else RefreshBody(h, r)
  {
    OneMoreEvent(h, e);
    hide RefreshAnswer, RefreshBody;
  }

  lemma RefreshNext(h: seq<Event>, s: State, e: Event, r: nat)
    requires RefreshesTold(h, s) && Enabled(s, e) && r < |Next(s, e).refreshes|
    ensures RefreshTold(h + [e], Next(s, e).refreshes[r].phase, r)
  {
    if RefreshOf(e) == Some(r) {
      TouchedRefresh(h, s, e);
    } else {
      OtherRefreshes(s, e, r);
      OneMoreEvent(h, e);
      hide Next, Enabled, Kinds, FirstAnswer, SecondAnswer, BodyIntact, LoginPayload, RefreshAnswer, RefreshBody;
      if r < |s.refreshes| { SameRefreshTold(h, h + [e], s.refreshes[r].phase, r); }
    }
  }

  lemma RefreshesNext(h: seq<Event>, s: State, e: Event)
    requires Inv(s) && RefreshesTold(h, s) && Enabled(s, e)
    ensures RefreshesTold(h + [e], Next(s, e))
  {
    OneMoreEvent(h, e);
    StepKeeps(s, e);
    forall r | 0 <= r < |Next(s, e).refreshes| ensures RefreshTold(h + [e], Next(s, e).refreshes[r].phase, r) {
      RefreshNext(h, s, e, r);
    }
    hide RefreshTold, RefreshAnswer, Inv;
  }

  lemma RunSnoc(s: State, h: seq<Event>, e: Event)
    requires IsRun(s, h + [e])
    ensures IsRun(s, h) && Enabled(After(s, h), e) && After(s, h + [e]) == Next(After(s, h), e)
    decreases |h|
  {
    hide Next, Enabled;
    if h == [] {
      assert (h + [e])[1..] == [];
    } else {
      assert (h + [e])[1..] == h[1..] + [e] && (h + [e])[0] == h[0];
      RunSnoc(Next(s, h[0]), h[1..], e);
    }
  }

  /** In every run the states agree with what the events alone say. */
  lemma {:induction false} RunTold(h: seq<Event>)
    requires IsRun(INITIAL, h)
    ensures Told(h, After(INITIAL, h)) && Inv(After(INITIAL, h))
  {
    if h != [] {
      var k, e := h[..|h| - 1], h[|h| - 1];
      assert h == k + [e];
      RunSnoc(INITIAL, k, e);
      hide Next, Enabled, CallsTold, RefreshesTold, Inv, Held;
      RunTold(k);
      var s := After(INITIAL, k);
      StepKeeps(s, e);
      CallsNext(k, s, e);
      RefreshesNext(k, s, e);
      HeldNext(k, s, e);
    }
  }

  // ----- the results -----

  /** In every run `accessToken` is the token that the history says is held. */
  lemma TokenHeld(h: seq<Event>)
    requires IsRun(INITIAL, h)
    ensures After(INITIAL, h).token == Held(h)
  {
    RunTold(h);
  }

  /**
   * A call that starts with a fetch carries the held token when that is not empty and the caller gave no
   * header of its own; else what the caller gave. Without a token a logout issues no fetch.
   */
  lemma FirstFetch(h: seq<Event>, kind: Kind)
    requires IsRun(INITIAL, h + [Start(kind)]) && !kind.Restore?
    ensures var s := After(INITIAL, h + [Start(kind)]);
      var own := if kind.Request? then kind.own else None;
      var held := Held(h).Some? && Held(h).value != "";
      && |s.calls| > 0
      && s.calls[|s.calls| - 1].kind == kind
      && s.calls[|s.calls| - 1].sent
         == if kind.Logout? && !held then []
            else if held && (own.None? || own.value == "") then [Some("Bearer " + Held(h).value)]
            else [own]
  {
    RunSnoc(INITIAL, h, Start(kind));
    TokenHeld(h);
    hide Held;
  }

  /** How calls, refreshes and answers hang together, over every run. */
  lemma CallHistory(h: seq<Event>, c: nat)
    requires IsRun(INITIAL, h) && c < |After(INITIAL, h).calls|
    ensures var call := After(INITIAL, h).calls[c];
      && IsCall(h, c, call.kind)
      && (call.joined.Some?
        <==> call.kind.Restore? || (FirstAnswer(h, c) == Some(Unauthorized) && TriesRefresh(call.kind)))
      && (|call.sent| == 2 <==> call.got.Some? && call.got.value.Renewed? && !call.kind.Restore?)
      && (call.phase.Done? ==> (call.phase.ok <==> Succeeds(h, call, c)))
  {
    RunTold(h);
    hide Held, Succeeds, TriesRefresh;
  }

  /** What a refresh ends with, over every run. */
  lemma RefreshHistory(h: seq<Event>, r: nat)
    requires IsRun(INITIAL, h) && r < |After(INITIAL, h).refreshes| && After(INITIAL, h).refreshes[r].phase.Closed?
    ensures OutcomeTold(h, After(INITIAL, h).refreshes[r].phase.outcome, r)
  {
    RunTold(h);
    hide Held, CallsTold, OutcomeTold;
  }
}
