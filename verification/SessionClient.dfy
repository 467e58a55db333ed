/**
 * The browser's API client as it is written (frontend/src/api.ts): code segments between awaits that
 * read and assign the module variables. Each segment does exactly one step of SessionProtocol.
 */
module SessionClient {
  import opened Text
  import opened SessionProtocol

  class ApiClient {
    var accessToken: Option<Token>
    var refreshPromise: Option<nat>
    var refreshes: seq<Refresh>
    var calls: seq<Call>

    ghost function View(): State
      reads this
    {
      State(accessToken, refreshPromise, refreshes, calls)
    }

    constructor ()
      ensures View() == INITIAL
    {
      accessToken, refreshPromise, refreshes, calls := None, None, [], [];
    }

    method NotifyUnauthorized()
      modifies this`accessToken
      ensures accessToken == None
    {
      accessToken := None;
    }

    /** Up to its await: the slot is filled only when it is empty. */
    method RefreshAccessToken(c: nat)
      requires c < |calls|
      modifies this`refreshPromise, this`refreshes, this`calls
      ensures View() == JoinRefresh(old(View()), c)
    {
      if refreshPromise.None? {
        refreshes := refreshes + [Refresh(Fetching, c)];
        refreshPromise := Some(|refreshes| - 1);
      }
      calls := calls[c := calls[c].(phase := Waiting(refreshPromise.value), joined := refreshPromise)];
    }

    /** `request` and `requestBlob` up to their first await; the header is read off the variable. */
    method Send(kind: Kind, own: Option<string>)
      modifies this`calls
      ensures calls == old(calls) + [Call(kind, First, [FirstHeader(accessToken, own)], false, None, None)]
    {
      var header := own;
      if Truthy(accessToken) && !Truthy(own) { header := Bearer(accessToken.value); }
      calls := calls + [Call(kind, First, [header], false, None, None)];
    }

    method StartCall(kind: Kind)
      modifies this
      ensures View() == Next(old(View()), Start(kind))
    {
      match kind
      case Restore =>
        calls := calls + [Call(kind, First, [], false, None, None)];
        RefreshAccessToken(|calls| - 1);
      case Logout =>
        if Truthy(accessToken) {
          Send(kind, None);
        } else {
          calls := calls + [Call(kind, Done(true), [], false, None, None)];
          accessToken := None;
        }
      case Request(_, own) => Send(kind, own);
      case _ => Send(kind, None);
    }

    method OnFirstResponse(c: nat, response: Response)
      requires Enabled(View(), FirstResponse(c, response))
      modifies this
      ensures View() == Next(old(View()), FirstResponse(c, response))
    {
      var kind := calls[c].kind;
      calls := calls[c := calls[c].(unauthorized := response.Unauthorized?)];
      if response.Unauthorized? && Renews(kind) {
        RefreshAccessToken(c);
      } else {
        calls := calls[c := calls[c].(phase := AfterResponse(kind, response))];
      }
    }

    /** After `await refreshAccessToken()`: throw, resolve, or issue the one retry. */
    method OnRefreshed(c: nat)
      requires Enabled(View(), Resume(c))
      modifies this`calls
      ensures View() == Next(old(View()), Resume(c))
    {
      var outcome := refreshes[calls[c].phase.r].phase.outcome;
      var call := calls[c].(got := Some(outcome));
      if !outcome.Renewed? || call.kind.Restore? {
        calls := calls[c := call.(phase := Done(outcome.Renewed?))];
      } else {
        var header := if call.kind.Blob? then (if Truthy(accessToken) then Bearer(accessToken.value) else None)
                      else Bearer(outcome.token);
        calls := calls[c := call.(phase := Retry, sent := call.sent + [header])];
      }
    }

    method OnRetryResponse(c: nat, response: Response)
      requires Enabled(View(), RetryResponse(c, response))
      modifies this`calls
      ensures View() == Next(old(View()), RetryResponse(c, response))
    {
      calls := calls[c := calls[c].(phase := AfterResponse(calls[c].kind, response))];
    }

    method OnBodyRead(c: nat, intact: bool)
      requires Enabled(View(), BodyRead(c, intact))
      modifies this`calls
      ensures View() == Next(old(View()), BodyRead(c, intact))
    {
      var call := calls[c];
      if call.kind.Blob? && !intact {
        calls := calls[c := call.(phase := Done(false))];
      } else {
        calls := calls[c := call.(phase := End(call.kind, call.phase.ok))];
      }
    }

    /** The rest of `login` (set the token) and of `logout` (its `finally` clears it). */
    method OnContinue(c: nat, payload: Payload)
      requires Enabled(View(), Continue(c, payload))
      modifies this
      ensures View() == Next(old(View()), Continue(c, payload))
    {
      var call := calls[c];
      if call.kind.Logout? {
        accessToken := None;
      } else if call.kind.Login? && call.phase.ok {
        if payload.Null? {
          calls := calls[c := call.(phase := Done(false))];
          return;
        }
        accessToken := payload.access;
      }
      calls := calls[c := call.(phase := Done(call.phase.ok))];
    }

    method OnRefreshResponse(r: nat, answer: Option<bool>)
      requires Enabled(View(), RefreshResponse(r, answer))
      modifies this`refreshes
      ensures View() == Next(old(View()), RefreshResponse(r, answer))
    {
      var phase := if answer.None? then Settled(Unreachable) else Reading(answer.value);
      refreshes := refreshes[r := refreshes[r].(phase := phase)];
    }

    method OnRefreshPayload(r: nat, payload: Payload)
      requires Enabled(View(), RefreshPayload(r, payload))
      modifies this
      ensures View() == Next(old(View()), RefreshPayload(r, payload))
    {
      if refreshes[r].phase.ok && payload.Null? {
        refreshes := refreshes[r := refreshes[r].(phase := Settled(Broken))];
      } else if !refreshes[r].phase.ok || payload.access.None? {
        NotifyUnauthorized();
        refreshes := refreshes[r := refreshes[r].(phase := Settled(Rejected))];
      } else {
        accessToken := payload.access;
        refreshes := refreshes[r := refreshes[r].(phase := Settled(Renewed(payload.access.value)))];
      }
    }

    method OnFinally(r: nat)
      requires Enabled(View(), Finally(r))
      modifies this
      ensures View() == Next(old(View()), Finally(r))
    {
      refreshPromise := None;
      refreshes := refreshes[r := refreshes[r].(phase := Closed(refreshes[r].phase.outcome))];
    }
  }
}
