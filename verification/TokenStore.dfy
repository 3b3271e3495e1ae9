/**
 The OAuth token store (`src/auth/token-store.ts`) as a step system: its
 variables, the refreshes and browser flows in flight, and the calls suspended
 at an `await`. A step runs from one suspension to the next; steps of all calls,
 timers and replies interleave in any order.
 */
module TokenStore {
  import opened Options

  const EXPIRY_SKEW_MS := 60_000

  datatype Token = Token(access: string, refresh: Option<string>, expiresAt: Option<int>, scope: Option<string>)

  /** A token endpoint's reply. */
  datatype Grant = Grant(access: string, refresh: Option<string>, expiresIn: Option<nat>, scope: Option<string>)

  /** A refresh between the request it sent and the `finally` that forgets it. */
  datatype Refresh = InFlight(current: Token, dropOnFailure: bool) | Settled(result: Option<string>)

  /** A browser flow: opening its callback server, waiting for the user, or about to be forgotten. */
  datatype Flow = Opening | Listening | Ending

  /** Where a call of `getToken` or `getTokenSilently` stands. */
  datatype Call =
    | AwaitingOther(refresh: nat, silently: bool)
    | AwaitingRefresh(refresh: nat, silently: bool)
    | WithoutToken(silently: bool)
    | AwaitingUrl(flow: nat)
    | Served(access: string)
    | SignInNeeded(url: Option<string>)
    | Broken

  /** What happened, oldest first: refresh tokens sent, replaced by the server, and access tokens minted. */
  datatype Entry = Sent(refresh: string) | Replaced(refresh: string) | Minted(refreshId: nat, access: string)

  datatype State = State(
    token: Option<Token>,
    refreshing: Option<nat>,
    starting: Option<nat>,
    authorizeUrl: Option<string>,
    probedUnknownExpiry: bool,
    disk: Option<Token>,
    changed: bool,
    refreshes: map<nat, Refresh>,
    results: map<nat, Option<string>>,
    flows: map<nat, Flow>,
    urls: map<nat, Option<string>>,
    calls: map<nat, Call>,
    next: nat,
    issued: set<string>,
    log: seq<Entry>)

  datatype Event =
    | Ask(call: nat, silently: bool, now: int)
    | Resume(call: nat, now: int)
    | Prompt(call: nat)
    | Keepalive
    | Invalidate
    | RefreshReply(refresh: nat, grant: Option<Grant>, now: int)
    | RefreshForgotten(refresh: nat)
    | FlowOpened(flow: nat, url: string)
    | FlowNotOpened(flow: nat)
    | FlowReply(flow: nat, grant: Option<Grant>, now: int)
    | FlowForgotten(flow: nat)

  // ----- The store's own functions ------------------------------------------------

  /** An optional string that JavaScript takes for true. */
  predicate Truthy(s: Option<string>) { s.Some? && s.value != "" }

  predicate NeedsRefresh(t: Token, probed: bool, now: int) {
    if t.expiresAt.Some? then now >= t.expiresAt.value - EXPIRY_SKEW_MS
    else t.refresh.Some? && !probed
  }

  predicate Refreshable(token: Option<Token>) { token.Some? && Truthy(token.value.refresh) }

  function ExpiryFrom(expiresIn: Option<nat>, now: int): Option<int> {
    if expiresIn.Some? then Some(now + expiresIn.value * 1000) else None
  }

  function OrElse(a: Option<string>, b: Option<string>): Option<string> {
    if a.Some? then a else b
  }

  function Install(s: State, t: Option<Token>): State {
    s.(token := t, disk := t, changed := true)
  }

  /** Sends a refresh request with the token in hand. */
  function StartRefresh(s: State, dropOnFailure: bool): (after: State)
    requires Refreshable(s.token)
    ensures after.calls == s.calls
  {
    s.(refreshing := Some(s.next),
       refreshes := s.refreshes[s.next := InFlight(s.token.value, dropOnFailure)],
       next := s.next + 1,
       log := s.log + [Sent(s.token.value.refresh.value)])
  }

  function SetCall(s: State, call: nat, c: Call): State {
    s.(calls := s.calls[call := c])
  }

  /** The answer of `tokenWithoutPrompt` reaching its caller. */
  function Answer(result: Option<string>, silently: bool): Call {
    if Truthy(result) then Served(result.value) else WithoutToken(silently)
  }

  /** The token in hand if it is good, else the one refresh in flight, started if need be. */
  function TokenOrRefresh(s: State, call: nat, silently: bool, now: int): State {
    if s.token.Some? && !NeedsRefresh(s.token.value, s.probedUnknownExpiry, now) then
      SetCall(s, call, Answer(Some(s.token.value.access), silently))
    else if !Refreshable(s.token) then SetCall(s, call, Answer(None, silently))
    else
      var started := if s.refreshing.None? then StartRefresh(s, true) else s;
      SetCall(started, call, AwaitingRefresh(started.refreshing.value, silently))
  }

  function AskStep(s: State, call: nat, silently: bool, now: int): State {
    if call in s.calls then s
    else if s.refreshing.Some? then SetCall(s, call, AwaitingOther(s.refreshing.value, silently))
    else TokenOrRefresh(s, call, silently, now)
  }

  function ResumeStep(s: State, call: nat, now: int): State {
    if call !in s.calls then s
    else
      match s.calls[call]
      case AwaitingOther(refresh, silently) =>
        if refresh in s.results then TokenOrRefresh(s, call, silently, now) else s
      case AwaitingRefresh(refresh, silently) =>
        if refresh in s.results then SetCall(s, call, Answer(s.results[refresh], silently)) else s
      case AwaitingUrl(flow) =>
        if flow !in s.urls then s
        else SetCall(s, call, if s.urls[flow].Some? then SignInNeeded(s.urls[flow]) else Broken)
      case _ => s
  }

  /** No token without a prompt: fail silently, or show the pending flow's URL, starting one if there is none. */
  function PromptStep(s: State, call: nat): State {
    if call !in s.calls || !s.calls[call].WithoutToken? then s
    else if s.calls[call].silently then SetCall(s, call, SignInNeeded(None))
    else
      var started :=
        if s.starting.Some? then s
        else s.(starting := Some(s.next), flows := s.flows[s.next := Opening], next := s.next + 1);
      if s.authorizeUrl.Some? then SetCall(started, call, SignInNeeded(s.authorizeUrl))
      else SetCall(started, call, AwaitingUrl(started.starting.value))
  }

  function InvalidateStep(s: State): (after: State)
    ensures after.calls == s.calls
  {
    if Refreshable(s.token) then Install(s, Some(s.token.value.(expiresAt := Some(0)))) else Install(s, None)
  }

  /** A reply names refresh tokens never issued before; others cannot occur. */
  predicate FreshGrant(s: State, grant: Option<Grant>) {
    grant.Some? && grant.value.refresh.Some? ==> grant.value.refresh.value !in s.issued
  }

  function Issue(s: State, grant: Grant): State {
    s.(issued := s.issued + (if grant.refresh.Some? then {grant.refresh.value} else {}))
  }

  function RefreshedToken(current: Token, grant: Grant, now: int): Token {
    Token(grant.access, OrElse(grant.refresh, current.refresh), ExpiryFrom(grant.expiresIn, now),
          if Truthy(grant.scope) then grant.scope else current.scope)
  }

  function RefreshReplyStep(s: State, refresh: nat, grant: Option<Grant>, now: int): State {
    if refresh !in s.refreshes || !s.refreshes[refresh].InFlight? || !FreshGrant(s, grant) then s
    else
      var InFlight(current, dropOnFailure) := s.refreshes[refresh];
      if grant.Some? then
        var minted := RefreshedToken(current, grant.value, now);
        var installed := Install(Issue(s, grant.value), Some(minted));
        installed.(
          probedUnknownExpiry := true,
          refreshes := s.refreshes[refresh := Settled(Some(minted.access))],
          log := s.log + [Minted(refresh, minted.access)]
                 + (if grant.value.refresh.Some? && current.refresh.Some? then [Replaced(current.refresh.value)] else []))
      else
        var dropped := if dropOnFailure then Install(s, None) else s;
        dropped.(refreshes := s.refreshes[refresh := Settled(None)])
  }

  function RefreshForgottenStep(s: State, refresh: nat): (after: State)
    ensures after.calls == s.calls
  {
    if refresh !in s.refreshes || !s.refreshes[refresh].Settled? then s
    else s.(refreshing := None, refreshes := s.refreshes - {refresh},
            results := s.results[refresh := s.refreshes[refresh].result])
  }

  function FlowOpenedStep(s: State, flow: nat, url: string): (after: State)
    ensures after.calls == s.calls
  {
    if flow !in s.flows || !s.flows[flow].Opening? then s
    else s.(authorizeUrl := Some(url), flows := s.flows[flow := Listening], urls := s.urls[flow := Some(url)])
  }

  function FlowNotOpenedStep(s: State, flow: nat): (after: State)
    ensures after.calls == s.calls
  {
    if flow !in s.flows || !s.flows[flow].Opening? then s
    else s.(starting := None, flows := s.flows - {flow}, urls := s.urls[flow := None])
  }

  function FlowReplyStep(s: State, flow: nat, grant: Option<Grant>, requested: string, now: int): State {
    if flow !in s.flows || !s.flows[flow].Listening? || !FreshGrant(s, grant) then s
    else
      var ending := s.(flows := s.flows[flow := Ending]);
      if grant.None? then ending
      else
        var g := grant.value;
        var minted := Token(g.access, g.refresh, ExpiryFrom(g.expiresIn, now),
                            if Truthy(g.scope) then g.scope else Some(requested));
        Install(Issue(ending, g), Some(minted)).(probedUnknownExpiry := true)
  }

  function FlowForgottenStep(s: State, flow: nat): (after: State)
    ensures after.calls == s.calls
  {
    if flow !in s.flows || !s.flows[flow].Ending? then s
    else s.(starting := None, authorizeUrl := None, flows := s.flows - {flow})
  }

  /** One step of the system; an event that is not due changes nothing. */
  function Step(s: State, requested: string, e: Event): State {
    match e
    case Ask(call, silently, now) => AskStep(s, call, silently, now)
    case Resume(call, now) => ResumeStep(s, call, now)
    case Prompt(call) => PromptStep(s, call)
    case Keepalive => if Refreshable(s.token) && s.refreshing.None? then StartRefresh(s, false) else s
    case Invalidate => InvalidateStep(s)
    case RefreshReply(refresh, grant, now) => RefreshReplyStep(s, refresh, grant, now)
    case RefreshForgotten(refresh) => RefreshForgottenStep(s, refresh)
    case FlowOpened(flow, url) => FlowOpenedStep(s, flow, url)
    case FlowNotOpened(flow) => FlowNotOpenedStep(s, flow)
    case FlowReply(flow, grant, now) => FlowReplyStep(s, flow, grant, requested, now)
    case FlowForgotten(flow) => FlowForgottenStep(s, flow)
  }

  function Run(s: State, requested: string, events: seq<Event>): State
    decreases |events|
  {
    if events == [] then s else Run(Step(s, requested, events[0]), requested, events[1..])
  }

  /** The state at startup: the token read from disk, unless its grant is too narrow to use. */
  function Start(loaded: Option<Token>, covers: bool): State {
    State(if covers then loaded else None, None, None, None, false, loaded, false, map[], map[], map[], map[], map[], 0,
          if loaded.Some? && loaded.value.refresh.Some? then {loaded.value.refresh.value} else {}, [])
  }

  // ----- The store object ------------------------------------------------------------

  /** What the runtime holds for the store: pending work, suspended calls, and the history of requests. */
  datatype Runtime = Runtime(
    refreshes: map<nat, Refresh>,
    results: map<nat, Option<string>>,
    flows: map<nat, Flow>,
    urls: map<nat, Option<string>>,
    calls: map<nat, Call>,
    next: nat,
    issued: set<string>,
    log: seq<Entry>)

  class Store {
    const requested: string
    var token: Option<Token>
    var refreshing: Option<nat>
    var starting: Option<nat>
    var authorizeUrl: Option<string>
    var probedUnknownExpiry: bool
    var disk: Option<Token>
    ghost var changed: bool
    var runtime: Runtime

    ghost function Now(): State
      reads this
    {
      State(token, refreshing, starting, authorizeUrl, probedUnknownExpiry, disk, changed,
            runtime.refreshes, runtime.results, runtime.flows, runtime.urls, runtime.calls, runtime.next,
            runtime.issued, runtime.log)
    }

    constructor (requested: string, loaded: Option<Token>, covers: bool)
      ensures Now() == Start(loaded, covers)
      ensures this.requested == requested
    {
      this.requested := requested;
      token := if covers then loaded else None;
      refreshing, starting, authorizeUrl, probedUnknownExpiry := None, None, None, false;
      disk, changed := loaded, false;
      runtime := Runtime(map[], map[], map[], map[], map[], 0,
        if loaded.Some? && loaded.value.refresh.Some? then {loaded.value.refresh.value} else {}, []);
    }

    method Settle(call: nat, c: Call)
      modifies `runtime
      ensures runtime == old(runtime).(calls := old(runtime).calls[call := c])
    {
      runtime := runtime.(calls := runtime.calls[call := c]);
    }

    method Send(dropOnFailure: bool)
      requires Refreshable(token)
      modifies `refreshing, `runtime
      ensures Now() == StartRefresh(old(Now()), dropOnFailure)
    {
      var id := runtime.next;
      refreshing := Some(id);
      runtime := runtime.(refreshes := runtime.refreshes[id := InFlight(token.value, dropOnFailure)], next := id + 1,
                          log := runtime.log + [Sent(token.value.refresh.value)]);
    }

    /** The part of `tokenWithoutPrompt` after its wait, up to the next suspension. */
    method ServeOrRefresh(call: nat, silently: bool, now: int)
      modifies `refreshing, `runtime
      ensures Now() == TokenOrRefresh(old(Now()), call, silently, now)
    {
      if token.Some? && !NeedsRefresh(token.value, probedUnknownExpiry, now) {
        Settle(call, Answer(Some(token.value.access), silently));
        return;
      }
      if !Refreshable(token) {
        Settle(call, Answer(None, silently));
        return;
      }
      if refreshing.None? { Send(true); }
      Settle(call, AwaitingRefresh(refreshing.value, silently));
    }

    method GetToken(call: nat, silently: bool, now: int)
      requires call !in runtime.calls
      modifies `refreshing, `runtime
      ensures Now() == Step(old(Now()), requested, Ask(call, silently, now))
    {
      if refreshing.Some? {
        Settle(call, AwaitingOther(refreshing.value, silently));
      } else {
        ServeOrRefresh(call, silently, now);
      }
    }

    /** A suspended call goes on once what it awaits has settled. */
    method Continue(call: nat, now: int)
      requires call in runtime.calls
      modifies `refreshing, `runtime
      ensures Now() == Step(old(Now()), requested, Resume(call, now))
    {
      match runtime.calls[call]
      case AwaitingOther(refresh, silently) =>
        if refresh in runtime.results { ServeOrRefresh(call, silently, now); }
      case AwaitingRefresh(refresh, silently) =>
        if refresh in runtime.results { Settle(call, Answer(runtime.results[refresh], silently)); }
      case AwaitingUrl(flow) =>
        if flow in runtime.urls {
          Settle(call, if runtime.urls[flow].Some? then SignInNeeded(runtime.urls[flow]) else Broken);
        }
      case _ =>
    }

    /** The part of `getToken` after `tokenWithoutPrompt` came back empty. */
    method StartSignIn(call: nat)
      requires call in runtime.calls && runtime.calls[call].WithoutToken?
      modifies `starting, `runtime
      ensures Now() == Step(old(Now()), requested, Prompt(call))
    {
      if runtime.calls[call].silently {
        Settle(call, SignInNeeded(None));
        return;
      }
      if starting.None? {
        starting := Some(runtime.next);
        runtime := runtime.(flows := runtime.flows[runtime.next := Opening], next := runtime.next + 1);
      }
      if authorizeUrl.Some? {
        Settle(call, SignInNeeded(authorizeUrl));
      } else {
        Settle(call, AwaitingUrl(starting.value));
      }
    }

    method ScheduledRefresh()
      modifies `refreshing, `runtime
      ensures Now() == Step(old(Now()), requested, Keepalive)
    {
      if Refreshable(token) && refreshing.None? { Send(false); }
    }

    /** Installs a token, or none, in memory and on disk. */
    method Persist(t: Option<Token>)
      modifies `token, `disk, `changed
      ensures Now() == Install(old(Now()), t)
    {
      token := t;
      disk, changed := t, true;
    }

    method InvalidateToken()
      modifies `token, `disk, `changed
      ensures Now() == Step(old(Now()), requested, Invalidate)
    {
      Persist(if Refreshable(token) then Some(token.value.(expiresAt := Some(0))) else None);
    }

    method RefreshSucceeded(refresh: nat, g: Grant, now: int)
      requires refresh in runtime.refreshes && runtime.refreshes[refresh].InFlight?
      requires FreshGrant(Now(), Some(g))
      modifies `token, `disk, `changed, `probedUnknownExpiry, `runtime
      ensures Now() == RefreshReplyStep(old(Now()), refresh, Some(g), now)
    {
      hide RefreshedToken, FreshGrant;
      var current := runtime.refreshes[refresh].current;
      var minted := RefreshedToken(current, g, now);
      Persist(Some(minted));
      probedUnknownExpiry := true;
      var rotated := if g.refresh.Some? && current.refresh.Some? then [Replaced(current.refresh.value)] else [];
      runtime := runtime.(
        refreshes := runtime.refreshes[refresh := Settled(Some(minted.access))],
        issued := runtime.issued + (if g.refresh.Some? then {g.refresh.value} else {}),
        log := runtime.log + [Minted(refresh, minted.access)] + rotated);
    }

    method RefreshFailed(refresh: nat, now: int)
      requires refresh in runtime.refreshes && runtime.refreshes[refresh].InFlight?
      modifies `token, `disk, `changed, `runtime
      ensures Now() == RefreshReplyStep(old(Now()), refresh, None, now)
    {
      if runtime.refreshes[refresh].dropOnFailure { Persist(None); }
      runtime := runtime.(refreshes := runtime.refreshes[refresh := Settled(None)]);
    }

    method RefreshAnswered(refresh: nat, grant: Option<Grant>, now: int)
      requires refresh in runtime.refreshes && runtime.refreshes[refresh].InFlight?
      requires FreshGrant(Now(), grant)
      modifies `token, `disk, `changed, `probedUnknownExpiry, `runtime
      ensures Now() == Step(old(Now()), requested, RefreshReply(refresh, grant, now))
    {
      hide RefreshReplyStep;
      match grant
      case Some(g) => RefreshSucceeded(refresh, g, now);
      case None => RefreshFailed(refresh, now);
    }

    method RefreshFinally(refresh: nat)
      requires refresh in runtime.refreshes && runtime.refreshes[refresh].Settled?
      modifies `refreshing, `runtime
      ensures Now() == Step(old(Now()), requested, RefreshForgotten(refresh))
    {
      refreshing := None;
      runtime := runtime.(refreshes := runtime.refreshes - {refresh},
                          results := runtime.results[refresh := runtime.refreshes[refresh].result]);
    }

    method BrowserOpened(flow: nat, url: Option<string>)
      requires flow in runtime.flows && runtime.flows[flow].Opening?
      modifies `authorizeUrl, `starting, `runtime
      ensures Now() == Step(old(Now()), requested, if url.Some? then FlowOpened(flow, url.value) else FlowNotOpened(flow))
    {
      if url.Some? {
        authorizeUrl := url;
        runtime := runtime.(flows := runtime.flows[flow := Listening]);
      } else {
        starting := None;
        runtime := runtime.(flows := runtime.flows - {flow});
      }
      runtime := runtime.(urls := runtime.urls[flow := url]);
    }

    method BrowserAnswered(flow: nat, grant: Option<Grant>, now: int)
      requires flow in runtime.flows && runtime.flows[flow].Listening?
      requires FreshGrant(Now(), grant)
      modifies `token, `disk, `changed, `probedUnknownExpiry, `runtime
      ensures Now() == Step(old(Now()), requested, FlowReply(flow, grant, now))
    {
      hide FreshGrant, ExpiryFrom, Truthy;
      runtime := runtime.(flows := runtime.flows[flow := Ending]);
      match grant
      case Some(g) =>
        var scope := if Truthy(g.scope) then g.scope else Some(requested);
        Persist(Some(Token(g.access, g.refresh, ExpiryFrom(g.expiresIn, now), scope)));
        probedUnknownExpiry := true;
        runtime := runtime.(issued := runtime.issued + (if g.refresh.Some? then {g.refresh.value} else {}));
      case None =>
    }

    method BrowserFinally(flow: nat)
      requires flow in runtime.flows && runtime.flows[flow].Ending?
      modifies `starting, `authorizeUrl, `runtime
      ensures Now() == Step(old(Now()), requested, FlowForgotten(flow))
    {
      starting, authorizeUrl := None, None;
      runtime := runtime.(flows := runtime.flows - {flow});
    }
  }
}
