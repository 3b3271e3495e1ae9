/** What the token store keeps over every interleaving (`src/auth/token-store.ts`). */
module TokenStoreTheorems {
  import opened Options
  import opened TokenStore

  // ----- The invariant -----------------------------------------------------------------

  /** `refreshing` and `starting` name exactly the work outstanding, so there is at most one of each. */
  ghost predicate SingleFlight(s: State) {
    && (forall id :: id in s.refreshes <==> s.refreshing == Some(id))
    && (forall id :: id in s.flows <==> s.starting == Some(id))
  }

  /** A refresh's result is the token its own reply minted. */
  ghost predicate ResultsMinted(s: State) {
    && (forall id :: id in s.results && s.results[id].Some? ==> Minted(id, s.results[id].value) in s.log)
    && (forall id :: id in s.refreshes && s.refreshes[id].Settled? && s.refreshes[id].result.Some? ==>
          Minted(id, s.refreshes[id].result.value) in s.log)
  }

  /** What the call waits for is outstanding or has settled. */
  ghost predicate Answerable(s: State, c: Call) {
    match c
    case AwaitingOther(r, _) => r in s.refreshes || r in s.results
    case AwaitingRefresh(r, _) => r in s.refreshes || r in s.results
    case AwaitingUrl(f) => f in s.flows || f in s.urls
    case _ => true
  }

  /** No suspended call waits in vain. */
  ghost predicate WaitsAnswered(s: State) {
    && (forall c :: c in s.calls ==> Answerable(s, s.calls[c]))
    && (forall f :: f in s.flows && !s.flows[f].Opening? ==> f in s.urls)
  }

  /** Once changed, the record on disk is the token in memory. */
  ghost predicate DiskCurrent(s: State) { s.changed ==> s.disk == s.token }

  ghost predicate Orderly(s: State) {
    SingleFlight(s) && ResultsMinted(s) && WaitsAnswered(s) && DiskCurrent(s)
  }

  /** `t` has been issued and not been replaced by the server since. */
  ghost predicate Live(s: State, t: string) {
    t in s.issued && Replaced(t) !in s.log
  }

  ghost predicate TokensLive(s: State) {
    && (s.token.Some? && s.token.value.refresh.Some? ==> Live(s, s.token.value.refresh.value))
    && (forall id :: id in s.refreshes && s.refreshes[id].InFlight? ==>
          s.refreshes[id].current.refresh.Some? && Live(s, s.refreshes[id].current.refresh.value))
    && (forall t :: Replaced(t) in s.log ==> t in s.issued)
  }

  /** No refresh token is sent after the reply that replaced it. */
  ghost predicate NeverResent(log: seq<Entry>) {
    forall i, j :: 0 <= i < j < |log| && log[i].Replaced? && log[j].Sent? ==> log[i].refresh != log[j].refresh
  }

  ghost predicate Rotating(s: State) { TokensLive(s) && NeverResent(s.log) }

  ghost predicate Invariant(s: State) { Orderly(s) && Rotating(s) }

  // ----- Steps of calls ----------------------------------------------------------------------

  lemma {:induction false} SetCallKeeps(s: State, call: nat, c: Call)
    requires Invariant(s) && Answerable(s, c)
    ensures Invariant(SetCall(s, call, c))
  {
  }

  lemma {:induction false} SendKeeps(s: State, dropOnFailure: bool)
    requires Orderly(s) && Refreshable(s.token) && s.refreshing.None?
    ensures Orderly(StartRefresh(s, dropOnFailure))
  {
    var after := StartRefresh(s, dropOnFailure);
    assert forall x :: x in s.log ==> x in after.log;
    forall c | c in after.calls ensures Answerable(after, after.calls[c]) {
      assert Answerable(s, s.calls[c]);
    }
  }

  lemma {:induction false} SendRotates(s: State, dropOnFailure: bool)
    requires Rotating(s) && Refreshable(s.token)
    ensures Rotating(StartRefresh(s, dropOnFailure))
  {
    var after := StartRefresh(s, dropOnFailure);
    var t := s.token.value.refresh.value;
    assert forall x :: Replaced(x) in after.log <==> Replaced(x) in s.log;
    forall i | 0 <= i < |s.log| && s.log[i].Replaced? ensures s.log[i].refresh != t {
      assert s.log[i] in s.log;
    }
  }

  lemma {:induction false} ServeKeeps(s: State, call: nat, silently: bool, now: int)
    requires Invariant(s)
    ensures Invariant(TokenOrRefresh(s, call, silently, now))
  {
    hide SingleFlight, ResultsMinted, DiskCurrent, Rotating, NeedsRefresh, Answer, StartRefresh;
    if s.token.Some? && !NeedsRefresh(s.token.value, s.probedUnknownExpiry, now) {
      AnswerKeeps(s, call, Some(s.token.value.access), silently);
    } else if !Refreshable(s.token) {
      AnswerKeeps(s, call, None, silently);
    } else {
      RefreshKeeps(s, call, silently);
    }
  }

  lemma {:induction false} AnswerKeeps(s: State, call: nat, result: Option<string>, silently: bool)
    requires Invariant(s)
    ensures Invariant(SetCall(s, call, Answer(result, silently)))
  {
    hide Invariant;
    SetCallKeeps(s, call, Answer(result, silently));
  }

  lemma {:induction false} RefreshKeeps(s: State, call: nat, silently: bool)
    requires Invariant(s) && Refreshable(s.token)
    ensures var started := if s.refreshing.None? then StartRefresh(s, true) else s;
            started.refreshing.Some? && Invariant(SetCall(started, call, AwaitingRefresh(started.refreshing.value, silently)))
  {
    hide ResultsMinted, DiskCurrent, WaitsAnswered, Rotating;
    var started := if s.refreshing.None? then StartRefresh(s, true) else s;
    if s.refreshing.None? {
      SendKeeps(s, true);
      SendRotates(s, true);
    }
    SetCallKeeps(started, call, AwaitingRefresh(started.refreshing.value, silently));
  }

  lemma {:induction false} AskKeeps(s: State, call: nat, silently: bool, now: int)
    requires Invariant(s)
    ensures Invariant(AskStep(s, call, silently, now))
  {
    hide ResultsMinted, DiskCurrent, WaitsAnswered, Rotating, TokenOrRefresh;
    if call !in s.calls {
      if s.refreshing.Some? {
        SetCallKeeps(s, call, AwaitingOther(s.refreshing.value, silently));
      } else {
        ServeKeeps(s, call, silently, now);
      }
    }
  }

  lemma {:induction false} ResumeKeeps(s: State, call: nat, now: int)
    requires Invariant(s)
    ensures Invariant(ResumeStep(s, call, now))
  {
    hide Invariant, TokenOrRefresh, Answer;
    if call in s.calls {
      match s.calls[call]
      case AwaitingOther(refresh, silently) => ServeKeeps(s, call, silently, now);
      case AwaitingRefresh(refresh, silently) =>
        if refresh in s.results { AnswerKeeps(s, call, s.results[refresh], silently); }
      case AwaitingUrl(flow) =>
        if flow in s.urls {
          SetCallKeeps(s, call, if s.urls[flow].Some? then SignInNeeded(s.urls[flow]) else Broken);
        }
      case _ =>
    }
  }

  lemma {:induction false} StartFlowKeeps(s: State)
    requires Invariant(s) && s.starting.None?
    ensures Invariant(s.(starting := Some(s.next), flows := s.flows[s.next := Opening], next := s.next + 1))
  {
    hide NeverResent;
    var after := s.(starting := Some(s.next), flows := s.flows[s.next := Opening], next := s.next + 1);
    forall c | c in after.calls ensures Answerable(after, after.calls[c]) {
      assert Answerable(s, s.calls[c]);
    }
  }

  lemma {:induction false} PromptKeeps(s: State, call: nat)
    requires Invariant(s)
    ensures Invariant(PromptStep(s, call))
  {
    hide ResultsMinted, DiskCurrent, WaitsAnswered, Rotating;
    if call in s.calls && s.calls[call].WithoutToken? {
      var c := s.calls[call];
      SetCallKeeps(s, call, SignInNeeded(None));
      if !c.silently {
        var started :=
          if s.starting.Some? then s
          else s.(starting := Some(s.next), flows := s.flows[s.next := Opening], next := s.next + 1);
        if s.starting.None? { StartFlowKeeps(s); }
        SetCallKeeps(started, call, if s.authorizeUrl.Some? then SignInNeeded(s.authorizeUrl)
                                    else AwaitingUrl(started.starting.value));
      }
    }
  }

  // ----- Replies --------------------------------------------------------------------------------

  lemma {:induction false} ReplyOrderly(s: State, refresh: nat, grant: Option<Grant>, now: int)
    requires Orderly(s)
    ensures Orderly(RefreshReplyStep(s, refresh, grant, now))
  {
    hide FreshGrant, RefreshedToken, WaitsAnswered, ResultsMinted;
    ReplyKeepsWaits(s, refresh, grant, now);
    ReplyKeepsMints(s, refresh, grant, now);
    assert RefreshReplyStep(s, refresh, grant, now).refreshes.Keys == s.refreshes.Keys;
  }

  lemma {:induction false} ReplyKeepsMints(s: State, refresh: nat, grant: Option<Grant>, now: int)
    requires ResultsMinted(s)
    ensures ResultsMinted(RefreshReplyStep(s, refresh, grant, now))
  {
    hide FreshGrant, RefreshedToken;
    var after := RefreshReplyStep(s, refresh, grant, now);
    assert forall x :: x in s.log ==> x in after.log;
    if |after.log| > |s.log| { assert after.log[|s.log|] in after.log; }
  }

  lemma {:induction false} ReplyKeepsWaits(s: State, refresh: nat, grant: Option<Grant>, now: int)
    requires Orderly(s)
    ensures WaitsAnswered(RefreshReplyStep(s, refresh, grant, now))
  {
    hide FreshGrant, RefreshedToken, SingleFlight, ResultsMinted, DiskCurrent;
    var after := RefreshReplyStep(s, refresh, grant, now);
    assert after.refreshes.Keys == s.refreshes.Keys;
    forall c | c in after.calls ensures Answerable(after, after.calls[c]) {
      assert Answerable(s, s.calls[c]);
    }
  }

  lemma {:induction false} ReplyRotates(s: State, refresh: nat, grant: Option<Grant>, now: int)
    requires SingleFlight(s) && Rotating(s)
    ensures Rotating(RefreshReplyStep(s, refresh, grant, now))
  {
    var after := RefreshReplyStep(s, refresh, grant, now);
    if refresh in s.refreshes && s.refreshes[refresh].InFlight? && FreshGrant(s, grant) && grant.Some? {
      var used := s.refreshes[refresh].current.refresh.value;
      var replaced := if grant.value.refresh.Some? then [Replaced(used)] else [];
      assert after.log == s.log + [Minted(refresh, grant.value.access)] + replaced;
      assert forall x :: Replaced(x) in after.log <==>
        Replaced(x) in s.log || (grant.value.refresh.Some? && x == used);
    }
  }

  lemma {:induction false} ForgottenKeeps(s: State, refresh: nat)
    requires Invariant(s)
    ensures Invariant(RefreshForgottenStep(s, refresh))
  {
    hide NeverResent;
    var after := RefreshForgottenStep(s, refresh);
    forall c | c in after.calls ensures Answerable(after, after.calls[c]) {
      assert Answerable(s, s.calls[c]);
    }
  }

  lemma {:induction false} FlowOpenedKeeps(s: State, flow: nat, url: string)
    requires Invariant(s)
    ensures Invariant(FlowOpenedStep(s, flow, url))
  {
    hide NeverResent;
    var after := FlowOpenedStep(s, flow, url);
    forall c | c in after.calls ensures Answerable(after, after.calls[c]) {
      assert Answerable(s, s.calls[c]);
    }
  }

  lemma {:induction false} FlowNotOpenedKeeps(s: State, flow: nat)
    requires Invariant(s)
    ensures Invariant(FlowNotOpenedStep(s, flow))
  {
    hide NeverResent;
    var after := FlowNotOpenedStep(s, flow);
    forall c | c in after.calls ensures Answerable(after, after.calls[c]) {
      assert Answerable(s, s.calls[c]);
    }
  }

  lemma {:induction false} FlowForgottenKeeps(s: State, flow: nat)
    requires Invariant(s)
    ensures Invariant(FlowForgottenStep(s, flow))
  {
    hide NeverResent;
    var after := FlowForgottenStep(s, flow);
    forall c | c in after.calls ensures Answerable(after, after.calls[c]) {
      assert Answerable(s, s.calls[c]);
    }
  }

  lemma {:induction false} FlowReplyKeeps(s: State, flow: nat, grant: Option<Grant>, requested: string, now: int)
    requires Invariant(s)
    ensures Invariant(FlowReplyStep(s, flow, grant, requested, now))
  {
    hide NeverResent;
    var after := FlowReplyStep(s, flow, grant, requested, now);
    assert after.flows.Keys == s.flows.Keys;
    forall c | c in after.calls ensures Answerable(after, after.calls[c]) {
      assert Answerable(s, s.calls[c]);
    }
  }

  /** Marking the access token expired keeps the refresh token; without one the token goes. */
  lemma {:induction false} InstallKeeps(s: State, t: Option<Token>)
    requires Invariant(s)
    requires t.Some? && t.value.refresh.Some? ==> Live(s, t.value.refresh.value)
    ensures Invariant(Install(s, t))
  {
    hide NeverResent;
    var after := Install(s, t);
    forall c | c in after.calls ensures Answerable(after, after.calls[c]) {
      assert Answerable(s, s.calls[c]);
    }
  }

  lemma {:induction false} InvalidateKeeps(s: State)
    requires Invariant(s)
    ensures Invariant(InvalidateStep(s))
  {
    hide SingleFlight, ResultsMinted, WaitsAnswered, DiskCurrent, NeverResent, Install;
    if Refreshable(s.token) {
      InstallKeeps(s, Some(s.token.value.(expiresAt := Some(0))));
    } else {
      InstallKeeps(s, None);
    }
  }

  lemma {:induction false} StepKeeps(s: State, requested: string, e: Event)
    requires Invariant(s)
    ensures Invariant(Step(s, requested, e))
  {
    hide SingleFlight, ResultsMinted, WaitsAnswered, DiskCurrent, Rotating, StartRefresh, AskStep, ResumeStep, PromptStep,
         InvalidateStep, RefreshReplyStep, RefreshForgottenStep, FlowOpenedStep, FlowNotOpenedStep, FlowReplyStep,
         FlowForgottenStep;
    match e
    case Ask(call, silently, now) => AskKeeps(s, call, silently, now);
    case Resume(call, now) => ResumeKeeps(s, call, now);
    case Prompt(call) => PromptKeeps(s, call);
    case Keepalive =>
      if Refreshable(s.token) && s.refreshing.None? {
        SendKeeps(s, false);
        SendRotates(s, false);
      }
    case Invalidate => InvalidateKeeps(s);
    case RefreshReply(refresh, grant, now) =>
      ReplyOrderly(s, refresh, grant, now);
      ReplyRotates(s, refresh, grant, now);
    case RefreshForgotten(refresh) => ForgottenKeeps(s, refresh);
    case FlowOpened(flow, url) => FlowOpenedKeeps(s, flow, url);
    case FlowNotOpened(flow) => FlowNotOpenedKeeps(s, flow);
    case FlowReply(flow, grant, now) => FlowReplyKeeps(s, flow, grant, requested, now);
    case FlowForgotten(flow) => FlowForgottenKeeps(s, flow);
  }

  // ----- Every run ------------------------------------------------------------------------------------

  lemma {:induction false} AtMostOneOutstanding(s: State)
    requires SingleFlight(s)
    ensures |s.refreshes| <= 1 && |s.flows| <= 1
  {
    var refreshes := if s.refreshing.Some? then {s.refreshing.value} else {};
    var flows := if s.starting.Some? then {s.starting.value} else {};
    assert s.refreshes.Keys == refreshes;
    assert s.flows.Keys == flows;
    assert |refreshes| <= 1 && |flows| <= 1;
  }

  lemma {:induction false} StartInvariant(loaded: Option<Token>, covers: bool)
    ensures Invariant(Start(loaded, covers))
  {
  }

  /**
   Over every interleaving of calls, keepalive ticks, invalidations and replies: at
   most one refresh and one browser flow are outstanding, no refresh token is sent
   after the reply that replaced it, every result is what its own refresh minted, no
   call waits in vain, and from the first change on the disk holds the token in memory.
   */
  lemma {:induction false} RunInvariant(s: State, requested: string, events: seq<Event>)
    requires Invariant(s)
    ensures var after := Run(s, requested, events);
            && Invariant(after) && NeverResent(after.log)
            && |after.refreshes| <= 1 && |after.flows| <= 1
            && (after.changed ==> after.disk == after.token)
    decreases |events|
  {
    if events == [] {
      AtMostOneOutstanding(s);
    } else {
      hide Invariant, Step;
      StepKeeps(s, requested, events[0]);
      RunInvariant(Step(s, requested, events[0]), requested, events[1..]);
    }
  }

  // ----- What calls are handed ---------------------------------------------------------------

  /** Outside the skew window, or of unknown expiry and trusted. */
  predicate Good(t: Token, probed: bool, now: int) {
    if t.expiresAt.Some? then now < t.expiresAt.value - EXPIRY_SKEW_MS
    else t.refresh.None? || probed
  }

  predicate ServedWith(s: State, call: nat, access: string) {
    call in s.calls && s.calls[call] == Served(access)
  }

  lemma {:induction false} ServedFromStore(s: State, call: nat, silently: bool, now: int, access: string)
    requires ServedWith(TokenOrRefresh(s, call, silently, now), call, access)
    ensures s.token.Some? && s.token.value.access == access && Good(s.token.value, s.probedUnknownExpiry, now)
  {
  }

  /**
   A call is served either the stored token while it is good, or what the one
   refresh it waited for minted; and no step but its own serves it.
   */
  lemma {:induction false} ServedTokenIsGood(s: State, requested: string, e: Event, call: nat, access: string)
    requires Invariant(s)
    requires ServedWith(Step(s, requested, e), call, access) && !ServedWith(s, call, access)
    ensures (e.Ask? || e.Resume?) && e.call == call
    ensures || (s.token.Some? && s.token.value.access == access && Good(s.token.value, s.probedUnknownExpiry, e.now))
            || (call in s.calls && s.calls[call].AwaitingRefresh? && Minted(s.calls[call].refresh, access) in s.log)
  {
    hide SingleFlight, WaitsAnswered, DiskCurrent, Rotating, Good, Live;
    OnlyOwnStep(s, requested, e, call);
    match e
    case Ask(_, silently, now) =>
      if s.refreshing.None? { ServedFromStore(s, call, silently, now, access); }
    case Resume(_, now) =>
      match s.calls[call]
      case AwaitingOther(_, silently) => ServedFromStore(s, call, silently, now, access);
      case _ =>
  }

  predicate SameCall(a: State, b: State, call: nat) {
    (call in a.calls <==> call in b.calls) && (call in a.calls ==> a.calls[call] == b.calls[call])
  }

  lemma {:induction false} RepliesTouchNoCall(s: State, id: nat, grant: Option<Grant>, requested: string, now: int)
    ensures RefreshReplyStep(s, id, grant, now).calls == s.calls
    ensures FlowReplyStep(s, id, grant, requested, now).calls == s.calls
  {
    hide RefreshedToken, FreshGrant, ExpiryFrom;
  }

  lemma {:induction false} ServeTouches(s: State, call: nat, silently: bool, now: int, other: nat)
    requires other != call
    ensures SameCall(s, TokenOrRefresh(s, call, silently, now), other)
  {
    hide NeedsRefresh, Answer, StartRefresh;
  }

  lemma {:induction false} PromptTouches(s: State, call: nat, other: nat)
    ensures var after := PromptStep(s, call);
            || SameCall(s, after, other)
            || (other == call && call in after.calls && (after.calls[call].SignInNeeded? || after.calls[call].AwaitingUrl?))
  {
    hide SetCall;
    forall t: State, c ensures SetCall(t, call, c).calls == t.calls[call := c] { SetCallCalls(t, call, c); }
  }

  lemma {:induction false} SetCallCalls(s: State, call: nat, c: Call)
    ensures SetCall(s, call, c).calls == s.calls[call := c]
  {
  }

  lemma {:induction false} OnlyOwnStep(s: State, requested: string, e: Event, call: nat)
    ensures ((e.Ask? || e.Resume?) && e.call == call)
         || SameCall(s, Step(s, requested, e), call)
         || (e.Prompt? && e.call == call && call in Step(s, requested, e).calls
             && (Step(s, requested, e).calls[call].SignInNeeded? || Step(s, requested, e).calls[call].AwaitingUrl?))
  {
    hide InvalidateStep, RefreshReplyStep, RefreshForgottenStep, FlowOpenedStep, FlowNotOpenedStep, FlowReplyStep,
         FlowForgottenStep, NeedsRefresh, StartRefresh, Answer, TokenOrRefresh, PromptStep;
    match e
    case Ask(c, silently, now) => if c != call { ServeTouches(s, c, silently, now, call); }
    case Resume(c, now) =>
      if c != call {
        ServeTouches(s, c, true, now, call);
        ServeTouches(s, c, false, now, call);
      }
    case Prompt(c) => PromptTouches(s, c, call);
    case RefreshReply(id, grant, now) => RepliesTouchNoCall(s, id, grant, requested, now);
    case FlowReply(id, grant, now) => RepliesTouchNoCall(s, id, grant, requested, now);
    case _ =>
  }

  // ----- After an invalidation ----------------------------------------------------------------------

  /** There is no token, or one marked as expired. */
  predicate Unusable(s: State) { s.token.Some? ==> s.token.value.expiresAt == Some(0) }

  /** No reply brings a new token, and the clock is past the epoch. */
  predicate BringsNoToken(e: Event) {
    match e
    case RefreshReply(_, grant, _) => grant.None?
    case FlowReply(_, grant, _) => grant.None?
    case Ask(_, _, now) => now >= 0
    case Resume(_, now) => now >= 0
    case _ => true
  }

  lemma {:induction false} StaysUnusable(s: State, requested: string, events: seq<Event>)
    requires Unusable(s) && forall e :: e in events ==> BringsNoToken(e)
    ensures Unusable(Run(s, requested, events))
    decreases |events|
  {
    if events != [] {
      StepStaysUnusable(s, requested, events[0]);
      hide Step, Unusable;
      StaysUnusable(Step(s, requested, events[0]), requested, events[1..]);
    }
  }

  lemma {:induction false} StepStaysUnusable(s: State, requested: string, e: Event)
    requires Unusable(s) && BringsNoToken(e)
    ensures Unusable(Step(s, requested, e))
  {
    match e
    case Ask(call, silently, now) => AskKeepsToken(s, call, silently, now);
    case Resume(call, now) => ResumeKeepsToken(s, call, now);
    case _ =>
      hide TokenOrRefresh;
  }

  lemma {:induction false} AskKeepsToken(s: State, call: nat, silently: bool, now: int)
    ensures AskStep(s, call, silently, now).token == TokenOrRefresh(s, call, silently, now).token == s.token
  {
    hide Answer, NeedsRefresh, Refreshable, SetCall;
    forall t: State, c ensures SetCall(t, call, c).token == t.token { SetCallKeepsToken(t, call, c); }
  }

  lemma {:induction false} SetCallKeepsToken(s: State, call: nat, c: Call)
    ensures SetCall(s, call, c).token == s.token
  {
  }

  lemma {:induction false} ResumeKeepsToken(s: State, call: nat, now: int)
    ensures ResumeStep(s, call, now).token == s.token
  {
    if call in s.calls && s.calls[call].AwaitingOther? { AskKeepsToken(s, call, s.calls[call].silently, now); }
    hide TokenOrRefresh, Answer;
  }

  lemma {:induction false} InvalidationMarks(s: State, requested: string)
    ensures Unusable(Step(s, requested, Invalidate))
  {
    hide AskStep, ResumeStep, PromptStep, RefreshReplyStep, FlowReplyStep;
  }

  lemma {:induction false} UnusableIsNotGood(s: State, now: int)
    requires Unusable(s) && now >= 0
    ensures s.token.Some? ==> !Good(s.token.value, s.probedUnknownExpiry, now)
  {
  }

  /**
   An access token the server rejected is not served again: from an invalidation until
   a reply brings a new token, whatever else happens, no call is given the stored one,
   only what a refresh it already waited for had minted.
   */
  lemma {:induction false} InvalidatedIsNotServed(
    s: State, requested: string, events: seq<Event>, e: Event, call: nat, access: string)
    requires Invariant(s) && BringsNoToken(e) && forall x :: x in events ==> BringsNoToken(x)
    requires var after := Run(Step(s, requested, Invalidate), requested, events);
             ServedWith(Step(after, requested, e), call, access) && !ServedWith(after, call, access)
    ensures var after := Run(Step(s, requested, Invalidate), requested, events);
            call in after.calls && after.calls[call].AwaitingRefresh? && Minted(after.calls[call].refresh, access) in after.log
  {
    hide Invariant, Step, Unusable, Good, Run;
    StepKeeps(s, requested, Invalidate);
    InvalidationMarks(s, requested);
    var start := Step(s, requested, Invalidate);
    RunInvariant(start, requested, events);
    StaysUnusable(start, requested, events);
    ServedTokenIsGood(Run(start, requested, events), requested, e, call, access);
    UnusableIsNotGood(Run(start, requested, events), e.now);
  }
}
