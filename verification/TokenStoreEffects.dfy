/**
 What the token store does and does not do to its token (`src/auth/token-store.ts`):
 which events take it away or replace it, which start a refresh or a browser flow, and
 what a call waits for.
 */
module TokenStoreEffects {
  import opened Options
  import opened TokenStore
  import opened TokenStoreTheorems

  // ----- What a call's step touches ---------------------------------------------------------

  /** The same but for the calls. */
  ghost predicate SameButCalls(a: State, b: State) {
    && a.token == b.token && a.disk == b.disk && a.probedUnknownExpiry == b.probedUnknownExpiry && a.changed == b.changed
    && a.refreshing == b.refreshing && a.refreshes == b.refreshes && a.results == b.results
    && a.starting == b.starting && a.flows == b.flows && a.urls == b.urls && a.authorizeUrl == b.authorizeUrl
    && a.next == b.next && a.log == b.log && a.issued == b.issued
  }

  lemma {:induction false} SettingCalls(call: nat)
    ensures forall s: State, c :: SameButCalls(SetCall(s, call, c), s) && SetCall(s, call, c).calls == s.calls[call := c]
  {
    forall s: State, c ensures SameButCalls(SetCall(s, call, c), s) && SetCall(s, call, c).calls == s.calls[call := c] {
      SettingOne(s, call, c);
    }
  }

  lemma {:induction false} SettingOne(s: State, call: nat, c: Call)
    ensures SameButCalls(SetCall(s, call, c), s) && SetCall(s, call, c).calls == s.calls[call := c]
  {
  }

  lemma {:induction false} SameIsSame(s: State)
    ensures SameButCalls(s, s)
  {
  }

  lemma {:induction false} Starting(s: State, drop: bool)
    requires Refreshable(s.token)
    ensures var after := StartRefresh(s, drop);
            && after.token == s.token && after.disk == s.disk && after.probedUnknownExpiry == s.probedUnknownExpiry
            && after.refreshing == Some(s.next) && after.next == s.next + 1
            && after.refreshes == s.refreshes[s.next := InFlight(s.token.value, drop)]
            && after.results == s.results && after.flows == s.flows && after.starting == s.starting
            && after.log == s.log + [Sent(s.token.value.refresh.value)]
  {
  }

  lemma {:induction false} ServeMayStart(s: State, call: nat, silently: bool, now: int)
    ensures var after := TokenOrRefresh(s, call, silently, now);
            || SameButCalls(after, s)
            || (Refreshable(s.token) && s.refreshing.None? && SameButCalls(after, StartRefresh(s, true)))
  {
    hide SetCall, StartRefresh, Answer, NeedsRefresh, Refreshable, SameButCalls;
    SettingCalls(call);
    if Refreshable(s.token) && s.refreshing.None? {
      Starting(s, true);
      var started := StartRefresh(s, true);
      SettingOne(started, call, AwaitingRefresh(started.refreshing.value, silently));
    }
  }

  /** A call's step changes nothing but calls, except that it may start the one refresh. */
  lemma {:induction false} CallMayStart(s: State, requested: string, e: Event)
    requires e.Ask? || e.Resume?
    ensures var after := Step(s, requested, e);
            || SameButCalls(after, s)
            || (Refreshable(s.token) && s.refreshing.None? && SameButCalls(after, StartRefresh(s, true)))
  {
    hide SetCall, StartRefresh, TokenOrRefresh, Answer;
    SettingCalls(e.call);
    ServeMayStart(s, e.call, true, e.now);
    ServeMayStart(s, e.call, false, e.now);
  }

  lemma {:induction false} PromptMayOpen(s: State, call: nat)
    ensures var after := PromptStep(s, call);
            || SameButCalls(after, s)
            || (s.starting.None? && call in s.calls && s.calls[call] == WithoutToken(false)
                && SameButCalls(after, s.(starting := Some(s.next), flows := s.flows[s.next := Opening], next := s.next + 1)))
  {
    hide SetCall, SameButCalls;
    SettingCalls(call);
    SameIsSame(s);
  }

  lemma {:induction false} CallsKeepToken(s: State, requested: string, e: Event)
    requires e.Ask? || e.Resume? || e.Prompt? || e.Keepalive?
    ensures Step(s, requested, e).token == s.token && Step(s, requested, e).disk == s.disk
    ensures Step(s, requested, e).probedUnknownExpiry == s.probedUnknownExpiry
  {
    hide AskStep, ResumeStep, PromptStep, StartRefresh;
    if Refreshable(s.token) {
      Starting(s, true);
      Starting(s, false);
    }
    if e.Ask? || e.Resume? { CallMayStart(s, requested, e); }
    if e.Prompt? { PromptMayOpen(s, e.call); }
  }

  // ----- How a refresh began -----------------------------------------------------------------

  /** Along the run, the event that began this refresh is a tick of the keepalive. */
  ghost predicate BegunByKeepalive(s: State, requested: string, events: seq<Event>, refresh: nat)
    decreases |events|
  {
    events != [] &&
    if refresh !in s.refreshes && refresh in Step(s, requested, events[0]).refreshes then events[0].Keepalive?
    else BegunByKeepalive(Step(s, requested, events[0]), requested, events[1..], refresh)
  }

  /** Ids not given out yet are not in use. */
  ghost predicate FreshIds(s: State) { forall id :: id in s.refreshes ==> id < s.next }

  /** A step begins at most the refresh of the next id, marked by whether the keepalive began it; others stay as they are until answered. */
  ghost predicate Begins(s: State, after: State, refresh: nat, byKeepalive: bool) {
    && FreshIds(after) && after.next >= s.next
    && (refresh in after.refreshes && refresh !in s.refreshes ==>
          refresh >= s.next && after.refreshes[refresh].InFlight?
          && (after.refreshes[refresh].dropOnFailure <==> !byKeepalive))
    && (refresh in after.refreshes && refresh in s.refreshes && after.refreshes[refresh].InFlight? ==>
          s.refreshes[refresh] == after.refreshes[refresh])
  }

  lemma {:induction false} ReplyBegins(s: State, requested: string, id: nat, grant: Option<Grant>, now: int, refresh: nat)
    requires FreshIds(s)
    ensures Begins(s, RefreshReplyStep(s, id, grant, now), refresh, false)
    ensures Begins(s, FlowReplyStep(s, id, grant, requested, now), refresh, false)
  {
    hide FreshGrant, RefreshedToken, ExpiryFrom;
  }

  lemma {:induction false} StartBegins(s: State, drop: bool, refresh: nat)
    requires FreshIds(s) && Refreshable(s.token)
    ensures Begins(s, StartRefresh(s, drop), refresh, !drop)
  {
  }

  lemma {:induction false} StepBegins(s: State, requested: string, e: Event, refresh: nat)
    requires FreshIds(s)
    ensures Begins(s, Step(s, requested, e), refresh, e.Keepalive?)
  {
    hide AskStep, ResumeStep, PromptStep, StartRefresh, RefreshReplyStep, FlowReplyStep;
    if Refreshable(s.token) {
      StartBegins(s, true, refresh);
      StartBegins(s, false, refresh);
    }
    if e.Ask? || e.Resume? {
      CallMayStart(s, requested, e);
    } else if e.Prompt? {
      PromptMayOpen(s, e.call);
    } else if e.RefreshReply? {
      ReplyBegins(s, requested, e.refresh, e.grant, e.now, refresh);
    } else if e.FlowReply? {
      ReplyBegins(s, requested, e.flow, e.grant, e.now, refresh);
    } else {
      hide Refreshable;
    }
  }

  /** A refresh in flight drops the token when it fails exactly if a call began it. */
  lemma {:induction false} BegunHow(s: State, requested: string, events: seq<Event>, refresh: nat)
    requires FreshIds(s) && refresh >= s.next
    requires refresh in Run(s, requested, events).refreshes && Run(s, requested, events).refreshes[refresh].InFlight?
    ensures Run(s, requested, events).refreshes[refresh].dropOnFailure <==> !BegunByKeepalive(s, requested, events, refresh)
    decreases |events|
  {
    hide Step;
    if events != [] {
      var after := Step(s, requested, events[0]);
      StepBegins(s, requested, events[0], refresh);
      if refresh in after.refreshes {
        StaysAsBegun(after, requested, events[1..], refresh);
      } else {
        NextUnbegun(s, requested, events[0], refresh);
        if refresh >= after.next {
          BegunHow(after, requested, events[1..], refresh);
        } else {
          NeverBegins(after, requested, events[1..], refresh);
        }
      }
    }
  }

  lemma {:induction false} NextUnbegun(s: State, requested: string, e: Event, refresh: nat)
    requires FreshIds(s) && refresh >= s.next && refresh !in Step(s, requested, e).refreshes
    ensures refresh !in s.refreshes
  {
  }

  /** An id given out to something else never becomes a refresh. */
  lemma {:induction false} NeverBegins(s: State, requested: string, events: seq<Event>, refresh: nat)
    requires FreshIds(s) && refresh < s.next && refresh !in s.refreshes
    ensures refresh !in Run(s, requested, events).refreshes
    decreases |events|
  {
    hide Step;
    if events != [] {
      StepBegins(s, requested, events[0], refresh);
      NeverBegins(Step(s, requested, events[0]), requested, events[1..], refresh);
    }
  }

  lemma {:induction false} StaysAsBegun(s: State, requested: string, events: seq<Event>, refresh: nat)
    requires FreshIds(s) && refresh in s.refreshes
    ensures var after := Run(s, requested, events);
            refresh in after.refreshes && after.refreshes[refresh].InFlight? ==> s.refreshes[refresh] == after.refreshes[refresh]
    decreases |events|
  {
    hide Step;
    if events != [] {
      var after := Step(s, requested, events[0]);
      StepBegins(s, requested, events[0], refresh);
      if refresh in after.refreshes {
        StaysAsBegun(after, requested, events[1..], refresh);
      } else {
        assert refresh < after.next;
        NeverBegins(after, requested, events[1..], refresh);
      }
    }
  }

  /**
   A refresh that fails costs the token only if a call began it: over every run, when
   the keepalive did, token and disk stay as they were; when a call did, both are
   cleared, so that the next call asks the user to sign in.
   */
  lemma {:induction false} FailedRefresh(s: State, requested: string, events: seq<Event>, refresh: nat, now: int)
    requires FreshIds(s) && refresh >= s.next
    requires refresh in Run(s, requested, events).refreshes && Run(s, requested, events).refreshes[refresh].InFlight?
    ensures var before := Run(s, requested, events);
            var after := Step(before, requested, RefreshReply(refresh, None, now));
            if BegunByKeepalive(s, requested, events, refresh) then after.token == before.token && after.disk == before.disk
            else after.token == None && after.disk == None
  {
    hide Run, BegunByKeepalive;
    BegunHow(s, requested, events, refresh);
  }

  // ----- What takes a token away, and what replaces it -----------------------------------------

  /**
   The only events that take a token away: an invalidation of a token that cannot be
   refreshed, and the failure of a refresh that a call began.
   */
  lemma {:induction false} TokenLostExactly(s: State, requested: string, e: Event)
    requires s.token.Some?
    ensures Step(s, requested, e).token.None? <==>
            || (e.Invalidate? && !(s.token.value.refresh.Some? && s.token.value.refresh.value != ""))
            || (e.RefreshReply? && e.grant.None? && e.refresh in s.refreshes
                && s.refreshes[e.refresh].InFlight? && s.refreshes[e.refresh].dropOnFailure)
  {
    if e.Ask? || e.Resume? || e.Prompt? || e.Keepalive? {
      CallsKeepToken(s, requested, e);
    } else {
      hide FreshGrant, RefreshedToken, ExpiryFrom;
      FreshNone(s);
    }
  }

  lemma {:induction false} FreshNone(s: State)
    ensures FreshGrant(s, None)
  {
  }

  /** An invalidated token keeps what it can be refreshed with, and nothing else about it changes but its expiry. */
  lemma {:induction false} InvalidatedCanBeRefreshed(s: State, requested: string)
    requires s.token.Some? && s.token.value.refresh.Some? && s.token.value.refresh.value != ""
    ensures var after := Step(s, requested, Invalidate);
            && after.token == Some(s.token.value.(expiresAt := Some(0))) && after.disk == after.token
            && Refreshable(after.token)
  {
  }

  /**
   A successful refresh leaves a token that can be refreshed again: with the rotated
   refresh token if the server sent one, else with the one it was sent; with the new
   scope if one was reported, else the old; and trusted if its expiry is unknown.
   */
  lemma {:induction false} RefreshedCanBeRefreshed(s: State, requested: string, refresh: nat, g: Grant, now: int)
    requires refresh in s.refreshes && s.refreshes[refresh].InFlight? && FreshGrant(s, Some(g))
    ensures var used := s.refreshes[refresh].current;
            var after := Step(s, requested, RefreshReply(refresh, Some(g), now));
            && after.token.Some? && after.disk == after.token
            && after.token.value.access == g.access
            && (g.refresh.Some? ==> after.token.value.refresh == g.refresh)
            && (g.refresh.None? ==> after.token.value.refresh == used.refresh)
            && (g.scope.Some? && g.scope.value != "" ==> after.token.value.scope == g.scope)
            && (g.scope.None? || g.scope.value == "" ==> after.token.value.scope == used.scope)
            && (g.expiresIn.Some? ==> after.token.value.expiresAt == Some(now + 1000 * g.expiresIn.value))
            && (g.expiresIn.None? ==> after.token.value.expiresAt.None? && Good(after.token.value, after.probedUnknownExpiry, now))
  {
    hide FreshGrant;
  }

  /** So is one signed in for, with the scope that was asked for when none is reported. */
  lemma {:induction false} SignedIn(s: State, requested: string, flow: nat, g: Grant, now: int)
    requires flow in s.flows && s.flows[flow].Listening? && FreshGrant(s, Some(g))
    ensures var after := Step(s, requested, FlowReply(flow, Some(g), now));
            && after.token.Some? && after.disk == after.token
            && after.token.value.access == g.access && after.token.value.refresh == g.refresh
            && after.token.value.scope == (if g.scope.Some? && g.scope.value != "" then g.scope else Some(requested))
            && (g.expiresIn.Some? ==> after.token.value.expiresAt == Some(now + 1000 * g.expiresIn.value))
            && (g.expiresIn.None? ==> after.token.value.expiresAt.None? && Good(after.token.value, after.probedUnknownExpiry, now))
  {
    hide FreshGrant;
  }

  // ----- What a call does -------------------------------------------------------------------------

  /** A token in hand that may be served as it is. */
  predicate InHand(s: State, now: int) { s.token.Some? && Good(s.token.value, s.probedUnknownExpiry, now) }

  lemma {:induction false} NeedsExactly(s: State, now: int)
    requires s.token.Some?
    ensures NeedsRefresh(s.token.value, s.probedUnknownExpiry, now) <==> !Good(s.token.value, s.probedUnknownExpiry, now)
  {
  }

  predicate HasRefreshToken(s: State) {
    s.token.Some? && s.token.value.refresh.Some? && s.token.value.refresh.value != ""
  }

  /**
   What a new call does: while a refresh is in flight it waits for that, whatever token
   is in hand; else it is served a good token; else it starts a refresh, and waits, if
   it can; and only without any of these does it go on to ask the user.
   */
  lemma {:induction false} CallDoes(s: State, requested: string, call: nat, silently: bool, now: int)
    requires call !in s.calls
    ensures var after := Step(s, requested, Ask(call, silently, now));
            && call in after.calls
            && (if s.refreshing.Some? then
                  after.calls[call] == AwaitingOther(s.refreshing.value, silently) && after.log == s.log
                else if InHand(s, now) then
                  after.log == s.log
                  && (s.token.value.access != "" ==> after.calls[call] == Served(s.token.value.access))
                else if HasRefreshToken(s) then
                  after.log == s.log + [Sent(s.token.value.refresh.value)] && after.refreshing.Some?
                  && after.calls[call] == AwaitingRefresh(after.refreshing.value, silently)
                else after.log == s.log && after.calls[call] == WithoutToken(silently))
  {
    hide SetCall, StartRefresh, NeedsRefresh, Good;
    SettingCalls(call);
    if s.token.Some? { NeedsExactly(s, now); }
    if Refreshable(s.token) && s.refreshing.None? {
      Starting(s, true);
      var started := StartRefresh(s, true);
      SettingOne(started, call, AwaitingRefresh(started.refreshing.value, silently));
    }
  }

  /** It goes on waiting for as long as that refresh has not settled, so no token about to be replaced is served. */
  lemma {:induction false} WaitsForTheRefresh(s: State, requested: string, events: seq<Event>, call: nat, refresh: nat, silently: bool)
    requires call in s.calls && s.calls[call] == AwaitingOther(refresh, silently)
    requires refresh !in Run(s, requested, events).results && Invariant(s)
    ensures call in Run(s, requested, events).calls && Run(s, requested, events).calls[call] == s.calls[call]
    decreases |events|
  {
    hide Invariant, Step;
    if events != [] {
      var after := Step(s, requested, events[0]);
      ResultsStay(after, requested, events[1..], refresh);
      StepKeeps(s, requested, events[0]);
      StepWaits(s, requested, events[0], call, refresh, silently);
      WaitsForTheRefresh(after, requested, events[1..], call, refresh, silently);
    }
  }

  lemma {:induction false} ResultsStay(s: State, requested: string, events: seq<Event>, refresh: nat)
    ensures refresh in s.results ==> refresh in Run(s, requested, events).results
    decreases |events|
  {
    hide Step;
    if events != [] {
      StepResults(s, requested, events[0], refresh);
      ResultsStay(Step(s, requested, events[0]), requested, events[1..], refresh);
    }
  }

  lemma {:induction false} StepResults(s: State, requested: string, e: Event, refresh: nat)
    ensures refresh in s.results ==> refresh in Step(s, requested, e).results
  {
    hide AskStep, ResumeStep, PromptStep, StartRefresh, FreshGrant, RefreshedToken, ExpiryFrom;
    if Refreshable(s.token) {
      Starting(s, true);
      Starting(s, false);
    }
    if e.Ask? || e.Resume? {
      CallMayStart(s, requested, e);
    } else if e.Prompt? {
      PromptMayOpen(s, e.call);
    } else {
      hide Refreshable;
    }
  }

  lemma {:induction false} StepWaits(s: State, requested: string, e: Event, call: nat, refresh: nat, silently: bool)
    requires call in s.calls && s.calls[call] == AwaitingOther(refresh, silently) && refresh !in Step(s, requested, e).results
    ensures call in Step(s, requested, e).calls && Step(s, requested, e).calls[call] == s.calls[call]
  {
    OnlyOwnStep(s, requested, e, call);
    StepResults(s, requested, e, refresh);
    hide RefreshReplyStep, FlowReplyStep, TokenOrRefresh;
  }

  /**
   The user is only asked to sign in by a call that may prompt and has found no token;
   it joins the flow already pending, if there is one. A silent call never opens one.
   */
  lemma {:induction false} FlowOpensExactly(s: State, requested: string, e: Event)
    ensures Step(s, requested, e).flows.Keys > s.flows.Keys ==>
            e.Prompt? && s.starting.None? && e.call in s.calls && s.calls[e.call] == WithoutToken(false)
    ensures e.Prompt? && s.starting.None? && e.call in s.calls && s.calls[e.call] == WithoutToken(false) ==>
            s.next in Step(s, requested, e).flows && Step(s, requested, e).flows[s.next].Opening?
    ensures e.Prompt? && e.call in s.calls && s.calls[e.call] == WithoutToken(true) ==>
            Step(s, requested, e).flows == s.flows && Step(s, requested, e).calls[e.call] == SignInNeeded(None)
  {
    hide AskStep, ResumeStep, StartRefresh, FreshGrant, RefreshedToken, ExpiryFrom;
    if Refreshable(s.token) {
      Starting(s, true);
      Starting(s, false);
    }
    if e.Ask? || e.Resume? {
      CallMayStart(s, requested, e);
    } else if e.Prompt? {
      PromptOpens(s, e.call);
    } else {
      hide Refreshable, PromptStep;
    }
  }

  lemma {:induction false} PromptOpens(s: State, call: nat)
    ensures var after := PromptStep(s, call);
            && (after.flows.Keys > s.flows.Keys ==> s.starting.None? && call in s.calls && s.calls[call] == WithoutToken(false))
            && (s.starting.None? && call in s.calls && s.calls[call] == WithoutToken(false) ==>
                  s.next in after.flows && after.flows[s.next].Opening?)
            && (call in s.calls && s.calls[call] == WithoutToken(true) ==>
                  after.flows == s.flows && after.calls[call] == SignInNeeded(None))
  {
    hide SetCall;
    SettingCalls(call);
  }

  /** The keepalive refreshes exactly when nothing is in flight and there is something to refresh with. */
  lemma {:induction false} KeepaliveDoes(s: State, requested: string)
    ensures Step(s, requested, Keepalive).log
         == s.log + if s.refreshing.None? && HasRefreshToken(s) then [Sent(s.token.value.refresh.value)] else []
  {
  }
}
