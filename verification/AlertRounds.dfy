/**
 The alert poller's rounds (`src/utils/sla-poller.ts`): which URIs a round looks at, in
 which order, and that no answer, failure or change of subscriptions can stall it.
 */
module AlertRounds {
  import opened Options
  import opened AlertPoller

  /** A refresh that step `e` begins, if `round` awaits it. */
  ghost function Begun(s: State, e: Event, round: nat): seq<string> {
    var after := Step(s, e);
    if round in after.rounds && after.rounds[round].awaited.Some?
       && after.rounds[round].awaited.value in after.refreshes && after.rounds[round].awaited.value !in s.refreshes
    then [after.refreshes[after.rounds[round].awaited.value].uri]
    else []
  }

  /** The URIs the round begins to look at along the run, in order. */
  ghost function Visits(s: State, events: seq<Event>, round: nat): seq<string>
    decreases |events|
  {
    if events == [] then [] else Begun(s, events[0], round) + Visits(Step(s, events[0]), events[1..], round)
  }

  /** What the round has yet to begin. */
  ghost function Ahead(s: State, round: nat): seq<string> {
    if round in s.rounds then s.rounds[round].rest else []
  }

  lemma {:induction false} GoOnBegins(s: State, round: nat, rest: seq<string>)
    requires forall id :: id in s.refreshes ==> id < s.next
    ensures var after := GoOn(s, round, rest);
            if rest == [] then round !in after.rounds && !after.running
            else round in after.rounds && after.rounds[round] == Round(Some(s.next), rest[1..])
                 && s.next in after.refreshes && after.refreshes[s.next] == Refresh(rest[0], Checking)
  {
  }

  /** Only the round's own resumption moves it on. */
  lemma {:induction false} StepMovesOn(s: State, e: Event, round: nat)
    requires Inv(s) && round in s.rounds
    ensures Ahead(s, round) == Begun(s, e, round) + Ahead(Step(s, e), round)
    ensures round !in Step(s, e).rounds ==> s.rounds[round] == Round(None, []) && e == RoundResumes(round)
  {
    hide View, Sound, Lists, Record, GoOn;
    if e.RoundResumes? {
      if e.round == round && s.rounds[round].awaited.None? {
        GoOnBegins(s, round, s.rounds[round].rest);
        if s.rounds[round].rest != [] { assert s.rounds[round].rest == [s.rounds[round].rest[0]] + s.rounds[round].rest[1..]; }
      } else if e.round in s.rounds {
        assert e.round == round;
      }
    } else {
      StepSpares(s, e, round);
    }
  }

  lemma {:induction false} RecordSpares(s: State, uri: string, fingerprint: string)
    ensures var after := Record(s, uri, fingerprint); after.rounds == s.rounds && after.refreshes == s.refreshes
  {
  }

  /** Any other step leaves what is ahead of the round, and begins nothing for it. */
  lemma {:induction false} StepSpares(s: State, e: Event, round: nat)
    requires Inv(s) && round in s.rounds && !e.RoundResumes?
    ensures round in Step(s, e).rounds && Step(s, e).rounds[round].rest == s.rounds[round].rest
    ensures Step(s, e).rounds[round].awaited in {None, s.rounds[round].awaited}
    ensures Begun(s, e, round) == []
  {
    hide View, Sound, Lists, Record;
    if e.Checked? && e.refresh in s.refreshes && e.result.Some? { RecordSpares(s, s.refreshes[e.refresh].uri, e.result.value); }
    if e.Notified? && e.refresh in s.refreshes && s.refreshes[e.refresh].phase.Notifying? {
      RecordSpares(s, s.refreshes[e.refresh].uri, s.refreshes[e.refresh].phase.found);
    }
  }

  /**
   A round looks at all it set out to, each once and in order, whatever happens to the
   subscriptions meanwhile, and it is not over before.
   */
  lemma {:induction false} RoundVisitsItsOrder(s: State, events: seq<Event>, round: nat)
    requires Inv(s) && round in s.rounds && round < s.next
    ensures s.rounds[round].rest == Visits(s, events, round) + Ahead(Run(s, events), round)
    decreases |events|
  {
    hide Step, Inv, Begun;
    if events != [] {
      var after := Step(s, events[0]);
      StepKeeps(s, events[0]);
      StepMovesOn(s, events[0], round);
      IdsGrow(s, events[0]);
      VisitsOnce(s, events, round);
      if round in after.rounds {
        RoundVisitsItsOrder(after, events[1..], round);
      } else {
        OverForGood(after, events[1..], round);
      }
    }
  }

  lemma {:induction false} IdsGrow(s: State, e: Event)
    ensures Step(s, e).next >= s.next
    ensures forall r :: r in Step(s, e).rounds ==> r in s.rounds || r >= s.next
  {
    hide Lists;
  }

  lemma {:induction false} OverForGood(s: State, events: seq<Event>, round: nat)
    requires round !in s.rounds && round < s.next
    ensures Visits(s, events, round) == [] && Ahead(Run(s, events), round) == []
    decreases |events|
  {
    hide Step;
    if events != [] {
      IdsGrow(s, events[0]);
      OverForGood(Step(s, events[0]), events[1..], round);
    }
  }

  lemma {:induction false} VisitsOnce(s: State, events: seq<Event>, round: nat)
    requires events != []
    ensures Visits(s, events, round) == Begun(s, events[0], round) + Visits(Step(s, events[0]), events[1..], round)
  {
  }

  /** A tick starts a round over every URI subscribed to, each once, unless one is running. */
  lemma {:induction false} TickStartsARound(s: State, order: seq<string>)
    requires Inv(s) && Lists(order, s.fingerprints) && !s.running && order != []
    ensures s.next in Step(s, Tick(order)).rounds && s.next < Step(s, Tick(order)).next
    ensures Begun(s, Tick(order), s.next) + Ahead(Step(s, Tick(order)), s.next) == order
  {
    hide View, Sound, Lists;
    assert order == [order[0]] + order[1..];
  }

  /** A new subscription is looked at once at once, without waiting for a round. */
  lemma {:induction false} SubscribingChecks(s: State, uri: string)
    requires uri !in s.fingerprints
    ensures var after := Step(s, Subscribe(uri));
            && s.next in after.refreshes && after.refreshes[s.next] == Refresh(uri, Checking)
            && after.fingerprints == s.fingerprints[uri := None] && after.timer
  {
  }

  // ----- No round is stuck --------------------------------------------------------------------

  /** A refresh answered, its check first and its notification, if it sends one, after that. */
  ghost function Answered(s: State, refresh: nat, result: Option<string>, delivered: bool): seq<Event> {
    if refresh in s.refreshes && s.refreshes[refresh].phase.Notifying? then [Notified(refresh, delivered)]
    else [Checked(refresh, result), Notified(refresh, delivered)]
  }

  lemma {:induction false} RunOne(s: State, e: Event)
    ensures Run(s, [e]) == Step(s, e)
  {
    hide Step;
    assert [e][1..] == [];
    assert Run(Step(s, e), []) == Step(s, e);
  }

  lemma {:induction false} RunTwo(s: State, e: Event, f: Event)
    ensures Run(s, [e, f]) == Step(Step(s, e), f)
  {
    hide Step;
    assert [e, f][1..] == [f];
    RunOne(Step(s, e), f);
  }

  lemma {:induction false} RunConcat(s: State, a: seq<Event>, b: seq<Event>)
    ensures Run(s, a + b) == Run(Run(s, a), b)
    decreases |a|
  {
    hide Step;
    if a == [] {
      assert a + b == b;
    } else {
      assert (a + b)[1..] == a[1..] + b;
      RunConcat(Step(s, a[0]), a[1..], b);
    }
  }

  /** Whatever comes back, the refresh is over and the round awaiting it may go on. */
  lemma {:induction false} AnsweringFrees(s: State, round: nat, refresh: nat, result: Option<string>, delivered: bool)
    requires Inv(s) && round in s.rounds && s.rounds[round].awaited == Some(refresh)
    ensures var after := Run(s, Answered(s, refresh, result, delivered));
            && Inv(after) && refresh !in after.refreshes
            && round in after.rounds && after.rounds[round] == Round(None, s.rounds[round].rest)
  {
    hide Step, View, Sound;
    if s.refreshes[refresh].phase.Notifying? {
      RunOne(s, Notified(refresh, delivered));
      StepKeeps(s, Notified(refresh, delivered));
      NotifiedFrees(s, round, refresh, delivered);
    } else {
      var checked := Step(s, Checked(refresh, result));
      RunTwo(s, Checked(refresh, result), Notified(refresh, delivered));
      StepKeeps(s, Checked(refresh, result));
      StepKeeps(checked, Notified(refresh, delivered));
      CheckedFrees(s, round, refresh, result);
      if refresh in checked.refreshes {
        NotifiedFrees(checked, round, refresh, delivered);
      } else {
        LateAnswer(checked, refresh, delivered);
      }
    }
  }

  lemma {:induction false} LateAnswer(s: State, refresh: nat, delivered: bool)
    requires refresh !in s.refreshes
    ensures Step(s, Notified(refresh, delivered)) == s
  {
  }

  lemma {:induction false} NotifiedFrees(s: State, round: nat, refresh: nat, delivered: bool)
    requires round in s.rounds && s.rounds[round].awaited == Some(refresh)
    requires refresh in s.refreshes && s.refreshes[refresh].phase.Notifying?
    ensures var after := Step(s, Notified(refresh, delivered));
            refresh !in after.refreshes && round in after.rounds && after.rounds[round] == Round(None, s.rounds[round].rest)
  {
    hide Record;
    RecordSpares(s, s.refreshes[refresh].uri, s.refreshes[refresh].phase.found);
  }

  lemma {:induction false} CheckedFrees(s: State, round: nat, refresh: nat, result: Option<string>)
    requires round in s.rounds && s.rounds[round].awaited == Some(refresh)
    requires refresh in s.refreshes && s.refreshes[refresh].phase.Checking?
    ensures var after := Step(s, Checked(refresh, result));
            && round in after.rounds
            && (if refresh in after.refreshes then after.refreshes[refresh].phase.Notifying? && after.rounds == s.rounds
                else after.rounds[round] == Round(None, s.rounds[round].rest))
  {
    hide Record;
    if result.Some? { RecordSpares(s, s.refreshes[refresh].uri, result.value); }
  }

  /**
   From any state a round that is running comes to its end, and the next tick can start
   another, once what it awaits is answered: with any results and failures whatever.
   */
  lemma {:induction false} RoundCanEnd(s: State, round: nat, results: nat -> Option<string>, delivered: nat -> bool)
    returns (events: seq<Event>)
    requires Inv(s) && round in s.rounds
    ensures forall e :: e in events ==>
              || e == RoundResumes(round)
              || (e.Checked? && e.result == results(e.refresh))
              || (e.Notified? && e.delivered == delivered(e.refresh))
    ensures Inv(Run(s, events)) && !Run(s, events).running
    decreases |s.rounds[round].rest|
  {
    hide Step, View, Sound, Run;
    var free := s;
    events := [];
    if s.rounds[round].awaited.Some? {
      var id := s.rounds[round].awaited.value;
      events := Answered(s, id, results(id), delivered(id));
      AnsweringFrees(s, round, id, results(id), delivered(id));
      free := Run(s, events);
    } else {
      RunNone(s);
    }
    var on := RoundResumes(round);
    Resumes(free, round);
    StepKeeps(free, on);
    RunConcat(s, events, [on]);
    RunOne(free, on);
    events := events + [on];
    var next := Step(free, on);
    if s.rounds[round].rest != [] {
      var more := RoundCanEnd(next, round, results, delivered);
      RunConcat(s, events, more);
      events := events + more;
    }
  }

  lemma {:induction false} RunNone(s: State)
    ensures Run(s, []) == s
  {
  }

  lemma {:induction false} Resumes(s: State, round: nat)
    requires Inv(s) && round in s.rounds && s.rounds[round].awaited.None?
    ensures var after := Step(s, RoundResumes(round));
            if s.rounds[round].rest == [] then !after.running
            else round in after.rounds && after.rounds[round].rest == s.rounds[round].rest[1..]
  {
    hide View, Sound;
  }
}
