/**
 The alert poller (`src/utils/sla-poller.ts`) as a step system: its subscriptions,
 its timer, and the checks and notifications in flight. Steps of the round, of each
 subscription's first check and of the callers interleave in any order.
 */
module AlertPoller {
  import opened Options

  /** Where a refresh is suspended: at its check, or at the notification of what it found. */
  datatype Phase = Checking | Notifying(found: string)

  datatype Refresh = Refresh(uri: string, phase: Phase)

  /** A polling round: the refresh it awaits, if it is not about to go on, and the URIs left. */
  datatype Round = Round(awaited: Option<nat>, rest: seq<string>)

  /** What happened, oldest first. */
  datatype Entry =
    | Subscribed(uri: string)
    | Ended(uri: string)
    | AllEnded
    | Recorded(uri: string, fingerprint: string)
    | Announced(uri: string, found: string)

  datatype State = State(
    fingerprints: map<string, Option<string>>,
    timer: bool,
    running: bool,
    rounds: map<nat, Round>,
    refreshes: map<nat, Refresh>,
    next: nat,
    log: seq<Entry>)

  datatype Event =
    | Subscribe(uri: string)
    | Unsubscribe(uri: string)
    | Stop
    | Tick(order: seq<string>)
    | RoundResumes(round: nat)
    | Checked(refresh: nat, result: Option<string>)
    | Notified(refresh: nat, delivered: bool)

  // ----- Steps --------------------------------------------------------------------------

  const START := State(map[], false, false, map[], map[], 0, [])

  function StartRefresh(s: State, uri: string): State {
    s.(refreshes := s.refreshes[s.next := Refresh(uri, Checking)], next := s.next + 1)
  }

  function SubscribeStep(s: State, uri: string): State {
    if uri in s.fingerprints then s
    else
      StartRefresh(s.(fingerprints := s.fingerprints[uri := None], timer := true, log := s.log + [Subscribed(uri)]), uri)
  }

  function UnsubscribeStep(s: State, uri: string): State {
    var left := s.fingerprints - {uri};
    s.(fingerprints := left, timer := if left == map[] then false else s.timer,
       log := if uri in s.fingerprints then s.log + [Ended(uri)] else s.log)
  }

  function StopStep(s: State): State {
    s.(fingerprints := map[], timer := false, log := s.log + [AllEnded])
  }

  /** A listing of the subscriptions, each once. */
  predicate Lists(order: seq<string>, fingerprints: map<string, Option<string>>) {
    && (set uri | uri in order) == fingerprints.Keys
    && forall i, j :: 0 <= i < j < |order| ==> order[i] != order[j]
  }

  /** A round's next refresh, or its end. */
  function GoOn(s: State, round: nat, rest: seq<string>): State {
    if rest == [] then s.(running := false, rounds := s.rounds - {round})
    else StartRefresh(s.(rounds := s.rounds[round := Round(Some(s.next), rest[1..])]), rest[0])
  }

  function TickStep(s: State, order: seq<string>): State {
    if s.running || !Lists(order, s.fingerprints) then s
    else GoOn(s.(running := true, next := s.next + 1), s.next, order)
  }

  function ResumeStep(s: State, round: nat): State {
    if round in s.rounds && s.rounds[round].awaited.None? then GoOn(s, round, s.rounds[round].rest) else s
  }

  /** A refresh returns, and a round awaiting it is free to go on. */
  function Return(s: State, refresh: nat): State {
    s.(refreshes := s.refreshes - {refresh}, rounds := Freed(s.rounds, refresh))
  }

  function Freed(rounds: map<nat, Round>, refresh: nat): map<nat, Round> {
    map r | r in rounds :: if rounds[r].awaited == Some(refresh) then Round(None, rounds[r].rest) else rounds[r]
  }

  /** Recorded only while still subscribed. */
  function Record(s: State, uri: string, fingerprint: string): State {
    if uri in s.fingerprints then
      s.(fingerprints := s.fingerprints[uri := Some(fingerprint)], log := s.log + [Recorded(uri, fingerprint)])
    else s
  }

  function CheckedStep(s: State, refresh: nat, result: Option<string>): State {
    if refresh !in s.refreshes || !s.refreshes[refresh].phase.Checking? then s
    else if result.None? then Return(s, refresh)
    else
      var uri := s.refreshes[refresh].uri;
      var previous := if uri in s.fingerprints then s.fingerprints[uri] else None;
      if previous.Some? && previous.value != result.value then
        s.(refreshes := s.refreshes[refresh := Refresh(uri, Notifying(result.value))],
           log := s.log + [Announced(uri, result.value)])
      else Return(Record(s, uri, result.value), refresh)
  }

  function NotifiedStep(s: State, refresh: nat, delivered: bool): State {
    if refresh !in s.refreshes || !s.refreshes[refresh].phase.Notifying? then s
    else if !delivered then Return(s, refresh)
    else Return(Record(s, s.refreshes[refresh].uri, s.refreshes[refresh].phase.found), refresh)
  }

  function Step(s: State, e: Event): State {
    match e
    case Subscribe(uri) => SubscribeStep(s, uri)
    case Unsubscribe(uri) => UnsubscribeStep(s, uri)
    case Stop => StopStep(s)
    case Tick(order) => TickStep(s, order)
    case RoundResumes(round) => ResumeStep(s, round)
    case Checked(refresh, result) => CheckedStep(s, refresh, result)
    case Notified(refresh, delivered) => NotifiedStep(s, refresh, delivered)
  }

  function Run(s: State, events: seq<Event>): State
    decreases |events|
  {
    if events == [] then s else Run(Step(s, events[0]), events[1..])
  }

  // ----- The poller itself -----------------------------------------------------------------

  class AlertPoller {
    var fingerprints: map<string, Option<string>>
    var timer: bool
    var running: bool
    var rounds: map<nat, Round>
    var refreshes: map<nat, Refresh>
    var next: nat
    var log: seq<Entry>

    function Now(): State
      reads this
    {
      State(fingerprints, timer, running, rounds, refreshes, next, log)
    }

    constructor ()
      ensures Now() == START
    {
      fingerprints, timer, running, rounds, refreshes, next, log := map[], false, false, map[], map[], 0, [];
    }

    method Begin(uri: string)
      modifies this`refreshes, this`next
      ensures Now() == StartRefresh(old(Now()), uri)
    {
      refreshes := refreshes[next := Refresh(uri, Checking)];
      next := next + 1;
    }

    method Subscribe(uri: string)
      modifies this
      ensures Now() == Step(old(Now()), Event.Subscribe(uri))
    {
      if uri in fingerprints { return; }
      fingerprints := fingerprints[uri := None];
      log := log + [Subscribed(uri)];
      if !timer { timer := true; }
      Begin(uri);
    }

    method Unsubscribe(uri: string)
      modifies this
      ensures Now() == Step(old(Now()), Event.Unsubscribe(uri))
    {
      if uri in fingerprints { log := log + [Ended(uri)]; }
      fingerprints := fingerprints - {uri};
      if fingerprints == map[] { timer := false; }
    }

    method Stop()
      modifies this
      ensures Now() == Step(old(Now()), Event.Stop)
    {
      fingerprints := map[];
      log := log + [AllEnded];
      timer := false;
    }

    method NextInRound(round: nat, rest: seq<string>)
      modifies this
      ensures Now() == GoOn(old(Now()), round, rest)
    {
      if rest == [] {
        running, rounds := false, rounds - {round};
      } else {
        rounds := rounds[round := Round(Some(next), rest[1..])];
        Begin(rest[0]);
      }
    }

    method Tick(order: seq<string>)
      requires Lists(order, fingerprints)
      modifies this
      ensures Now() == Step(old(Now()), Event.Tick(order))
    {
      if running { return; }
      running := true;
      var round := next;
      next := next + 1;
      NextInRound(round, order);
    }

    method ResumeRound(round: nat)
      modifies this
      ensures Now() == Step(old(Now()), RoundResumes(round))
    {
      if round in rounds && rounds[round].awaited.None? { NextInRound(round, rounds[round].rest); }
    }

    method ReturnFrom(refresh: nat)
      modifies this`refreshes, this`rounds
      ensures Now() == Return(old(Now()), refresh)
    {
      refreshes := refreshes - {refresh};
      rounds := Freed(rounds, refresh);
    }

    method RecordFingerprint(uri: string, fingerprint: string)
      modifies this`fingerprints, this`log
      ensures Now() == Record(old(Now()), uri, fingerprint)
    {
      if uri in fingerprints {
        fingerprints := fingerprints[uri := Some(fingerprint)];
        log := log + [Recorded(uri, fingerprint)];
      }
    }

    /** `check` answered, or failed. */
    method CheckAnswered(refresh: nat, result: Option<string>)
      modifies this
      ensures Now() == Step(old(Now()), Checked(refresh, result))
    {
      if refresh !in refreshes || !refreshes[refresh].phase.Checking? { return; }
      var uri := refreshes[refresh].uri;
      if result.Some? {
        var previous := if uri in fingerprints then fingerprints[uri] else None;
        if previous.Some? && previous.value != result.value {
          refreshes := refreshes[refresh := Refresh(uri, Notifying(result.value))];
          log := log + [Announced(uri, result.value)];
          return;
        }
        RecordFingerprint(uri, result.value);
      }
      ReturnFrom(refresh);
    }

    /** `notify` returned, or failed. */
    method NotifyAnswered(refresh: nat, delivered: bool)
      modifies this
      ensures Now() == Step(old(Now()), Notified(refresh, delivered))
    {
      if refresh !in refreshes || !refreshes[refresh].phase.Notifying? { return; }
      if delivered { RecordFingerprint(refreshes[refresh].uri, refreshes[refresh].phase.found); }
      ReturnFrom(refresh);
    }
  }

  // ----- What the history alone says ----------------------------------------------------------

  /** Who is subscribed after this history, and the last fingerprint of each since it subscribed. */
  ghost function View(log: seq<Entry>): map<string, Option<string>> {
    if log == [] then map[]
    else
      var before := View(log[..|log| - 1]);
      match log[|log| - 1]
      case Subscribed(uri) => before[uri := None]
      case Ended(uri) => before - {uri}
      case AllEnded => map[]
      case Recorded(uri, fingerprint) => before[uri := Some(fingerprint)]
      case Announced(_, _) => before
  }

  /** An entry is justified by the history before it. */
  ghost predicate Justified(before: map<string, Option<string>>, e: Entry) {
    match e
    case Subscribed(uri) => uri !in before
    case Ended(uri) => uri in before
    case AllEnded => true
    case Recorded(uri, _) => uri in before
    case Announced(uri, found) => uri in before && before[uri].Some? && before[uri].value != found
  }

  /**
   A history in which only subscribed URIs are recorded, and each notification goes to
   a URI still subscribed, with a baseline recorded since, and for another fingerprint.
   */
  ghost predicate Sound(log: seq<Entry>) {
    log == [] || (Sound(log[..|log| - 1]) && Justified(View(log[..|log| - 1]), log[|log| - 1]))
  }

  // ----- What every step keeps ------------------------------------------------------------------

  ghost predicate Inv(s: State) {
    && (s.timer <==> s.fingerprints != map[])
    && (s.running <==> s.rounds != map[])
    && (forall r, other :: r in s.rounds && other in s.rounds ==> r == other)
    && (forall r :: r in s.rounds && s.rounds[r].awaited.Some? ==> s.rounds[r].awaited.value in s.refreshes)
    && (forall id :: id in s.refreshes ==> id < s.next)
    && s.fingerprints == View(s.log)
    && Sound(s.log)
  }

  lemma {:induction false} Appended(log: seq<Entry>, e: Entry)
    requires Sound(log) && Justified(View(log), e)
    ensures Sound(log + [e])
    ensures View(log + [e]) ==
            match e
            case Subscribed(uri) => View(log)[uri := None]
            case Ended(uri) => View(log) - {uri}
            case AllEnded => map[]
            case Recorded(uri, fingerprint) => View(log)[uri := Some(fingerprint)]
            case Announced(_, _) => View(log)
  {
    assert (log + [e])[..|log|] == log;
  }

  lemma {:induction false} ResumeKeeps(s: State, round: nat)
    requires Inv(s)
    ensures Inv(ResumeStep(s, round))
  {
    hide View, Sound;
    if round in s.rounds { assert s.rounds - {round} == map[]; }
  }

  lemma {:induction false} TickKeeps(s: State, order: seq<string>)
    requires Inv(s)
    ensures Inv(TickStep(s, order))
  {
    hide View, Sound, Lists;
    if !s.running { assert s.rounds - {s.next} == map[]; }
  }

  lemma {:induction false} RecordKeeps(s: State, uri: string, fingerprint: string)
    requires Inv(s)
    ensures Inv(Record(s, uri, fingerprint))
  {
    hide View, Sound;
    if uri in s.fingerprints { Appended(s.log, Recorded(uri, fingerprint)); }
  }

  lemma {:induction false} ReturnKeeps(s: State, refresh: nat)
    requires Inv(s)
    ensures Inv(Return(s, refresh))
  {
    hide View, Sound;
    assert Freed(s.rounds, refresh).Keys == s.rounds.Keys;
  }

  /** Every step of every interleaving keeps the invariant. */
  lemma {:induction false} StepKeeps(s: State, e: Event)
    requires Inv(s)
    ensures Inv(Step(s, e))
  {
    hide View, Sound, Record, Return, GoOn;
    match e
    case Subscribe(uri) => if uri !in s.fingerprints { Appended(s.log, Subscribed(uri)); }
    case Unsubscribe(uri) => UnsubscribeKeeps(s, uri);
    case Stop => Appended(s.log, AllEnded);
    case Tick(order) => TickKeeps(s, order);
    case RoundResumes(round) => ResumeKeeps(s, round);
    case Checked(refresh, result) => CheckedKeeps(s, refresh, result);
    case Notified(refresh, delivered) =>
      if refresh in s.refreshes && s.refreshes[refresh].phase.Notifying? {
        var recorded := Record(s, s.refreshes[refresh].uri, s.refreshes[refresh].phase.found);
        RecordKeeps(s, s.refreshes[refresh].uri, s.refreshes[refresh].phase.found);
        ReturnKeeps(recorded, refresh);
        ReturnKeeps(s, refresh);
      }
  }

  lemma {:induction false} UnsubscribeKeeps(s: State, uri: string)
    requires Inv(s)
    ensures Inv(UnsubscribeStep(s, uri))
  {
    hide View, Sound;
    if uri in s.fingerprints {
      Appended(s.log, Ended(uri));
    } else {
      assert s.fingerprints - {uri} == s.fingerprints;
    }
  }

  lemma {:induction false} CheckedKeeps(s: State, refresh: nat, result: Option<string>)
    requires Inv(s)
    ensures Inv(CheckedStep(s, refresh, result))
  {
    hide View, Sound, Record, Return;
    if refresh in s.refreshes && s.refreshes[refresh].phase.Checking? {
      ReturnKeeps(s, refresh);
      if result.Some? {
        var uri := s.refreshes[refresh].uri;
        RecordKeeps(s, uri, result.value);
        ReturnKeeps(Record(s, uri, result.value), refresh);
        if uri in s.fingerprints && s.fingerprints[uri].Some? && s.fingerprints[uri].value != result.value {
          Appended(s.log, Announced(uri, result.value));
        }
      }
    }
  }

  lemma {:induction false} RunKeeps(s: State, events: seq<Event>)
    requires Inv(s)
    ensures Inv(Run(s, events))
    decreases |events|
  {
    hide Inv, Step;
    if events != [] {
      StepKeeps(s, events[0]);
      RunKeeps(Step(s, events[0]), events[1..]);
    }
  }

  /**
   Over every interleaving from a fresh poller: the timer is armed exactly while there
   is a subscription, rounds never overlap, the fingerprints are what the history
   recorded, and that history is sound.
   */
  lemma {:induction false} EveryRunIsSound(events: seq<Event>)
    ensures var after := Run(START, events);
            && (after.timer <==> after.fingerprints != map[])
            && |after.rounds| <= 1 && (after.running <==> |after.rounds| == 1)
            && after.fingerprints == View(after.log) && Sound(after.log)
  {
    hide Step, View, Sound;
    StartKeeps();
    RunKeeps(START, events);
    AtMostOneRound(Run(START, events).rounds);
  }

  lemma {:induction false} AtMostOneRound(rounds: map<nat, Round>)
    requires forall r, other :: r in rounds && other in rounds ==> r == other
    ensures rounds == map[] || |rounds| == 1
  {
    if rounds != map[] {
      var r :| r in rounds;
      assert rounds.Keys == {r};
      assert |rounds| == |rounds.Keys|;
    }
  }

  lemma {:induction false} StartKeeps()
    ensures Inv(START)
  {
  }

  // ----- A change stays owed until a notification goes through -------------------------------------

  /** No event of the run ends this subscription or delivers a notification for it. */
  ghost predicate NothingDelivered(s: State, events: seq<Event>, uri: string)
    decreases |events|
  {
    events == [] ||
    (&& events[0] != Unsubscribe(uri) && events[0] != Stop
     && !(events[0].Notified? && events[0].delivered
          && events[0].refresh in s.refreshes && s.refreshes[events[0].refresh].uri == uri)
     && NothingDelivered(Step(s, events[0]), events[1..], uri))
  }

  lemma {:induction false} OneStepUndelivered(s: State, e: Event, uri: string)
    requires uri in s.fingerprints && s.fingerprints[uri].Some?
    requires NothingDelivered(s, [e], uri)
    ensures uri in Step(s, e).fingerprints && Step(s, e).fingerprints[uri] == s.fingerprints[uri]
  {
    hide Lists;
  }

  /**
   Whatever else happens in between (other subscriptions, failed checks, failed
   notifications, rounds), the recorded fingerprint stays until a notification is
   delivered, and every check that finds another one announces it again.
   */
  lemma {:induction false} ChangeStaysOwed(s: State, events: seq<Event>, uri: string, refresh: nat, found: string)
    requires uri in s.fingerprints && s.fingerprints[uri].Some? && s.fingerprints[uri] != Some(found)
    requires NothingDelivered(s, events, uri)
    ensures var after := Run(s, events);
            && uri in after.fingerprints && after.fingerprints[uri] == s.fingerprints[uri]
            && (refresh in after.refreshes && after.refreshes[refresh] == Refresh(uri, Checking) ==>
                  Step(after, Checked(refresh, Some(found))).log == after.log + [Announced(uri, found)])
  {
    UndeliveredStays(s, events, uri);
  }

  lemma {:induction false} UndeliveredStays(s: State, events: seq<Event>, uri: string)
    requires uri in s.fingerprints && s.fingerprints[uri].Some? && NothingDelivered(s, events, uri)
    ensures uri in Run(s, events).fingerprints && Run(s, events).fingerprints[uri] == s.fingerprints[uri]
    decreases |events|
  {
    if events != [] {
      hide Step;
      assert NothingDelivered(s, [events[0]], uri) by { assert [events[0]][1..] == []; }
      OneStepUndelivered(s, events[0], uri);
      UndeliveredStays(Step(s, events[0]), events[1..], uri);
    }
  }

  /**
   Once delivered, the announced fingerprint is the recorded one, and until another
   notification is delivered no check that finds it again announces it: a change is
   told once.
   */
  lemma {:induction false} DeliveredIsNotAnnouncedAgain(s: State, refresh: nat, events: seq<Event>, check: nat)
    requires refresh in s.refreshes && s.refreshes[refresh].phase.Notifying?
    requires s.refreshes[refresh].uri in s.fingerprints
    requires NothingDelivered(Step(s, Notified(refresh, true)), events, s.refreshes[refresh].uri)
    ensures var uri, found := s.refreshes[refresh].uri, s.refreshes[refresh].phase.found;
            var delivered := Step(s, Notified(refresh, true));
            var after := Run(delivered, events);
            && delivered.fingerprints == s.fingerprints[uri := Some(found)] && refresh !in delivered.refreshes
            && (check in after.refreshes && after.refreshes[check] == Refresh(uri, Checking) ==>
                  Step(after, Checked(check, Some(found))).log == after.log + [Recorded(uri, found)])
  {
    var delivered := Step(s, Notified(refresh, true));
    UndeliveredStays(delivered, events, s.refreshes[refresh].uri);
  }

  // ----- Baselines ----------------------------------------------------------------------------------

  /** Along the run, the subscription lasts and `own` stays the only refresh of this URI. */
  ghost predicate Alone(s: State, events: seq<Event>, uri: string, own: nat)
    decreases |events|
  {
    && uri in s.fingerprints
    && (forall id :: id in s.refreshes && s.refreshes[id].uri == uri ==> id == own)
    && (events == [] ||
        (&& !(events[0].Checked? && events[0].refresh == own)
         && Alone(Step(s, events[0]), events[1..], uri, own)))
  }

  /**
   A new subscription's first check only sets the baseline, whenever it answers, if no
   other refresh of that URI is in flight meanwhile.
   */
  lemma {:induction false} FirstCheckSetsTheBaseline(s: State, events: seq<Event>, uri: string, own: nat, found: string)
    requires Inv(s) && uri in s.fingerprints && s.fingerprints[uri].None?
    requires own in s.refreshes && s.refreshes[own] == Refresh(uri, Checking)
    requires Alone(s, events, uri, own)
    ensures var after := Run(s, events);
            var answered := Step(after, Checked(own, Some(found)));
            answered.log == after.log + [Recorded(uri, found)]
            && uri in answered.fingerprints && answered.fingerprints[uri] == Some(found)
    decreases |events|
  {
    if events != [] {
      hide Step, Inv;
      OneStepAlone(s, events[0], uri, own);
      StepKeeps(s, events[0]);
      FirstCheckSetsTheBaseline(Step(s, events[0]), events[1..], uri, own, found);
    }
  }

  lemma {:induction false} OneStepAlone(s: State, e: Event, uri: string, own: nat)
    requires Inv(s) && uri in s.fingerprints && s.fingerprints[uri].None?
    requires own in s.refreshes && s.refreshes[own] == Refresh(uri, Checking)
    requires forall id :: id in s.refreshes && s.refreshes[id].uri == uri ==> id == own
    requires !(e.Checked? && e.refresh == own) && uri in Step(s, e).fingerprints
    ensures Step(s, e).fingerprints[uri].None?
    ensures own in Step(s, e).refreshes && Step(s, e).refreshes[own] == Refresh(uri, Checking)
  {
    hide Lists, View, Sound;
  }

  /** The refreshes of this URI in flight are all among those of before. */
  ghost predicate BeginsNone(before: State, after: State, uri: string) {
    forall id :: id in after.refreshes && after.refreshes[id].uri == uri ==>
      id in before.refreshes && before.refreshes[id].uri == uri
  }

  /** Along the run, the subscription lasts, its own check is not answered, and no further refresh of its URI begins. */
  ghost predicate Lasting(s: State, events: seq<Event>, uri: string, own: nat)
    decreases |events|
  {
    events == [] ||
    (&& events[0] != Unsubscribe(uri) && events[0] != Stop
     && !(events[0].Checked? && events[0].refresh == own)
     && BeginsNone(s, Step(s, events[0]), uri)
     && Lasting(Step(s, events[0]), events[1..], uri, own))
  }

  /** After such a run the subscription's own check, finding this, announces a change. */
  ghost predicate AnnouncesAfter(s: State, events: seq<Event>, uri: string, own: nat, found: string) {
    && Lasting(s, events, uri, own)
    && var after := Run(s, events);
       Step(after, Checked(own, Some(found))).log == after.log + [Announced(uri, found)]
  }

  ghost predicate OtherInFlight(s: State, uri: string, own: nat) {
    exists other :: other in s.refreshes && other != own && s.refreshes[other].uri == uri
  }

  lemma {:induction false} StepLasts(s: State, e: Event, uri: string)
    requires uri in s.fingerprints && e != Unsubscribe(uri) && e != Stop
    ensures uri in Step(s, e).fingerprints
  {
    hide Lists;
  }

  lemma {:induction false} LastingIsAlone(s: State, events: seq<Event>, uri: string, own: nat)
    requires uri in s.fingerprints && Lasting(s, events, uri, own) && !OtherInFlight(s, uri, own)
    ensures Alone(s, events, uri, own)
    decreases |events|
  {
    hide Step;
    if events != [] {
      StepLasts(s, events[0], uri);
      var after := Step(s, events[0]);
      assert !OtherInFlight(after, uri, own);
      LastingIsAlone(after, events[1..], uri, own);
    }
  }

  lemma {:induction false} OneEvent(s: State, e: Event, uri: string, own: nat)
    ensures Run(s, [e]) == Step(s, e)
    ensures e != Unsubscribe(uri) && e != Stop && !(e.Checked? && e.refresh == own) && BeginsNone(s, Step(s, e), uri)
            ==> Lasting(s, [e], uri, own)
  {
    hide Step;
    var none: seq<Event> := [];
    assert [e][1..] == none;
    assert Run(Step(s, e), none) == Step(s, e) && Lasting(Step(s, e), none, uri, own);
  }

  lemma {:induction false} RecordedIsNotAnnounced(log: seq<Entry>, uri: string, found: string)
    ensures log + [Recorded(uri, found)] != log + [Announced(uri, found)]
  {
    assert (log + [Recorded(uri, found)])[|log|] != (log + [Announced(uri, found)])[|log|];
  }

  /** Another refresh of the URI, wherever it stands, can set the baseline the own check then differs from. */
  lemma {:induction false} OtherRefreshSetsTheBaseline(s: State, uri: string, own: nat, other: nat)
    requires uri in s.fingerprints && s.fingerprints[uri].None?
    requires own in s.refreshes && s.refreshes[own] == Refresh(uri, Checking)
    requires other in s.refreshes && other != own && s.refreshes[other].uri == uri
    ensures exists e, found :: AnnouncesAfter(s, [e], uri, own, found)
  {
    hide Lists;
    var baseline := if s.refreshes[other].phase.Checking? then "old" else s.refreshes[other].phase.found;
    var e := if s.refreshes[other].phase.Checking? then Checked(other, Some(baseline)) else Notified(other, true);
    var found := baseline + "!";
    var after := Step(s, e);
    assert after.fingerprints == s.fingerprints[uri := Some(baseline)];
    OneEvent(s, e, uri, own);
    assert own in after.refreshes && after.refreshes[own] == Refresh(uri, Checking);
    assert |found| != |baseline|;
    assert AnnouncesAfter(s, [e], uri, own, found);
  }

  /**
   A new subscription's first check can announce a change exactly when another refresh
   of its URI is in flight: with none, whatever happens until it answers, it only sets
   the baseline; with any, one answer to that is enough.
   */
  lemma {:induction false} FirstCheckAnnouncesExactly(s: State, uri: string, own: nat)
    requires Inv(s) && uri in s.fingerprints && s.fingerprints[uri].None?
    requires own in s.refreshes && s.refreshes[own] == Refresh(uri, Checking)
    ensures (exists events, found :: AnnouncesAfter(s, events, uri, own, found)) <==> OtherInFlight(s, uri, own)
  {
    hide Step, Inv;
    if OtherInFlight(s, uri, own) {
      var other :| other in s.refreshes && other != own && s.refreshes[other].uri == uri;
      OtherRefreshSetsTheBaseline(s, uri, own, other);
    } else {
      forall events, found ensures !AnnouncesAfter(s, events, uri, own, found) {
        if AnnouncesAfter(s, events, uri, own, found) {
          LastingIsAlone(s, events, uri, own);
          FirstCheckSetsTheBaseline(s, events, uri, own, found);
          RecordedIsNotAnnounced(Run(s, events).log, uri, found);
        }
      }
    }
  }

  /**
   Such a refresh is there whenever a subscription is renewed while a check is out: a
   run of five events that announces a change on the first check.
   */
  lemma {:induction false} LeftoverCheckSetsTheBaseline(uri: string)
    ensures var events := [Subscribe(uri), Unsubscribe(uri), Subscribe(uri), Checked(0, Some("old")), Checked(1, Some("new"))];
            Run(START, events).log
            == [Subscribed(uri), Ended(uri), Subscribed(uri), Recorded(uri, "old"), Announced(uri, "new")]
  {
    var s1 := Step(START, Subscribe(uri));
    assert s1.log == [Subscribed(uri)] && s1.refreshes[0] == Refresh(uri, Checking) && s1.next == 1;
    var s2 := Step(s1, Unsubscribe(uri));
    assert s2.fingerprints == map[] && s2.log == [Subscribed(uri), Ended(uri)];
    var s3 := Step(s2, Subscribe(uri));
    assert s3.log == [Subscribed(uri), Ended(uri), Subscribed(uri)];
    assert s3.refreshes[0] == s3.refreshes[1] == Refresh(uri, Checking) && s3.fingerprints[uri] == None;
    var s4 := Step(s3, Checked(0, Some("old")));
    assert s4.log == [Subscribed(uri), Ended(uri), Subscribed(uri), Recorded(uri, "old")];
    var s5 := Step(s4, Checked(1, Some("new")));
    RunFive(START, Subscribe(uri), Unsubscribe(uri), Subscribe(uri), Checked(0, Some("old")), Checked(1, Some("new")));
  }

  lemma {:induction false} RunFive(s: State, a: Event, b: Event, c: Event, d: Event, e: Event)
    ensures Run(s, [a, b, c, d, e]) == Step(Step(Step(Step(Step(s, a), b), c), d), e)
  {
    hide Step;
    var sa := Step(s, a);
    var sb := Step(sa, b);
    var sc := Step(sb, c);
    var sd := Step(sc, d);
    assert [e][1..] == [] && Run(sd, [e]) == Step(sd, e);
    assert [d, e][1..] == [e] && Run(sc, [d, e]) == Run(sd, [e]);
    assert [c, d, e][1..] == [d, e] && Run(sb, [c, d, e]) == Run(sc, [d, e]);
    assert [b, c, d, e][1..] == [c, d, e] && Run(sa, [b, c, d, e]) == Run(sb, [c, d, e]);
    assert [a, b, c, d, e][1..] == [b, c, d, e];
  }
}
