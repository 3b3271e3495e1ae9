/**
 What the HTTP transport keeps per grant (`src/utils/grant-registry.ts`) and how
 requests use it (`serveModern` in `src/transports/http.ts`), as a step system:
 requests, revocations, sweeps and closes interleave at every `await`.
 */
module GrantRegistry {
  import opened Options

  datatype Slot = Slot(subject: string, entry: nat, lastActivity: int)

  /** `closes` counts the calls of the entry's `close`. */
  datatype Entry = Entry(revoked: bool, inFlight: int, closes: nat)

  datatype Request = Request(key: string, entry: nat, counted: bool)

  /** A sweep between two closes: the slots it has yet to look at, and how long the history was when it began. */
  datatype Sweep = Sweep(cutoff: int, rest: seq<(string, nat)>, since: nat)

  datatype State = State(
    idle: nat,
    clock: int,
    slots: map<string, Slot>,
    entries: map<nat, Entry>,
    requests: map<nat, Request>,
    sweeps: map<nat, Sweep>,
    next: nat,
    acquired: seq<nat>)

  datatype Event =
    | TimePasses(ms: nat)
    | Arrive(key: string, subject: string, counted: bool)
    | Answered(request: nat)
    | Unauthorized(entry: nat)
    | CloseGrant(key: string)
    | SweepStarts(order: seq<string>)
    | SweepGoesOn(sweep: nat)
    | CloseAll

  // ----- Steps --------------------------------------------------------------------------

  function Start(idle: nat, clock: int): State { State(idle, clock, map[], map[], map[], map[], 0, []) }

  /** The key is held by another subject. */
  predicate Refuses(s: State, key: string, subject: string) { key in s.slots && s.slots[key].subject != subject }

  function Acquire(s: State, key: string, subject: string): (after: State)
    requires !Refuses(s, key, subject)
    ensures key in after.slots
  {
    var created := if key in s.slots then s
                   else s.(entries := s.entries[s.next := Entry(false, 0, 0)], next := s.next + 1);
    var entry := if key in s.slots then s.slots[key].entry else s.next;
    created.(slots := s.slots[key := Slot(subject, entry, s.clock)], acquired := s.acquired + [entry])
  }

  /** A request on the entry it acquired; a listen stream is not counted. */
  function Serve(s: State, key: string, counted: bool): State
    requires key in s.slots && s.slots[key].entry in s.entries
  {
    var entry := s.slots[key].entry;
    var e := s.entries[entry];
    s.(requests := s.requests[s.next := Request(key, entry, counted)], next := s.next + 1,
       entries := if counted then s.entries[entry := e.(inFlight := e.inFlight + 1)] else s.entries)
  }

  function ArriveStep(s: State, key: string, subject: string, counted: bool): State {
    if Refuses(s, key, subject) then s
    else
      var acquired := Acquire(s, key, subject);
      if acquired.slots[key].entry in acquired.entries then Serve(acquired, key, counted) else acquired
  }

  function Drop(s: State, key: string): State
    requires key in s.slots
  {
    var entry := s.slots[key].entry;
    s.(slots := s.slots - {key},
       entries := if entry in s.entries then s.entries[entry := s.entries[entry].(closes := s.entries[entry].closes + 1)]
                  else s.entries)
  }

  /** The key's slot is dropped if it still holds this entry. */
  function CloseIfCurrent(s: State, key: string, entry: nat): State {
    if key in s.slots && s.slots[key].entry == entry then Drop(s, key) else s
  }

  /** A request is over: it no longer counts. */
  function Leave(s: State, request: nat): State
    requires request in s.requests
  {
    var r := s.requests[request];
    s.(requests := s.requests - {request},
       entries := if r.counted && r.entry in s.entries
                  then s.entries[r.entry := s.entries[r.entry].(inFlight := s.entries[r.entry].inFlight - 1)]
                  else s.entries)
  }

  predicate Due(s: State, entry: nat) {
    entry in s.entries && s.entries[entry].revoked && s.entries[entry].inFlight == 0
  }

  function AnsweredStep(s: State, request: nat): State {
    if request !in s.requests then s
    else
      var r, left := s.requests[request], Leave(s, request);
      if Due(left, r.entry) then CloseIfCurrent(left, r.key, r.entry) else left
  }

  predicate Lists(order: seq<string>, slots: map<string, Slot>) {
    && (set key | key in order) == slots.Keys
    && forall i, j :: 0 <= i < j < |order| ==> order[i] != order[j]
  }

  function Snapshot(order: seq<string>, slots: map<string, Slot>): seq<(string, nat)>
    requires forall key :: key in order ==> key in slots
  {
    seq(|order|, i requires 0 <= i < |order| => (order[i], slots[order[i]].entry))
  }

  function SweepStartsStep(s: State, order: seq<string>): State {
    if !Lists(order, s.slots) then s
    else
      s.(sweeps := s.sweeps[s.next := Sweep(s.clock - s.idle, Snapshot(order, s.slots), |s.acquired|)], next := s.next + 1)
  }

  /** The slot seen at the start is still the key's, and idle since the cutoff. */
  predicate Expired(s: State, sweep: Sweep) {
    sweep.rest != [] &&
    var (key, entry) := sweep.rest[0];
    key in s.slots && s.slots[key].entry == entry && s.slots[key].lastActivity <= sweep.cutoff
  }

  function SweepGoesOnStep(s: State, sweep: nat): State {
    if sweep !in s.sweeps then s
    else
      var w := s.sweeps[sweep];
      var left := s.(sweeps := if w.rest == [] then s.sweeps - {sweep} else s.sweeps[sweep := w.(rest := w.rest[1..])]);
      if Expired(s, w) then Drop(left, w.rest[0].0) else left
  }

  function CloseAllStep(s: State): State {
    var open := set key | key in s.slots :: s.slots[key].entry;
    s.(slots := map[],
       entries := map e | e in s.entries ::
         if e in open then s.entries[e].(closes := s.entries[e].closes + 1) else s.entries[e])
  }

  function Step(s: State, e: Event): State {
    match e
    case TimePasses(ms) => s.(clock := s.clock + ms)
    case Arrive(key, subject, counted) => ArriveStep(s, key, subject, counted)
    case Answered(request) => AnsweredStep(s, request)
    case Unauthorized(entry) =>
      if entry in s.entries then s.(entries := s.entries[entry := s.entries[entry].(revoked := true)]) else s
    case CloseGrant(key) => if key in s.slots then Drop(s, key) else s
    case SweepStarts(order) => SweepStartsStep(s, order)
    case SweepGoesOn(sweep) => SweepGoesOnStep(s, sweep)
    case CloseAll => CloseAllStep(s)
  }

  function Run(s: State, events: seq<Event>): State
    decreases |events|
  {
    if events == [] then s else Run(Step(s, events[0]), events[1..])
  }

  // ----- The registry and its transport ---------------------------------------------------------

  class Registry {
    const idle: nat
    var clock: int
    var slots: map<string, Slot>
    var entries: map<nat, Entry>
    var requests: map<nat, Request>
    var sweeps: map<nat, Sweep>
    var next: nat
    var acquired: seq<nat>

    function Now(): State
      reads this
    {
      State(idle, clock, slots, entries, requests, sweeps, next, acquired)
    }

    constructor (idle: nat, clock: int)
      ensures Now() == Start(idle, clock)
    {
      this.idle, this.clock, slots, entries, requests := idle, clock, map[], map[], map[];
      sweeps, next, acquired := map[], 0, [];
    }

    method AcquireEntry(key: string, subject: string) returns (entry: Option<nat>)
      modifies this
      ensures entry.None? <==> old(Refuses(Now(), key, subject))
      ensures Now() == if entry.None? then old(Now()) else Acquire(old(Now()), key, subject)
      ensures entry.Some? ==> key in slots && slots[key].entry == entry.value
    {
      if key in slots && slots[key].subject != subject { return None; }
      var e := if key in slots then slots[key].entry else next;
      if key !in slots {
        entries := entries[e := Entry(false, 0, 0)];
        next := next + 1;
      }
      slots := slots[key := Slot(subject, e, clock)];
      acquired := acquired + [e];
      return Some(e);
    }

    /** `serveModern` up to the handler; a refused request leaves nothing behind. */
    method ServeModern(key: string, subject: string, counted: bool) returns (request: Option<nat>)
      modifies this
      ensures Now() == Step(old(Now()), Arrive(key, subject, counted))
      ensures request.Some? ==> request.value in requests && requests[request.value].key == key
    {
      var entry := AcquireEntry(key, subject);
      if entry.None? || entry.value !in entries { return None; }
      requests := requests[next := Request(key, entry.value, counted)];
      request := Some(next);
      next := next + 1;
      if counted {
        var e := entries[entry.value];
        entries := entries[entry.value := e.(inFlight := e.inFlight + 1)];
      }
    }

    method DropSlot(key: string)
      requires key in slots
      modifies this`slots, this`entries
      ensures Now() == Drop(old(Now()), key)
    {
      var entry := slots[key].entry;
      slots := slots - {key};
      if entry in entries { entries := entries[entry := entries[entry].(closes := entries[entry].closes + 1)]; }
    }

    /** `close`, given an entry or not. */
    method CloseGrant(key: string, entry: Option<nat>)
      modifies this`slots, this`entries
      ensures Now() == if entry.Some? then CloseIfCurrent(old(Now()), key, entry.value)
                       else Step(old(Now()), Event.CloseGrant(key))
    {
      if key in slots && (entry.None? || slots[key].entry == entry.value) { DropSlot(key); }
    }

    /** The `finally` of `serveModern`. */
    method Answer(request: nat)
      modifies this
      ensures Now() == Step(old(Now()), Answered(request))
    {
      if request !in requests { return; }
      var r := requests[request];
      requests := requests - {request};
      if r.entry !in entries { return; }
      if r.counted { entries := entries[r.entry := entries[r.entry].(inFlight := entries[r.entry].inFlight - 1)]; }
      if entries[r.entry].revoked && entries[r.entry].inFlight == 0 { CloseGrant(r.key, Some(r.entry)); }
    }

    method OnUnauthorized(entry: nat)
      modifies this`entries
      ensures Now() == Step(old(Now()), Unauthorized(entry))
    {
      if entry in entries { entries := entries[entry := entries[entry].(revoked := true)]; }
    }

    method StartSweep(order: seq<string>)
      requires Lists(order, slots)
      modifies this`sweeps, this`next
      ensures Now() == Step(old(Now()), SweepStarts(order))
    {
      assert forall key :: key in order ==> key in (set k | k in order);
      sweeps := sweeps[next := Sweep(clock - idle, Snapshot(order, slots), |acquired|)];
      next := next + 1;
    }

    /** One turn of a sweep's loop, which drops the slot it looks at or passes it by. */
    method ContinueSweep(sweep: nat)
      modifies this
      ensures Now() == Step(old(Now()), SweepGoesOn(sweep))
    {
      if sweep !in sweeps { return; }
      var w := sweeps[sweep];
      if w.rest == [] {
        sweeps := sweeps - {sweep};
        return;
      }
      sweeps := sweeps[sweep := w.(rest := w.rest[1..])];
      var (key, entry) := w.rest[0];
      if key in slots && slots[key].entry == entry && slots[key].lastActivity <= w.cutoff { DropSlot(key); }
    }
  }

  // ----- What every step keeps ----------------------------------------------------------------

  /** The counted requests in flight on an entry. */
  ghost function CountedOn(requests: map<nat, Request>, entry: nat): set<nat> {
    set r | r in requests && requests[r].entry == entry && requests[r].counted
  }

  /** Some key holds this entry. */
  ghost predicate Held(slots: map<string, Slot>, entry: nat) {
    exists key :: key in slots && slots[key].entry == entry
  }

  /** Keys hold different entries, all of them known, none used in the future; requests know their entry's key. */
  ghost predicate SlotsSound(s: State) {
    && (forall r, key :: r in s.requests && key in s.slots && s.slots[key].entry == s.requests[r].entry ==> key == s.requests[r].key)
    && (forall key :: key in s.slots ==> s.slots[key].entry in s.entries && s.slots[key].lastActivity <= s.clock)
    && (forall key, other :: key in s.slots && other in s.slots && s.slots[key].entry == s.slots[other].entry ==> key == other)
  }

  /** An entry is never closed while a key holds it, and closed once when none does any more. */
  ghost predicate ClosedOnce(s: State) {
    forall e :: e in s.entries ==> s.entries[e].closes == if Held(s.slots, e) then 0 else 1
  }

  ghost predicate CountsSound(s: State) {
    && (forall r :: r in s.requests ==> s.requests[r].entry in s.entries)
    && (forall e :: e in s.entries ==> s.entries[e].inFlight == |CountedOn(s.requests, e)|)
  }

  ghost predicate IdsSound(s: State) {
    && (forall e :: e in s.entries ==> e < s.next)
    && (forall r :: r in s.requests ==> r < s.next)
    && (forall w :: w in s.sweeps ==> w < s.next)
    && (forall e :: e in s.acquired ==> e in s.entries)
  }

  /** An entry acquired since a sweep began has been active since then. */
  ghost predicate SweepsSound(s: State) {
    forall w :: w in s.sweeps ==>
      && s.sweeps[w].since <= |s.acquired|
      && s.sweeps[w].cutoff + s.idle <= s.clock
      && forall key :: key in s.slots && s.slots[key].entry in s.acquired[s.sweeps[w].since..] ==>
           s.slots[key].lastActivity >= s.sweeps[w].cutoff + s.idle
  }

  ghost predicate Inv(s: State) {
    SlotsSound(s) && ClosedOnce(s) && CountsSound(s) && IdsSound(s) && SweepsSound(s)
  }

  lemma {:induction false} AcquireKeeps(s: State, key: string, subject: string)
    requires Inv(s) && !Refuses(s, key, subject)
    ensures Inv(Acquire(s, key, subject))
  {
    hide CountedOn, SweepsSound, ClosedOnce;
    AcquireKeepsClosed(s, key, subject);
    AcquireKeepsCounts(s, key, subject);
    AcquireKeepsSweeps(s, key, subject);
  }

  lemma {:induction false} AcquireKeepsClosed(s: State, key: string, subject: string)
    requires Inv(s) && !Refuses(s, key, subject)
    ensures ClosedOnce(Acquire(s, key, subject))
  {
    hide CountsSound, SweepsSound, CountedOn;
    var after := Acquire(s, key, subject);
    var entry := after.slots[key].entry;
    assert Held(after.slots, entry);
    forall e | e in s.entries && e != entry ensures Held(after.slots, e) <==> Held(s.slots, e) {
      assert forall k :: k in s.slots && k != key ==> after.slots[k] == s.slots[k];
      if Held(s.slots, e) {
        var k :| k in s.slots && s.slots[k].entry == e;
        assert after.slots[k].entry == e;
      }
    }
  }

  lemma {:induction false} AcquireKeepsCounts(s: State, key: string, subject: string)
    requires Inv(s) && !Refuses(s, key, subject)
    ensures CountsSound(Acquire(s, key, subject))
  {
    hide ClosedOnce, SweepsSound, SlotsSound;
    if key !in s.slots { assert CountedOn(s.requests, s.next) == {}; }
  }

  lemma {:induction false} AcquireKeepsSweeps(s: State, key: string, subject: string)
    requires Inv(s) && !Refuses(s, key, subject)
    ensures SweepsSound(Acquire(s, key, subject))
  {
    hide ClosedOnce, CountsSound;
    var after := Acquire(s, key, subject);
    forall w, k | w in s.sweeps && k in after.slots && after.slots[k].entry in after.acquired[s.sweeps[w].since..]
      ensures after.slots[k].lastActivity >= s.sweeps[w].cutoff + s.idle
    {
      var since := s.sweeps[w].since;
      assert after.acquired[since..] == s.acquired[since..] + [after.slots[key].entry];
      if k != key { assert s.slots[k].entry in s.acquired[since..]; }
    }
  }

  lemma {:induction false} OneMoreCounted(requests: map<nat, Request>, id: nat, r: Request, entry: nat)
    requires id !in requests
    ensures |CountedOn(requests[id := r], entry)| == |CountedOn(requests, entry)| + if r.counted && entry == r.entry then 1 else 0
  {
    var before, after := CountedOn(requests, entry), CountedOn(requests[id := r], entry);
    assert after == before + if r.counted && entry == r.entry then {id} else {};
  }

  lemma {:induction false} OneLessCounted(requests: map<nat, Request>, id: nat, entry: nat)
    requires id in requests
    ensures |CountedOn(requests - {id}, entry)|
            == |CountedOn(requests, entry)| - if requests[id].counted && entry == requests[id].entry then 1 else 0
  {
    var before, after := CountedOn(requests, entry), CountedOn(requests - {id}, entry);
    assert after == before - if requests[id].counted && entry == requests[id].entry then {id} else {};
  }

  /** Slots and how often each entry was closed are untouched. */
  lemma {:induction false} SameCloses(s: State, after: State)
    requires ClosedOnce(s) && after.slots == s.slots && after.entries.Keys == s.entries.Keys
    requires forall e :: e in s.entries ==> after.entries[e].closes == s.entries[e].closes
    ensures ClosedOnce(after)
  {
  }

  lemma {:induction false} ServeKeeps(s: State, key: string, counted: bool)
    requires Inv(s) && key in s.slots && s.slots[key].entry in s.entries
    ensures Inv(Serve(s, key, counted))
  {
    hide SweepsSound, ClosedOnce, CountedOn;
    var after := Serve(s, key, counted);
    forall e | e in s.entries ensures after.entries[e].inFlight == |CountedOn(after.requests, e)| {
      OneMoreCounted(s.requests, s.next, Request(key, s.slots[key].entry, counted), e);
    }
    SameCloses(s, after);
    SameSweeps(s, after);
  }

  /** What sweeps rely on is untouched. */
  lemma {:induction false} SameSweeps(s: State, after: State)
    requires SweepsSound(s)
    requires after.sweeps == s.sweeps && after.acquired == s.acquired && after.idle == s.idle && after.clock >= s.clock
    requires forall key :: key in after.slots ==> key in s.slots && after.slots[key] == s.slots[key]
    ensures SweepsSound(after)
  {
  }

  lemma {:induction false} DropKeeps(s: State, key: string)
    requires Inv(s) && key in s.slots
    ensures Inv(Drop(s, key))
    ensures s.entries[s.slots[key].entry].closes == 0
  {
    hide SweepsSound, CountedOn;
    var after := Drop(s, key);
    var entry := s.slots[key].entry;
    assert Held(s.slots, entry) && !Held(after.slots, entry);
    forall e | e in s.entries && e != entry ensures Held(after.slots, e) <==> Held(s.slots, e) {
      if Held(s.slots, e) {
        var k :| k in s.slots && s.slots[k].entry == e;
        assert k in after.slots;
      }
    }
    SameSweeps(s, after);
  }

  lemma {:induction false} LeaveKeeps(s: State, request: nat)
    requires Inv(s) && request in s.requests
    ensures Inv(Leave(s, request))
  {
    hide SweepsSound, ClosedOnce, CountedOn;
    var after := Leave(s, request);
    forall e | e in s.entries ensures after.entries[e].inFlight == |CountedOn(after.requests, e)| {
      OneLessCounted(s.requests, request, e);
    }
    SameCloses(s, after);
    SameSweeps(s, after);
  }

  lemma {:induction false} SweepStartsKeeps(s: State, order: seq<string>)
    requires Inv(s)
    ensures Inv(SweepStartsStep(s, order))
  {
    hide ClosedOnce, CountedOn, Lists;
    if Lists(order, s.slots) {
      var after := SweepStartsStep(s, order);
      assert s.acquired[|s.acquired|..] == [];
      SameCloses(s, after);
    }
  }

  lemma {:induction false} SweepMovesOn(s: State, sweep: nat)
    requires Inv(s) && sweep in s.sweeps
    ensures var w := s.sweeps[sweep];
            Inv(s.(sweeps := if w.rest == [] then s.sweeps - {sweep} else s.sweeps[sweep := w.(rest := w.rest[1..])]))
  {
    hide ClosedOnce, CountedOn;
    var w := s.sweeps[sweep];
    var after := s.(sweeps := if w.rest == [] then s.sweeps - {sweep} else s.sweeps[sweep := w.(rest := w.rest[1..])]);
    SameCloses(s, after);
  }

  lemma {:induction false} CloseAllKeeps(s: State)
    requires Inv(s)
    ensures Inv(CloseAllStep(s))
  {
    hide SweepsSound, CountedOn;
    var after := CloseAllStep(s);
    forall e | e in s.entries ensures after.entries[e].closes == 1 {
      if Held(s.slots, e) {
        var key :| key in s.slots && s.slots[key].entry == e;
      }
    }
    SameSweeps(s, after);
  }

  /** Every step of every interleaving keeps the invariant. */
  lemma {:induction false} StepKeeps(s: State, e: Event)
    requires Inv(s)
    ensures Inv(Step(s, e))
  {
    hide ClosedOnce, CountsSound, IdsSound, SweepsSound, Acquire, Serve, Drop, Leave, Expired, Lists;
    match e
    case Arrive(key, subject, counted) =>
      if !Refuses(s, key, subject) {
        AcquireKeeps(s, key, subject);
        var acquired := Acquire(s, key, subject);
        if acquired.slots[key].entry in acquired.entries { ServeKeeps(acquired, key, counted); }
      }
    case Answered(request) =>
      if request in s.requests {
        LeaveKeeps(s, request);
        var r, left := s.requests[request], Leave(s, request);
        if r.key in left.slots { DropKeeps(left, r.key); }
      }
    case CloseGrant(key) => if key in s.slots { DropKeeps(s, key); }
    case SweepStarts(order) => SweepStartsKeeps(s, order);
    case SweepGoesOn(sweep) => SweepGoesOnKeeps(s, sweep);
    case CloseAll => CloseAllKeeps(s);
    case _ => SmallStepKeeps(s, e);
  }

  lemma {:induction false} SweepGoesOnKeeps(s: State, sweep: nat)
    requires Inv(s)
    ensures Inv(SweepGoesOnStep(s, sweep))
  {
    hide SlotsSound, ClosedOnce, CountsSound, IdsSound, SweepsSound, Drop;
    if sweep in s.sweeps {
      SweepMovesOn(s, sweep);
      var w := s.sweeps[sweep];
      if Expired(s, w) {
        DropKeeps(s.(sweeps := if w.rest == [] then s.sweeps - {sweep} else s.sweeps[sweep := w.(rest := w.rest[1..])]),
                  w.rest[0].0);
      }
    }
  }

  lemma {:induction false} SmallStepKeeps(s: State, e: Event)
    requires Inv(s) && (e.TimePasses? || e.Unauthorized?)
    ensures Inv(Step(s, e))
  {
    hide CountedOn, ClosedOnce, SweepsSound;
    SameCloses(s, Step(s, e));
    SameSweeps(s, Step(s, e));
  }

  lemma {:induction false} RunKeeps(s: State, events: seq<Event>)
    requires Inv(s)
    ensures Inv(Run(s, events))
    decreases |events|
  {
    hide Inv, Step;
    if events != [] {
      StepKeeps(s, events[0]);
      RunKeeps(Step(s, events[0]), events[1..]);
    }
  }

  /**
   Over every interleaving from an empty registry: an entry some key holds is never
   closed, every other was closed exactly once, no two keys hold the same entry, and
   an entry's count is the number of its counted requests in flight.
   */
  lemma {:induction false} EveryRunClosesOnce(idle: nat, clock: int, events: seq<Event>)
    ensures var after := Run(Start(idle, clock), events);
            && (forall e :: e in after.entries ==>
                  && after.entries[e].closes == (if Held(after.slots, e) then 0 else 1)
                  && after.entries[e].inFlight == |CountedOn(after.requests, e)|)
            && (forall key, other ::
                  key in after.slots && other in after.slots && after.slots[key].entry == after.slots[other].entry ==>
                    key == other)
  {
    hide Step, Held, CountedOn;
    StartKeeps(idle, clock);
    RunKeeps(Start(idle, clock), events);
  }

  lemma {:induction false} StartKeeps(idle: nat, clock: int)
    ensures Inv(Start(idle, clock))
  {
  }

  // ----- What the invariant gives ------------------------------------------------------------------

  /** A key that holds an old entry after a step held it before, for the same subject. */
  lemma {:induction false} StepLooksBack(s: State, e: Event, key: string)
    requires Inv(s) && key in Step(s, e).slots && Step(s, e).slots[key].entry in s.entries
    ensures key in s.slots && s.slots[key].entry == Step(s, e).slots[key].entry
    ensures s.slots[key].subject == Step(s, e).slots[key].subject
  {
    hide ClosedOnce, CountsSound, SweepsSound, Lists, Expired;
  }

  /**
   An entry serves one key and one subject for as long as it is in the registry: no
   request of another subject, and no other grant, is ever given it.
   */
  lemma {:induction false} EntryServesOneSubject(s: State, events: seq<Event>, key: string)
    requires Inv(s) && key in Run(s, events).slots && Run(s, events).slots[key].entry in s.entries
    ensures key in s.slots && s.slots[key].entry == Run(s, events).slots[key].entry
    ensures s.slots[key].subject == Run(s, events).slots[key].subject
    decreases |events|
  {
    if events != [] {
      hide Step, Inv;
      StepKeeps(s, events[0]);
      EntriesStay(s, events[0]);
      EntryServesOneSubject(Step(s, events[0]), events[1..], key);
      StepLooksBack(s, events[0], key);
    }
  }

  lemma {:induction false} EntriesStay(s: State, e: Event)
    ensures forall entry :: entry in s.entries ==> entry in Step(s, e).entries
  {
    hide Lists, Expired;
  }

  /** A request of another subject changes nothing at all. */
  lemma {:induction false} OtherSubjectIsRefused(s: State, key: string, subject: string, counted: bool)
    requires Inv(s)
    ensures Refuses(s, key, subject) <==> Step(s, Arrive(key, subject, counted)) == s
  {
    hide ClosedOnce, CountsSound, SweepsSound;
  }

  /**
   A sweep only drops what nobody acquired, and nobody created, since it began: it
   looks at one slot at a time, closes wait in between, and the registry goes on living.
   */
  lemma {:induction false} SweepSparesTheUsed(s: State, sweep: nat, key: string)
    requires Inv(s) && s.idle > 0 && sweep in s.sweeps
    requires key in s.slots && key !in Step(s, SweepGoesOn(sweep)).slots
    ensures s.slots[key].entry !in s.acquired[s.sweeps[sweep].since..]
    ensures s.sweeps[sweep].rest != [] && s.sweeps[sweep].rest[0] == (key, s.slots[key].entry)
  {
    hide ClosedOnce, CountsSound;
  }

  /** With a timeout of zero it would not: an entry used again within the same tick is swept. */
  lemma {:induction false} ZeroTimeoutSweepsTheUsed(key: string, subject: string)
    ensures var s := Run(Start(0, 0), [Arrive(key, subject, true), SweepStarts([key]), Arrive(key, subject, true)]);
            && key in s.slots && 2 in s.sweeps && s.sweeps[2].since <= |s.acquired|
            && s.slots[key].entry in s.acquired[s.sweeps[2].since..]
            && key !in Step(s, SweepGoesOn(2)).slots
  {
    var a, b := Arrive(key, subject, true), SweepStarts([key]);
    RunThree(Start(0, 0), a, b, a);
    FirstRequest(key, subject);
    SweepOfOne(key, subject);
    var c := Step(Step(Step(Start(0, 0), a), b), a);
    assert c.slots == map[key := Slot(subject, 0, 0)] && c.acquired == [0, 0];
    assert c.acquired[1..] == [0];
  }

  lemma {:induction false} FirstRequest(key: string, subject: string)
    ensures Step(Start(0, 0), Arrive(key, subject, true))
            == State(0, 0, map[key := Slot(subject, 0, 0)], map[0 := Entry(false, 1, 0)],
                     map[1 := Request(key, 0, true)], map[], 2, [0])
  {
  }

  lemma {:induction false} SweepOfOne(key: string, subject: string)
    ensures var s := Step(Start(0, 0), Arrive(key, subject, true));
            Step(s, SweepStarts([key])) == s.(sweeps := map[2 := Sweep(0, [(key, 0)], 1)], next := 3)
  {
    hide Acquire, Serve;
    FirstRequest(key, subject);
    var s := Step(Start(0, 0), Arrive(key, subject, true));
    assert (set k | k in [key]) == s.slots.Keys;
    assert Snapshot([key], s.slots) == [(key, 0)];
  }

  lemma {:induction false} RunThree(s: State, a: Event, b: Event, c: Event)
    ensures Run(s, [a, b, c]) == Step(Step(Step(s, a), b), c)
  {
    hide Step;
    var sa := Step(s, a);
    var sb := Step(sa, b);
    assert [c][1..] == [] && Run(sb, [c]) == Step(sb, c);
    assert [b, c][1..] == [c] && Run(sa, [b, c]) == Run(sb, [c]);
    assert [a, b, c][1..] == [b, c];
  }

  /**
   The end of a request closes its entry exactly when the entry was revoked and no
   counted request is left on it, closes it once, and leaves every other slot alone,
   a newer entry of the same key included.
   */
  lemma {:induction false} LastAnswerClosesTheRevoked(s: State, request: nat)
    requires Inv(s) && request in s.requests
    ensures var entry, after := s.requests[request].entry, Step(s, Answered(request));
            && (Held(after.slots, entry) <==>
                  Held(s.slots, entry) && !(s.entries[entry].revoked && CountedOn(after.requests, entry) == {}))
            && (forall key :: key in s.slots && s.slots[key].entry != entry ==> key in after.slots && after.slots[key] == s.slots[key])
            && (Held(s.slots, entry) && !Held(after.slots, entry) ==> entry in after.entries && after.entries[entry].closes == 1)
  {
    hide ClosedOnce, SweepsSound, CountedOn;
    StepKeeps(s, Answered(request));
    LeaveKeeps(s, request);
    var r, left, after := s.requests[request], Leave(s, request), Step(s, Answered(request));
    assert left.slots == s.slots && after.requests == left.requests;
    assert left.entries[r.entry].inFlight == 0 <==> CountedOn(left.requests, r.entry) == {};
    assert Held(s.slots, r.entry) ==> r.key in s.slots && s.slots[r.key].entry == r.entry;
    if Held(s.slots, r.entry) && !Held(after.slots, r.entry) { ClosedNow(after, r.entry); }
  }

  lemma {:induction false} StepStaysRevoked(s: State, e: Event, entry: nat)
    requires Inv(s) && entry in s.entries && s.entries[entry].revoked
    ensures entry in Step(s, e).entries && Step(s, e).entries[entry].revoked
  {
    hide ClosedOnce, CountsSound, SweepsSound, SlotsSound, Lists, Expired;
  }

  lemma {:induction false} StaysRevoked(s: State, events: seq<Event>, entry: nat)
    requires Inv(s) && entry in s.entries && s.entries[entry].revoked
    ensures entry in Run(s, events).entries && Run(s, events).entries[entry].revoked
    decreases |events|
  {
    hide Inv, Step;
    if events != [] {
      StepKeeps(s, events[0]);
      StepStaysRevoked(s, events[0], entry);
      StaysRevoked(Step(s, events[0]), events[1..], entry);
    }
  }

  /**
   A 401 takes the entry away, though not at once: whatever happens after it, an end of
   a request that leaves no counted one on the entry closes it, and one that leaves some
   does not.
   */
  lemma {:induction false} UnauthorizedClosesAtTheEnd(s: State, entry: nat, events: seq<Event>, request: nat)
    requires Inv(s) && entry in s.entries
    requires var now := Run(Step(s, Unauthorized(entry)), events);
             request in now.requests && now.requests[request].entry == entry
    ensures Step(s, Unauthorized(entry)).slots == s.slots
    ensures var now := Run(Step(s, Unauthorized(entry)), events);
            var after := Step(now, Answered(request));
            && (Held(after.slots, entry) <==> Held(now.slots, entry) && CountedOn(after.requests, entry) != {})
            && (CountedOn(after.requests, entry) == {} ==> entry in after.entries && after.entries[entry].closes == 1)
  {
    hide Inv, Run, Held, CountedOn;
    var revoked := Step(s, Unauthorized(entry));
    RevokedAtOnce(s, entry);
    StepKeeps(s, Unauthorized(entry));
    StaysRevoked(revoked, events, entry);
    RunKeeps(revoked, events);
    var now := Run(revoked, events);
    hide Step;
    StepKeeps(now, Answered(request));
    EntriesStay(now, Answered(request));
    LastAnswerClosesTheRevoked(now, request);
    var after := Step(now, Answered(request));
    if !Held(after.slots, entry) { ClosedByNow(after, entry); }
  }

  lemma {:induction false} RevokedAtOnce(s: State, entry: nat)
    requires entry in s.entries
    ensures var after := Step(s, Unauthorized(entry));
            entry in after.entries && after.entries[entry].revoked && after.slots == s.slots
  {
  }

  lemma {:induction false} ClosedByNow(s: State, entry: nat)
    requires Inv(s) && entry in s.entries && !Held(s.slots, entry)
    ensures s.entries[entry].closes == 1
  {
    ClosedNow(s, entry);
  }

  lemma {:induction false} ClosedNow(s: State, entry: nat)
    requires ClosedOnce(s) && entry in s.entries && !Held(s.slots, entry)
    ensures s.entries[entry].closes == 1
  {
  }
}
