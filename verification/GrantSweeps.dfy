/**
 What a sweep of the grant registry leaves behind (`sweep` in
 `src/utils/grant-registry.ts`), whatever else happens between its turns.
 */
module GrantSweeps {
  import opened Options
  import opened GrantRegistry

  /** If this key still has this entry, it was active after the cutoff. */
  ghost predicate Active(s: State, key: string, entry: nat, cutoff: int) {
    key in s.slots && s.slots[key].entry == entry ==> s.slots[key].lastActivity > cutoff
  }

  /** The sweep has yet to look at this slot. */
  ghost predicate Waiting(s: State, sweep: nat, key: string, entry: nat, cutoff: int) {
    sweep in s.sweeps && s.sweeps[sweep].cutoff == cutoff && (key, entry) in s.sweeps[sweep].rest
  }

  /** A slot's clock only moves forward as long as it holds the same entry. */
  lemma {:induction false} StaysActive(s: State, e: Event, key: string, entry: nat, cutoff: int)
    requires Inv(s) && entry in s.entries && Active(s, key, entry, cutoff)
    ensures entry in Step(s, e).entries && Active(Step(s, e), key, entry, cutoff)
  {
    hide ClosedOnce, CountsSound, SweepsSound, Lists, Expired, ArriveStep;
    if e.Arrive? { ArrivalKeepsActive(s, e.key, e.subject, e.counted, key, entry, cutoff); }
  }

  lemma {:induction false} ArrivalKeepsActive(s: State, arrives: string, subject: string, counted: bool, key: string,
                                              entry: nat, cutoff: int)
    requires Inv(s) && entry in s.entries && Active(s, key, entry, cutoff)
    ensures var after := ArriveStep(s, arrives, subject, counted); entry in after.entries && Active(after, key, entry, cutoff)
  {
    hide ClosedOnce, CountsSound, SweepsSound;
  }

  /** Its own turn apart, a sweep stays as it is. */
  lemma {:induction false} KeepsWaiting(s: State, e: Event, sweep: nat, key: string, entry: nat, cutoff: int)
    requires Inv(s) && Waiting(s, sweep, key, entry, cutoff) && e != SweepGoesOn(sweep)
    ensures Waiting(Step(s, e), sweep, key, entry, cutoff)
  {
    hide ClosedOnce, CountsSound, SlotsSound, Lists, Expired;
  }

  lemma {:induction false} Turn(s: State, sweep: nat, key: string, entry: nat, cutoff: int)
    requires Inv(s) && Waiting(s, sweep, key, entry, cutoff)
    ensures var after := Step(s, SweepGoesOn(sweep));
            Waiting(after, sweep, key, entry, cutoff) || Active(after, key, entry, cutoff)
  {
    hide ClosedOnce, CountsSound, SlotsSound, SweepsSound;
    var rest := s.sweeps[sweep].rest;
    assert rest == [rest[0]] + rest[1..];
  }

  lemma {:induction false} StepSettles(s: State, e: Event, sweep: nat, key: string, entry: nat, cutoff: int)
    requires Inv(s) && entry in s.entries
    requires Waiting(s, sweep, key, entry, cutoff) || Active(s, key, entry, cutoff)
    ensures entry in Step(s, e).entries
    ensures Waiting(Step(s, e), sweep, key, entry, cutoff) || Active(Step(s, e), key, entry, cutoff)
  {
    hide Inv, Step, Waiting, Active;
    EntriesStay(s, e);
    if Active(s, key, entry, cutoff) {
      StaysActive(s, e, key, entry, cutoff);
    } else if e == SweepGoesOn(sweep) {
      Turn(s, sweep, key, entry, cutoff);
    } else {
      KeepsWaiting(s, e, sweep, key, entry, cutoff);
    }
  }

  lemma {:induction false} RunSettles(s: State, events: seq<Event>, sweep: nat, key: string, entry: nat, cutoff: int)
    requires Inv(s) && entry in s.entries
    requires Waiting(s, sweep, key, entry, cutoff) || Active(s, key, entry, cutoff)
    ensures Waiting(Run(s, events), sweep, key, entry, cutoff) || Active(Run(s, events), key, entry, cutoff)
    decreases |events|
  {
    hide Inv, Step, Waiting, Active;
    if events != [] {
      StepKeeps(s, events[0]);
      StepSettles(s, events[0], sweep, key, entry, cutoff);
      RunSettles(Step(s, events[0]), events[1..], sweep, key, entry, cutoff);
    }
  }

  lemma {:induction false} StartWaits(s: State, order: seq<string>, key: string)
    requires Lists(order, s.slots) && key in s.slots
    ensures Waiting(Step(s, SweepStarts(order)), s.next, key, s.slots[key].entry, s.clock - s.idle)
    ensures Step(s, SweepStarts(order)).entries == s.entries
  {
    assert key in (set k | k in order);
    var i :| 0 <= i < |order| && order[i] == key;
    assert Snapshot(order, s.slots)[i] == (key, s.slots[key].entry);
  }

  /**
   When a sweep is over, no slot it started from is left that had then been idle for the
   timeout and was not used since: whatever still holds its entry was active later.
   */
  lemma {:induction false} SweepLeavesNoneIdle(s: State, order: seq<string>, events: seq<Event>, key: string)
    requires Inv(s) && Lists(order, s.slots) && key in s.slots
    requires s.next !in Run(Step(s, SweepStarts(order)), events).sweeps
    ensures var after := Run(Step(s, SweepStarts(order)), events);
            key in after.slots && after.slots[key].entry == s.slots[key].entry ==>
              after.slots[key].lastActivity > s.clock - s.idle
  {
    hide Inv, Step, Run, Lists;
    var started := Step(s, SweepStarts(order));
    StartWaits(s, order, key);
    StepKeeps(s, SweepStarts(order));
    SlotsKnown(s, key);
    RunSettles(started, events, s.next, key, s.slots[key].entry, s.clock - s.idle);
  }

  lemma {:induction false} SlotsKnown(s: State, key: string)
    requires Inv(s) && key in s.slots
    ensures s.slots[key].entry in s.entries
  {
  }

  /** Closing everything leaves no slot, and every entry there ever was closed exactly once. */
  lemma {:induction false} NothingIsLeftOpen(s: State)
    requires Inv(s)
    ensures var after := Step(s, CloseAll);
            && after.slots == map[] && after.entries.Keys == s.entries.Keys
            && forall e :: e in after.entries ==> after.entries[e].closes == 1
  {
    StepKeeps(s, CloseAll);
    var after := Step(s, CloseAll);
    forall e | e in after.entries ensures after.entries[e].closes == 1 {
      assert !Held(after.slots, e);
    }
  }
}
