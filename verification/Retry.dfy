/**
 Retrying a Zendesk request (`src/client/retry.ts`) and what a failed write is
 told (`src/client/zendesk-api.ts`). The network is adversarial: every attempt's
 outcome, and whether the request was applied, is given.
 */
module Retry {
  import opened Options
  import opened JsText

  datatype Method = GET | POST | PUT | DELETE

  const MAX_ATTEMPTS := 3
  const BASE_DELAY_MS := 250
  const MAX_DELAY_MS := 4_000
  const MAX_RETRY_AFTER_MS := 5_000

  /** A `Retry-After` header, and what `Date.parse` makes of it. */
  datatype Header = Absent | Present(text: Text, date: Option<int>)

  /** What reading a response's body comes to: lost when it stalls past the deadline, is reset, or is not JSON where JSON is read. */
  datatype Body = Intact | Lost

  /**
   One attempt: a response, or a failure with the `code` found at each level of its
   cause chain. `applied` is what Zendesk did with the request, which no one sees.
   */
  datatype Attempt =
    | Response(status: nat, retryAfter: Header, body: Body, applied: bool)
    | Failure(codes: seq<Option<string>>, applied: bool)

  // ----- Classification -------------------------------------------------------------

  const PRE_SEND_CODES := {"ENOTFOUND", "EAI_AGAIN", "ECONNREFUSED", "UND_ERR_CONNECT_TIMEOUT"}

  /** The first string code of the cause chain, five levels deep at most. */
  function ErrorCode(codes: seq<Option<string>>, depth: nat): Option<string> {
    if depth == 0 || codes == [] then None
    else if codes[0].Some? then codes[0]
    else ErrorCode(codes[1..], depth - 1)
  }

  /** The request provably never reached Zendesk. */
  predicate PreSend(codes: seq<Option<string>>) {
    var code := ErrorCode(codes, 5);
    code.Some? && code.value in PRE_SEND_CODES
  }

  predicate AllDigits(t: Text) { t != [] && forall u :: u in t ==> IsDigit(u) }

  /** `Retry-After` in milliseconds: a number of seconds, or a date still to come. */
  function ParseRetryAfter(header: Header, now: int): Option<nat> {
    if header.Absent? then None
    else
      var value := Trim(header.text);
      if AllDigits(value) then Some(DecimalValue(value) * 1000)
      else if value == [] || !(IsLower(value[0]) || IsUpper(value[0])) || header.date.None? then None
      else Some(if header.date.value > now then header.date.value - now else 0)
  }

  function BackoffWindow(attempt: nat): nat
    requires attempt >= 1
  {
    if attempt == 1 then BASE_DELAY_MS
    else
      var wider := 2 * BackoffWindow(attempt - 1);
      if wider > MAX_DELAY_MS then MAX_DELAY_MS else wider
  }

  /** Half the window fixed, half random, rounded. */
  function BackoffMs(attempt: nat, random: real): int
    requires attempt >= 1
  {
    var window := BackoffWindow(attempt) as real;
    (window / 2.0 + window * random / 2.0 + 0.5).Floor
  }

  /** How long to wait before replaying after this outcome, or nothing to accept it. */
  function DelayAfter(verb: Method, a: Attempt, attempt: nat, random: real, now: int): Option<int>
    requires attempt >= 1
  {
    match a
    case Failure(codes, _) => if verb == GET || PreSend(codes) then Some(BackoffMs(attempt, random)) else None
    case Response(status, retryAfter, _, _) =>
      if !(status == 429 || (status >= 500 && verb == GET)) then None
      else
        var wait := ParseRetryAfter(retryAfter, now);
        if wait.None? then Some(BackoffMs(attempt, random))
        else if wait.value > MAX_RETRY_AFTER_MS then None
        else Some(wait.value)
  }

  // ----- The loop ----------------------------------------------------------------------

  /** What the outside does during one call: outcomes, random numbers and clock readings. */
  datatype Outside = Outside(attempts: seq<Attempt>, randoms: seq<real>, clock: seq<int>)

  predicate Complete(o: Outside) {
    && |o.attempts| == |o.randoms| == |o.clock| == MAX_ATTEMPTS
    && forall r :: r in o.randoms ==> 0.0 <= r < 1.0
  }

  function DelayAt(verb: Method, o: Outside, i: nat): Option<int>
    requires Complete(o) && i < MAX_ATTEMPTS
  {
    DelayAfter(verb, o.attempts[i], i + 1, o.randoms[i], o.clock[i])
  }

  /** The run made of the first `tries` attempts: each but the last replayed, the last accepted or the third. */
  ghost predicate IsRun(verb: Method, o: Outside, tries: nat, sleeps: seq<int>) {
    && Complete(o)
    && 1 <= tries <= MAX_ATTEMPTS && |sleeps| == tries - 1
    && (forall i :: 0 <= i < tries - 1 ==> DelayAt(verb, o, i) == Some(sleeps[i]))
    && (tries < MAX_ATTEMPTS ==> DelayAt(verb, o, tries - 1).None?)
  }

  method FetchWithRetry(verb: Method, o: Outside)
    returns (response: Option<Attempt>, tries: nat, sleeps: seq<int>)
    requires Complete(o)
    ensures IsRun(verb, o, tries, sleeps)
    ensures response == if o.attempts[tries - 1].Response? then Some(o.attempts[tries - 1]) else None
  {
    tries, sleeps := 1, [];
    while true
      invariant 1 <= tries <= MAX_ATTEMPTS && |sleeps| == tries - 1
      invariant forall i :: 0 <= i < tries - 1 ==> DelayAt(verb, o, i) == Some(sleeps[i])
      decreases MAX_ATTEMPTS - tries
    {
      var last := tries >= MAX_ATTEMPTS;
      var outcome := o.attempts[tries - 1];
      if outcome.Failure? {
        var replayable := verb == GET || PreSend(outcome.codes);
        if last || !replayable { return None, tries, sleeps; }
        sleeps := sleeps + [BackoffMs(tries, o.randoms[tries - 1])];
        tries := tries + 1;
        continue;
      }
      if last { return Some(outcome), tries, sleeps; }
      var delay := DelayAfter(verb, outcome, tries, o.randoms[tries - 1], o.clock[tries - 1]);
      if delay.None? { return Some(outcome), tries, sleeps; }
      sleeps := sleeps + [delay.value];
      tries := tries + 1;
    }
  }

  // ----- Sleeps ---------------------------------------------------------------------------

  lemma {:induction false} BackoffBounded(attempt: nat, random: real)
    requires 1 <= attempt <= 2 && 0.0 <= random < 1.0
    ensures 125 <= BackoffMs(attempt, random) <= 500
  {
    var window := BackoffWindow(attempt) as real;
    assert BackoffWindow(1) == 250;
    assert 0.0 <= window * random <= window;
  }

  /** A call parks at most twice, each time for at most five seconds, `Retry-After` included. */
  lemma {:induction false} SleepsBounded(verb: Method, o: Outside, tries: nat, sleeps: seq<int>)
    requires IsRun(verb, o, tries, sleeps)
    ensures |sleeps| <= 2
    ensures forall i :: 0 <= i < |sleeps| ==> 0 <= sleeps[i] <= MAX_RETRY_AFTER_MS
  {
    forall i | 0 <= i < |sleeps| ensures 0 <= sleeps[i] <= MAX_RETRY_AFTER_MS {
      assert o.randoms[i] in o.randoms;
      BackoffBounded(i + 1, o.randoms[i]);
      assert DelayAt(verb, o, i) == Some(sleeps[i]);
    }
  }

  // ----- The whole request --------------------------------------------------------------------

  predicate Ok(a: Attempt) { a.Response? && 200 <= a.status < 300 }

  datatype Note = NoNote | NeverSent | Refused | MayHaveApplied

  /** How a request ends for its caller: with a value, or with an error and the note it carries. */
  datatype Ending = Done | Failed(note: Note)

  /** The note a network failure carries. */
  function NetworkNote(verb: Method, codes: seq<Option<string>>): Note {
    if verb == GET then NoNote else if PreSend(codes) then NeverSent else MayHaveApplied
  }

  /** The note an error response carries (`ZendeskApiError.buildMessage`). */
  function StatusNote(verb: Method, status: nat): Note {
    if verb == GET then NoNote
    else if status == 429 then Refused
    else if status >= 500 then MayHaveApplied
    else NoNote
  }

  /** What the last attempt comes to; an error while its body is read carries no note, whatever the status. */
  function EndingOf(verb: Method, last: Attempt): Ending {
    match last
    case Failure(codes, _) => Failed(NetworkNote(verb, codes))
    case Response(status, _, body, _) =>
      if !Ok(last) then Failed(if body.Lost? then NoNote else StatusNote(verb, status))
      else if status == 204 || body.Intact? then Done
      else Failed(NoNote)
  }

  /** `executeRequest`: the retried call, then its error text or its value read from the body. */
  method ExecuteRequest(verb: Method, o: Outside) returns (ending: Ending, ghost tries: nat, ghost sleeps: seq<int>)
    requires Complete(o)
    ensures IsRun(verb, o, tries, sleeps)
    ensures ending == EndingOf(verb, o.attempts[tries - 1])
  {
    hide DelayAfter;
    var response, t, waits := FetchWithRetry(verb, o);
    tries, sleeps := t, waits;
    if response.None? { return Failed(NetworkNote(verb, o.attempts[t - 1].codes)), t, waits; }
    var r := response.value;
    if !Ok(r) {
      if r.body.Lost? { return Failed(NoNote), t, waits; }
      return Failed(StatusNote(verb, r.status)), t, waits;
    }
    if r.status == 204 { return Done, t, waits; }
    if r.body.Lost? { return Failed(NoNote), t, waits; }
    return Done, t, waits;
  }

  // ----- At most once, and what the caller is told -------------------------------------------

  /** A request that never left, and one refused with 429 (section 4 of RFC 6585), is not applied. */
  predicate Possible(a: Attempt) {
    match a
    case Failure(codes, applied) => PreSend(codes) ==> !applied
    case Response(status, _, _, applied) => status == 429 ==> !applied
  }

  /** Some attempt of the run was applied. */
  ghost predicate RunApplied(o: Outside, tries: nat)
    requires tries <= |o.attempts|
  {
    exists i :: 0 <= i < tries && o.attempts[i].applied
  }

  /** A write is applied at most once: only the last attempt of its run can have been. */
  lemma {:induction false} OnlyLastApplies(verb: Method, o: Outside, tries: nat, sleeps: seq<int>)
    requires IsRun(verb, o, tries, sleeps) && verb != GET
    requires forall a :: a in o.attempts ==> Possible(a)
    ensures tries <= 3
    ensures forall i :: 0 <= i < tries - 1 ==> !o.attempts[i].applied
    ensures RunApplied(o, tries) <==> o.attempts[tries - 1].applied
  {
    forall i | 0 <= i < tries - 1 ensures !o.attempts[i].applied {
      assert DelayAt(verb, o, i).Some?;
      assert o.attempts[i] in o.attempts;
    }
  }

  /** The same answers, as far as anyone but Zendesk can tell. */
  predicate LooksLike(a: Attempt, b: Attempt) { a.(applied := b.applied) == b }

  /** What was seen of the run leaves it possible that something was applied. */
  ghost predicate MayHaveLanded(o: Outside, tries: nat)
    requires tries <= |o.attempts|
  {
    exists attempts: seq<Attempt> ::
      && |attempts| == |o.attempts|
      && (forall i :: 0 <= i < |attempts| ==> LooksLike(o.attempts[i], attempts[i]) && Possible(attempts[i]))
      && RunApplied(o.(attempts := attempts), tries)
  }

  /** The last attempt decides: a write may have landed unless that never left or was refused. */
  lemma {:induction false} LandingIsLast(verb: Method, o: Outside, tries: nat, sleeps: seq<int>)
    requires IsRun(verb, o, tries, sleeps) && verb != GET
    requires forall a :: a in o.attempts ==> Possible(a)
    ensures var last := o.attempts[tries - 1];
            MayHaveLanded(o, tries) <==> !(last.Failure? && PreSend(last.codes)) && !(last.Response? && last.status == 429)
  {
    hide PreSend, DelayAfter;
    var last := o.attempts[tries - 1];
    if !(last.Failure? && PreSend(last.codes)) && !(last.Response? && last.status == 429) {
      var landed := o.attempts[tries - 1 := last.(applied := true)];
      assert forall a :: a in o.attempts ==> LooksLike(a, a);
      assert forall i :: 0 <= i < |landed| && i != tries - 1 ==> landed[i] in o.attempts;
      assert Possible(landed[tries - 1]) && landed[tries - 1].applied;
      assert RunApplied(o.(attempts := landed), tries);
    } else {
      forall attempts: seq<Attempt>, i |
        && |attempts| == |o.attempts| && 0 <= i < tries && LooksLike(o.attempts[i], attempts[i]) && Possible(attempts[i])
        ensures !attempts[i].applied
      {
        if i < tries - 1 { EarlierNeverLanded(verb, o, tries, sleeps, i, attempts[i]); }
      }
    }
  }

  /** An attempt that was replayed cannot have landed, whatever Zendesk did. */
  lemma {:induction false} EarlierNeverLanded(verb: Method, o: Outside, tries: nat, sleeps: seq<int>, i: nat, a: Attempt)
    requires IsRun(verb, o, tries, sleeps) && verb != GET && i < tries - 1
    requires LooksLike(o.attempts[i], a) && Possible(a)
    ensures !a.applied
  {
    assert DelayAt(verb, o, i).Some?;
  }

  /**
   What a failed write is told is true: "nothing was applied" only when nothing was,
   nor could have been for all that was seen, and "may have been applied" only when it may.
   */
  lemma {:induction false} NotesAreTruthful(verb: Method, o: Outside, tries: nat, sleeps: seq<int>)
    requires IsRun(verb, o, tries, sleeps) && verb != GET
    requires forall a :: a in o.attempts ==> Possible(a)
    ensures var ending := EndingOf(verb, o.attempts[tries - 1]);
            && (ending == Failed(NeverSent) || ending == Failed(Refused) ==> !MayHaveLanded(o, tries) && !RunApplied(o, tries))
            && (ending == Failed(MayHaveApplied) ==> MayHaveLanded(o, tries))
            && (RunApplied(o, tries) ==> MayHaveLanded(o, tries))
  {
    hide PreSend, DelayAfter, MayHaveLanded;
    OnlyLastApplies(verb, o, tries, sleeps);
    LandingIsLast(verb, o, tries, sleeps);
    assert o.attempts[tries - 1] in o.attempts;
  }

  /**
   Which failed writes that may have landed are warned about: exactly those that ended
   without a response, or with a status of 500 or more whose body could be read.
   */
  lemma {:induction false} LandedFailuresAreWarned(verb: Method, o: Outside, tries: nat, sleeps: seq<int>)
    requires IsRun(verb, o, tries, sleeps) && verb != GET
    requires forall a :: a in o.attempts ==> Possible(a)
    requires EndingOf(verb, o.attempts[tries - 1]).Failed? && MayHaveLanded(o, tries)
    ensures var last := o.attempts[tries - 1];
            EndingOf(verb, last).note == MayHaveApplied <==> last.Failure? || (last.status >= 500 && last.body.Intact?)
  {
    hide PreSend, DelayAfter, MayHaveLanded;
    LandingIsLast(verb, o, tries, sleeps);
  }

  /** A write answered at once with a status it is not replayed for is a run of one attempt. */
  lemma {:induction false} OneAttempt(verb: Method, o: Outside)
    requires Complete(o) && verb != GET && o.attempts[0].Response? && o.attempts[0].status != 429
    ensures IsRun(verb, o, 1, [])
    ensures o.attempts[0].applied ==> RunApplied(o, 1)
  {
    assert DelayAt(verb, o, 0).None?;
  }

  /** A write that Zendesk accepted and applied fails without a note when its answer cannot be read. */
  lemma {:induction false} AcceptedWriteFailsSilently(verb: Method, o: Outside)
    requires Complete(o) && verb != GET && Ok(o.attempts[0]) && o.attempts[0].status != 204
    requires o.attempts[0].body.Lost? && o.attempts[0].applied
    ensures IsRun(verb, o, 1, []) && RunApplied(o, 1) && EndingOf(verb, o.attempts[0]) == Failed(NoNote)
  {
    OneAttempt(verb, o);
  }

  /** So does one answered with a server error whose text cannot be read, though its status alone would warn. */
  lemma {:induction false} UnreadErrorLosesItsWarning(verb: Method, o: Outside)
    requires Complete(o) && verb != GET && o.attempts[0].Response? && o.attempts[0].status >= 500
    requires o.attempts[0].body.Lost? && o.attempts[0].applied
    ensures IsRun(verb, o, 1, []) && RunApplied(o, 1) && EndingOf(verb, o.attempts[0]) == Failed(NoNote)
    ensures EndingOf(verb, o.attempts[0].(body := Intact)) == Failed(MayHaveApplied)
  {
    OneAttempt(verb, o);
  }

  /** And one applied in spite of an error status below 500 other than 429, read or not. */
  lemma {:induction false} LowStatusCarriesNoWarning(verb: Method, o: Outside)
    requires Complete(o) && verb != GET && o.attempts[0].Response? && !Ok(o.attempts[0])
    requires o.attempts[0].status < 500 && o.attempts[0].status != 429 && o.attempts[0].applied
    ensures IsRun(verb, o, 1, []) && RunApplied(o, 1) && EndingOf(verb, o.attempts[0]) == Failed(NoNote)
  {
    OneAttempt(verb, o);
  }
}
