/**
 Which attempts a retried request repeats and how long it waits in between
 (`src/client/retry.ts`), in terms of the outcomes alone.
 */
module RetryRuns {
  import opened Options
  import opened JsText
  import opened Retry

  // ----- What a Retry-After header asks for ---------------------------------------------

  /** Past white space and leading zeros, the header is this number of seconds. */
  ghost predicate AsksSeconds(h: Header, n: nat) {
    h.Present? && exists before: Text, zeros: Text, after: Text ::
      White(before) && Zeros(zeros) && White(after) && h.text == before + (zeros + Decimal(n)) + after
  }

  predicate IsLetter(u: CodeUnit) { IsLower(u) || IsUpper(u) }

  /** Past white space, the header starts with a letter, and it is readable as a date. */
  ghost predicate NamesDate(h: Header, date: int) {
    h.Present? && h.date == Some(date) && exists before: Text, u, rest: Text :: White(before) && IsLetter(u) && h.text == before + ([u] + rest)
  }

  /** The wait a header asks for. */
  ghost predicate Asks(header: Header, now: int, wait: nat) {
    || (exists n: nat :: AsksSeconds(header, n) && wait == 1000 * n)
    || (exists date :: NamesDate(header, date) && wait == if date > now then date - now else 0)
  }

  lemma {:induction false} SecondsAreRead(h: Header, n: nat, now: int)
    requires AsksSeconds(h, n)
    ensures ParseRetryAfter(h, now) == Some(1000 * n)
  {
    var before: Text, zeros: Text, after: Text :|
      White(before) && Zeros(zeros) && White(after) && h.text == before + (zeros + Decimal(n)) + after;
    hide Decimal, DecimalValue, Trim;
    ZerosInFront(zeros, Decimal(n));
    DecimalRoundTrip(n);
    var digits := zeros + Decimal(n);
    DigitsAreTrimmed(digits);
    TrimPadded(before, digits, after);
  }

  lemma {:induction false} DigitsAreTrimmed(digits: Text)
    requires digits != [] && forall u :: u in digits ==> IsDigit(u)
    ensures Trimmed(digits) && AllDigits(digits)
  {
    assert digits[0] in digits && digits[|digits| - 1] in digits;
  }

  lemma {:induction false} DatesAreRead(h: Header, date: int, now: int)
    requires NamesDate(h, date)
    ensures ParseRetryAfter(h, now) == Some(if date > now then date - now else 0)
  {
    var before: Text, u, rest: Text :| White(before) && IsLetter(u) && h.text == before + ([u] + rest);
    TrimStartPadded(before, [u] + rest);
    assert TrimStart([u] + rest) == [u] + rest;
    TrimEndKeepsFront([u] + rest);
    KeepsFirst([u] + rest);
    assert Trim(h.text)[0] == u && u in Trim(h.text);
  }

  lemma {:induction false} KeepsFirst(t: Text)
    requires t != [] && !IsSpace(t[0])
    ensures TrimEnd(t) != [] && TrimEnd(t)[0] == t[0]
  {
    if IsSpace(t[|t| - 1]) { KeepsFirst(t[..|t| - 1]); }
  }

  /**
   A header asks for a wait exactly when it is a number of seconds, padded or not, or a
   date; a date that has passed asks for none.
   */
  lemma {:induction false} RetryAfterExactly(h: Header, now: int, wait: nat)
    ensures ParseRetryAfter(h, now) == Some(wait) <==> Asks(h, now, wait)
  {
    if ParseRetryAfter(h, now) == Some(wait) {
      WaitIsAsked(h, now, wait);
    }
    forall n: nat | AsksSeconds(h, n) ensures ParseRetryAfter(h, now) == Some(1000 * n) { SecondsAreRead(h, n, now); }
    forall date | NamesDate(h, date) ensures ParseRetryAfter(h, now) == Some(if date > now then date - now else 0) {
      DatesAreRead(h, date, now);
    }
  }

  lemma {:induction false} WaitIsAsked(h: Header, now: int, wait: nat)
    requires ParseRetryAfter(h, now) == Some(wait)
    ensures Asks(h, now, wait)
  {
    var value := Trim(h.text);
    var before, after := TrimTakesWhite(h.text);
    if AllDigits(value) {
      var zeros := DigitsAreANumber(value);
      assert AsksSeconds(h, DecimalValue(value));
    } else {
      assert h.text == before + ([value[0]] + (value[1..] + after));
      assert NamesDate(h, h.date.value);
    }
  }

  // ----- What is repeated ------------------------------------------------------------------

  /** The first code found within five levels says that no connection was ever opened. */
  ghost predicate NeverConnected(codes: seq<Option<string>>) {
    exists level :: 0 <= level < |codes| && level < 5 && codes[level].Some? && (forall l :: 0 <= l < level ==> codes[l].None?)
      && (|| codes[level].value == "ENOTFOUND" || codes[level].value == "EAI_AGAIN"
          || codes[level].value == "ECONNREFUSED" || codes[level].value == "UND_ERR_CONNECT_TIMEOUT")
  }

  lemma {:induction false} FirstCode(codes: seq<Option<string>>, depth: nat, level: nat)
    requires level < |codes| && level < depth && codes[level].Some? && forall l :: 0 <= l < level ==> codes[l].None?
    ensures ErrorCode(codes, depth) == codes[level]
  {
    if level > 0 { FirstCode(codes[1..], depth - 1, level - 1); }
  }

  lemma {:induction false} CodeIsFirst(codes: seq<Option<string>>, depth: nat) returns (level: nat)
    requires ErrorCode(codes, depth).Some?
    ensures level < |codes| && level < depth && codes[level] == ErrorCode(codes, depth)
    ensures forall l :: 0 <= l < level ==> codes[l].None?
  {
    if codes[0].Some? {
      level := 0;
    } else {
      var k := CodeIsFirst(codes[1..], depth - 1);
      level := k + 1;
      assert forall l :: 0 < l < level ==> codes[l] == codes[1..][l - 1];
    }
  }

  lemma {:induction false} PreSendExactly(codes: seq<Option<string>>)
    ensures PreSend(codes) <==> NeverConnected(codes)
  {
    if PreSend(codes) {
      var level := CodeIsFirst(codes, 5);
      assert codes[level].value in PRE_SEND_CODES;
    }
    if NeverConnected(codes) {
      var level :| 0 <= level < |codes| && level < 5 && codes[level].Some? && (forall l :: 0 <= l < level ==> codes[l].None?)
        && (|| codes[level].value == "ENOTFOUND" || codes[level].value == "EAI_AGAIN"
            || codes[level].value == "ECONNREFUSED" || codes[level].value == "UND_ERR_CONNECT_TIMEOUT");
      FirstCode(codes, 5, level);
      assert codes[level].value in PRE_SEND_CODES;
    }
  }

  /** An outcome that is followed by another attempt, if there is one left. */
  ghost predicate Repeats(verb: Method, a: Attempt, now: int) {
    match a
    case Failure(codes, _) => verb == GET || NeverConnected(codes)
    case Response(status, header, _, _) =>
      && (status == 429 || (verb == GET && status >= 500))
      && forall wait: nat :: Asks(header, now, wait) ==> wait <= 5000
  }

  lemma {:induction false} AsksExactly(header: Header, now: int)
    ensures forall wait: nat :: Asks(header, now, wait) <==> ParseRetryAfter(header, now) == Some(wait)
  {
    forall wait: nat ensures Asks(header, now, wait) <==> ParseRetryAfter(header, now) == Some(wait) {
      RetryAfterExactly(header, now, wait);
    }
  }

  /** The first wait is between 125 and 250 ms and the second between 250 and 500, growing with the random number. */
  predicate IsBackoff(attempt: nat, random: real, sleep: int) {
    var shortest := if attempt == 1 then 125.0 else 250.0;
    -0.5 <= sleep as real - shortest * (1.0 + random) <= 0.5
  }

  lemma {:induction false} BackoffIs(attempt: nat, random: real)
    requires 1 <= attempt <= 2
    ensures IsBackoff(attempt, random, BackoffMs(attempt, random))
  {
    assert BackoffWindow(1) == 250 && BackoffWindow(2) == 500;
    var window := BackoffWindow(attempt) as real;
    var exact := window / 2.0 + window * random / 2.0;
    assert exact == (window / 2.0) * (1.0 + random);
  }

  lemma {:induction false} DelayExactly(verb: Method, o: Outside, i: nat)
    requires Complete(o) && i < 2
    ensures DelayAt(verb, o, i).Some? <==> Repeats(verb, o.attempts[i], o.clock[i])
    ensures forall sleep :: DelayAt(verb, o, i) == Some(sleep) ==> SleepsAsAsked(o, i, sleep)
  {
    hide ParseRetryAfter, PreSend, BackoffMs, NeverConnected, Asks, IsBackoff;
    BackoffIs(i + 1, o.randoms[i]);
    match o.attempts[i]
    case Failure(codes, _) => PreSendExactly(codes);
    case Response(_, header, _, _) => AsksExactly(header, o.clock[i]);
  }

  /** After a response that asks for a wait, exactly that; else the backoff. */
  ghost predicate SleepsAsAsked(o: Outside, i: nat, sleep: int)
    requires i < |o.attempts| && i < |o.clock| && i < |o.randoms|
  {
    var a := o.attempts[i];
    || (sleep >= 0 && a.Response? && Asks(a.retryAfter, o.clock[i], sleep))
    || ((a.Response? ==> forall wait: nat :: !Asks(a.retryAfter, o.clock[i], wait)) && IsBackoff(i + 1, o.randoms[i], sleep))
  }

  /**
   An attempt of a run is followed by another exactly when two are left or more and its
   outcome repeats: a failure of a GET, or one before any connection; a 429, or an error
   of 500 or more to a GET, unless its header asks for more than five seconds. The wait
   in between is what a response asks for, else the backoff.
   */
  lemma {:induction false} ReplaysExactly(verb: Method, o: Outside, tries: nat, sleeps: seq<int>)
    requires IsRun(verb, o, tries, sleeps)
    ensures forall i :: 0 <= i < tries ==> (i < tries - 1 <==> i < 2 && Repeats(verb, o.attempts[i], o.clock[i]))
    ensures forall i :: 0 <= i < tries - 1 ==> SleepsAsAsked(o, i, sleeps[i])
  {
    hide DelayAfter, Repeats, SleepsAsAsked;
    forall i | 0 <= i < tries && i < 2
      ensures DelayAt(verb, o, i).Some? <==> Repeats(verb, o.attempts[i], o.clock[i])
      ensures forall sleep :: DelayAt(verb, o, i) == Some(sleep) ==> SleepsAsAsked(o, i, sleep)
    {
      DelayExactly(verb, o, i);
    }
    forall i | 0 <= i < tries
      ensures i < tries - 1 <==> i < 2 && Repeats(verb, o.attempts[i], o.clock[i])
    {
    }
  }

  /** For every outside there is exactly one run. */
  lemma {:induction false} OneRun(verb: Method, o: Outside, tries: nat, sleeps: seq<int>, others: nat, otherSleeps: seq<int>)
    requires IsRun(verb, o, tries, sleeps) && IsRun(verb, o, others, otherSleeps)
    ensures tries == others && sleeps == otherSleeps
  {
    hide DelayAfter, DelayAt;
    assert tries < MAX_ATTEMPTS ==> DelayAt(verb, o, tries - 1).None?;
    assert others < MAX_ATTEMPTS ==> DelayAt(verb, o, others - 1).None?;
    assert forall i :: 0 <= i < tries - 1 ==> Some(sleeps[i]) == Some(otherSleeps[i]);
  }
}
