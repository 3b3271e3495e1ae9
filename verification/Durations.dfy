/** Readable durations and their minutes (`src/utils/durations.ts`). */
module Durations {
  import opened Options
  import opened JsText

  const W: CodeUnit := 119
  const D: CodeUnit := 100
  const H: CodeUnit := 104
  const M: CodeUnit := 109

  const MINUTES_PER_WEEK := 10080
  const MINUTES_PER_DAY := 1440
  const MINUTES_PER_HOUR := 60

  /** ASCII lower-casing: no other letter lower-cases into the grammar below. */
  function Lower(t: Text): (l: Text)
    ensures |l| == |t|
  {
    seq(|t|, i requires 0 <= i < |t| => if IsUpper(t[i]) then t[i] + 32 else t[i])
  }

  function DigitRun(t: Text): (k: nat)
    ensures k <= |t|
    ensures forall u :: u in t[..k] ==> IsDigit(u)
    ensures k < |t| ==> !IsDigit(t[k])
  {
    if t == [] || !IsDigit(t[0]) then 0
    else
      var k := 1 + DigitRun(t[1..]);
      assert t[..k] == [t[0]] + t[1..][..k - 1];
      k
  }

  /** One optional `<digits><unit>` group of the grammar: its number, and what follows it. */
  function TakeUnit(t: Text, unit: CodeUnit): (nat, Text) {
    var k := DigitRun(t);
    if 0 < k < |t| && t[k] == unit then (DecimalValue(t[..k]), t[k + 1..]) else (0, t)
  }

  /** Weeks, days, hours and minutes, each at most once and in that order. */
  function ParseDuration(raw: Text): Option<nat> {
    var text := Lower(Trim(raw));
    var (w, afterWeeks) := TakeUnit(text, W);
    var (d, afterDays) := TakeUnit(afterWeeks, D);
    var (h, afterHours) := TakeUnit(afterDays, H);
    var (m, rest) := TakeUnit(afterHours, M);
    if text == [] || rest != [] then None
    else Some(w * MINUTES_PER_WEEK + d * MINUTES_PER_DAY + h * MINUTES_PER_HOUR + m)
  }

  function Magnitude(minutes: real): nat {
    var rounded := (minutes + 0.5).Floor;
    if rounded < 0 then -rounded else rounded
  }

  function Part(n: nat, unit: CodeUnit): Text {
    if n == 0 then [] else Decimal(n) + [unit]
  }

  /** Days, hours and minutes, the zero ones left out, `0m` when all are. */
  function Spelling(n: nat): Text {
    if n == 0 then Decimal(0) + [M]
    else
      Part(n / MINUTES_PER_DAY, D)
      + Part(n % MINUTES_PER_DAY / MINUTES_PER_HOUR, H)
      + Part(n % MINUTES_PER_DAY % MINUTES_PER_HOUR, M)
  }

  lemma {:induction false} SmallDivision(n: nat, size: nat)
    requires size > 0
    ensures n < size ==> n / size == 0 && n % size == n
    ensures n >= size ==> n / size >= 1
  {
  }

  method FormatMinutes(minutes: real) returns (text: Text)
    ensures text == Spelling(Magnitude(minutes))
  {
    var rest := Magnitude(minutes);
    ghost var n := rest;
    text := [];
    var units := [(D, MINUTES_PER_DAY), (H, MINUTES_PER_HOUR)];
    for i := 0 to 2
      invariant i == 0 ==> rest == n && text == []
      invariant i == 1 ==> rest == n % MINUTES_PER_DAY && text == Part(n / MINUTES_PER_DAY, D)
      invariant i == 2 ==> rest == n % MINUTES_PER_DAY % MINUTES_PER_HOUR
                           && text == Part(n / MINUTES_PER_DAY, D) + Part(n % MINUTES_PER_DAY / MINUTES_PER_HOUR, H)
    {
      var (unit, size) := units[i];
      SmallDivision(rest, size);
      if rest >= size {
        text := text + (Decimal(rest / size) + [unit]);
        rest := rest % size;
      }
    }
    if rest > 0 || text == [] {
      text := text + (Decimal(rest) + [M]);
    }
  }

  // ----- parse . format = id --------------------------------------------------

  lemma {:induction false} DigitRunOf(digits: Text, rest: Text)
    requires forall u :: u in digits ==> IsDigit(u)
    requires rest == [] || !IsDigit(rest[0])
    ensures DigitRun(digits + rest) == |digits|
  {
    if digits == [] {
      assert digits + rest == rest;
    } else {
      assert (digits + rest)[1..] == digits[1..] + rest;
      DigitRunOf(digits[1..], rest);
    }
  }

  /** A printed group is read back by its own unit and passed over by the others. */
  lemma {:induction false} TakePrinted(n: nat, unit: CodeUnit, rest: Text, asked: CodeUnit)
    requires !IsDigit(unit)
    ensures var t := Decimal(n) + [unit] + rest;
            TakeUnit(t, asked) == if asked == unit then (n, rest) else (0, t)
  {
    var t := Decimal(n) + [unit] + rest;
    assert t == Decimal(n) + ([unit] + rest);
    DigitRunOf(Decimal(n), [unit] + rest);
    DecimalRoundTrip(n);
    assert t[..|Decimal(n)|] == Decimal(n) && t[|Decimal(n)| + 1..] == rest;
  }

  lemma {:induction false} TakePart(n: nat, unit: CodeUnit, rest: Text)
    requires !IsDigit(unit)
    requires TakeUnit(rest, unit) == (0, rest)
    ensures TakeUnit(Part(n, unit) + rest, unit) == (n, rest)
  {
    if n == 0 {
      assert Part(n, unit) + rest == rest;
    } else {
      TakePrinted(n, unit, rest, unit);
      assert Part(n, unit) + rest == Decimal(n) + [unit] + rest;
    }
  }

  lemma {:induction false} SkipPart(n: nat, unit: CodeUnit, rest: Text, asked: CodeUnit)
    requires !IsDigit(unit) && asked != unit
    requires TakeUnit(rest, asked) == (0, rest)
    ensures TakeUnit(Part(n, unit) + rest, asked) == (0, Part(n, unit) + rest)
  {
    if n == 0 {
      assert Part(n, unit) + rest == rest;
    } else {
      TakePrinted(n, unit, rest, asked);
      assert Part(n, unit) + rest == Decimal(n) + [unit] + rest;
    }
  }

  /** Three groups, whatever is left out, are read as what they were printed from. */
  lemma {:induction false} ReadParts(d: nat, h: nat, m: nat)
    ensures var mins := Part(m, M);
            var hours := Part(h, H) + mins;
            var days := Part(d, D) + hours;
            && TakeUnit(days, W) == (0, days)
            && TakeUnit(days, D) == (d, hours)
            && TakeUnit(hours, H) == (h, mins)
            && TakeUnit(mins, M) == (m, [])
  {
    var mins := Part(m, M);
    var hours := Part(h, H) + mins;
    assert mins + [] == mins;
    TakePart(m, M, []);
    SkipPart(m, M, [], H);
    SkipPart(m, M, [], D);
    SkipPart(m, M, [], W);
    TakePart(h, H, mins);
    SkipPart(h, H, mins, D);
    SkipPart(h, H, mins, W);
    TakePart(d, D, hours);
    SkipPart(d, D, hours, W);
  }

  /** Text of digits and unit letters, as printed: nothing to trim or lower-case. */
  predicate Plain(t: Text) {
    forall u :: u in t ==> IsDigit(u) || u == W || u == D || u == H || u == M
  }

  lemma {:induction false} PlainUntouched(t: Text)
    requires Plain(t)
    ensures Lower(Trim(t)) == t
  {
    assert t != [] ==> t[0] in t && t[|t| - 1] in t;
    assert Trimmed(t);
    TrimTrims(t);
    assert forall i :: 0 <= i < |t| ==> t[i] in t;
  }

  lemma {:induction false} SpellingShape(n: nat)
    ensures var t := Spelling(n); t != [] && IsDigit(t[0]) && Plain(t)
  {
    var d, h, m := n / MINUTES_PER_DAY, n % MINUTES_PER_DAY / MINUTES_PER_HOUR, n % MINUTES_PER_DAY % MINUTES_PER_HOUR;
    assert n != 0 ==> d != 0 || h != 0 || m != 0;
    var first := if n == 0 then 0 else if d != 0 then d else if h != 0 then h else m;
    assert Decimal(first)[0] in Decimal(first);
    assert Spelling(n)[0] == Decimal(first)[0];
  }

  lemma {:induction false} ReadGroups(t: Text, d: nat, h: nat, m: nat)
    requires t == Part(d, D) + (Part(h, H) + Part(m, M)) && t != [] && Plain(t)
    ensures ParseDuration(t) == Some(d * MINUTES_PER_DAY + h * MINUTES_PER_HOUR + m)
  {
    hide Part, TakeUnit, Lower, Trim, Plain;
    PlainUntouched(t);
    ReadParts(d, h, m);
  }

  lemma {:induction false} DaysHoursMinutes(n: nat)
    ensures n == n / MINUTES_PER_DAY * MINUTES_PER_DAY + n % MINUTES_PER_DAY / MINUTES_PER_HOUR * MINUTES_PER_HOUR
                 + n % MINUTES_PER_DAY % MINUTES_PER_HOUR
  {
  }

  /** `parseDuration` reads back what `formatMinutes` prints, for every natural number of minutes. */
  lemma {:induction false} DurationRoundTrip(n: nat)
    ensures ParseDuration(Spelling(n)) == Some(n)
  {
    hide Part, ParseDuration, Plain;
    if n == 0 {
      ReadZero();
    } else {
      var d, h, m := n / MINUTES_PER_DAY, n % MINUTES_PER_DAY / MINUTES_PER_HOUR, n % MINUTES_PER_DAY % MINUTES_PER_HOUR;
      SpellingShape(n);
      assert Spelling(n) == Part(d, D) + (Part(h, H) + Part(m, M));
      ReadGroups(Spelling(n), d, h, m);
      DaysHoursMinutes(n);
    }
  }

  lemma {:induction false} ReadZero()
    ensures ParseDuration(Decimal(0) + [M]) == Some(0)
  {
    var t := Decimal(0) + [M];
    TakePrinted(0, M, [], W);
    TakePrinted(0, M, [], D);
    TakePrinted(0, M, [], H);
    TakePrinted(0, M, [], M);
    assert t == Decimal(0) + [M] + [];
    PlainUntouched(t);
  }

  /** So two different numbers never share a spelling, though one number has several readable ones. */
  lemma {:induction false} SpellingInjective(m: nat, n: nat)
    requires Spelling(m) == Spelling(n)
    ensures m == n
  {
    DurationRoundTrip(m);
    DurationRoundTrip(n);
  }

  // ----- What is a duration -------------------------------------------------------

  /** Nothing at all, or a number followed by this unit. */
  ghost predicate Group(g: Text, unit: CodeUnit, value: nat) {
    if g == [] then value == 0
    else
      var digits := g[..|g| - 1];
      digits != [] && (forall u :: u in digits ==> IsDigit(u)) && g[|g| - 1] == unit && DecimalValue(digits) == value
  }

  /** The text is these four groups, put together. */
  ghost predicate Parts(text: Text, w: Text, d: Text, h: Text, m: Text, weeks: nat, days: nat, hours: nat, minutes: nat) {
    && Group(w, W, weeks) && Group(d, D, days) && Group(h, H, hours) && Group(m, M, minutes)
    && text == w + (d + (h + m))
  }

  /** Weeks, days, hours and minutes in this order, any of them left out but not all. */
  ghost predicate Spells(text: Text, n: nat) {
    text != [] && exists w: Text, d: Text, h: Text, m: Text, weeks: nat, days: nat, hours: nat, minutes: nat ::
      Parts(text, w, d, h, m, weeks, days, hours, minutes) && n == weeks * 10080 + days * 1440 + hours * 60 + minutes
  }

  /** The first unit of the text, if there is one, is not this one. */
  predicate StartsOtherwise(t: Text, unit: CodeUnit) {
    var k := DigitRun(t);
    k == 0 || k == |t| || t[k] != unit
  }

  lemma {:induction false} GroupTaken(g: Text, unit: CodeUnit, value: nat, rest: Text)
    requires Group(g, unit, value) && !IsDigit(unit)
    requires g == [] ==> StartsOtherwise(rest, unit)
    ensures TakeUnit(g + rest, unit) == (value, rest)
  {
    if g == [] {
      assert g + rest == rest;
    } else {
      var digits := g[..|g| - 1];
      assert g + rest == digits + ([unit] + rest);
      DigitRunOf(digits, [unit] + rest);
      assert (g + rest)[..|digits|] == digits && (g + rest)[|digits| + 1..] == rest;
    }
  }

  lemma {:induction false} OtherGroupFirst(g: Text, other: CodeUnit, value: nat, rest: Text, unit: CodeUnit)
    requires Group(g, other, value) && !IsDigit(other) && other != unit
    requires g == [] ==> StartsOtherwise(rest, unit)
    ensures StartsOtherwise(g + rest, unit)
  {
    if g == [] {
      assert g + rest == rest;
    } else {
      var digits := g[..|g| - 1];
      assert g + rest == digits + ([other] + rest);
      DigitRunOf(digits, [other] + rest);
    }
  }

  lemma {:induction false} TakenIsGroup(t: Text, unit: CodeUnit) returns (g: Text)
    ensures var (value, rest) := TakeUnit(t, unit); Group(g, unit, value) && t == g + rest
  {
    var k := DigitRun(t);
    if 0 < k < |t| && t[k] == unit {
      g := t[..k + 1];
      assert g[..|g| - 1] == t[..k];
    } else {
      g := [];
    }
  }

  lemma {:induction false} GroupsTaken(text: Text, w: Text, d: Text, h: Text, m: Text,
                                       weeks: nat, days: nat, hours: nat, minutes: nat)
    requires Parts(text, w, d, h, m, weeks, days, hours, minutes)
    ensures TakeUnit(text, W) == (weeks, d + (h + m)) && TakeUnit(d + (h + m), D) == (days, h + m)
    ensures TakeUnit(h + m, H) == (hours, m) && TakeUnit(m, M) == (minutes, [])
  {
    hide TakeUnit, DigitRun, Group, StartsOtherwise;
    assert m + [] == m;
    NothingStarts();
    OtherGroupFirst(m, M, minutes, [], H);
    OtherGroupFirst(m, M, minutes, [], D);
    OtherGroupFirst(m, M, minutes, [], W);
    OtherGroupFirst(h, H, hours, m, D);
    OtherGroupFirst(h, H, hours, m, W);
    OtherGroupFirst(d, D, days, h + m, W);
    GroupTaken(w, W, weeks, d + (h + m));
    GroupTaken(d, D, days, h + m);
    GroupTaken(h, H, hours, m);
    GroupTaken(m, M, minutes, []);
  }

  lemma {:induction false} GroupsFound(text: Text) returns (w: Text, d: Text, h: Text, m: Text)
    requires var afterHours := TakeUnit(TakeUnit(TakeUnit(text, W).1, D).1, H).1;
             TakeUnit(afterHours, M).1 == []
    ensures var (weeks, afterWeeks) := TakeUnit(text, W);
            var (days, afterDays) := TakeUnit(afterWeeks, D);
            var (hours, afterHours) := TakeUnit(afterDays, H);
            var (minutes, rest) := TakeUnit(afterHours, M);
            Parts(text, w, d, h, m, weeks, days, hours, minutes)
  {
    hide TakeUnit, Group;
    w := TakenIsGroup(text, W);
    var afterWeeks := TakeUnit(text, W).1;
    d := TakenIsGroup(afterWeeks, D);
    var afterDays := TakeUnit(afterWeeks, D).1;
    h := TakenIsGroup(afterDays, H);
    m := TakenIsGroup(TakeUnit(afterDays, H).1, M);
    assert m + [] == m;
  }

  lemma {:induction false} NothingStarts()
    ensures forall unit :: StartsOtherwise([], unit)
  {
  }

  /**
   A text is read as a duration exactly when, trimmed and in lower case, it spells one:
   no other order, no repeated or unknown unit, nothing around it and not nothing at all.
   */
  lemma {:induction false} DurationExactly(raw: Text, n: nat)
    ensures ParseDuration(raw) == Some(n) <==> Spells(Lower(Trim(raw)), n)
  {
    hide TakeUnit, Trim, Lower, Parts;
    var text := Lower(Trim(raw));
    if ParseDuration(raw) == Some(n) {
      var w, d, h, m := GroupsFound(text);
    }
    forall w: Text, d: Text, h: Text, m: Text, weeks: nat, days: nat, hours: nat, minutes: nat |
      Parts(text, w, d, h, m, weeks, days, hours, minutes) && text != []
      ensures ParseDuration(raw) == Some(weeks * 10080 + days * 1440 + hours * 60 + minutes)
    {
      GroupsTaken(text, w, d, h, m, weeks, days, hours, minutes);
    }
  }

  // ----- One duration, many spellings ------------------------------------------

  /** A zero in front of a group's digits is read with them, or passed over with the whole text. */
  lemma {:induction false} TakeWithZero(t: Text, unit: CodeUnit)
    requires t != [] && IsDigit(t[0])
    ensures var (n, rest) := TakeUnit(t, unit);
            && |rest| <= |t|
            && TakeUnit([ZERO] + t, unit) == (n, if rest == t then [ZERO] + t else rest)
  {
    var k, padded := DigitRun(t), [ZERO] + t;
    assert padded[1..] == t && DigitRun(padded) == 1 + k;
    assert padded[..1 + k] == [ZERO] + t[..k];
    ZeroInFront(t[..k]);
  }

  /** So a duration written with a zero in front is read as the same one, or refused alike. */
  lemma {:induction false} ZeroPadded(t: Text)
    requires t != [] && IsDigit(t[0]) && Plain(t)
    ensures ParseDuration([ZERO] + t) == ParseDuration(t)
  {
    hide TakeUnit, Trim, Lower;
    PlainUntouched(t);
    PlainUntouched([ZERO] + t);
    TakeWithZero(t, W);
    TakeWithZero(t, D);
    TakeWithZero(t, H);
    TakeWithZero(t, M);
  }

  /** No duration has one spelling: each number is also read from its own with a zero in front. */
  lemma {:induction false} EveryDurationHasOtherSpellings(n: nat)
    ensures var other := [ZERO] + Spelling(n);
            other != Spelling(n) && ParseDuration(other) == ParseDuration(Spelling(n)) == Some(n)
  {
    hide Spelling, ParseDuration;
    SpellingShape(n);
    ZeroPadded(Spelling(n));
    DurationRoundTrip(n);
    assert |[ZERO] + Spelling(n)| != |Spelling(n)|;
  }

  lemma {:induction false} OneHourTwoSpellings(sixty: Text, one: Text)
    requires sixty == Decimal(60) + [M] && one == Decimal(1) + [H]
    ensures sixty != one && ParseDuration(sixty) == ParseDuration(one) == Some(60)
  {
    hide Lower, Trim;
    TakePrinted(60, M, [], W);
    TakePrinted(60, M, [], D);
    TakePrinted(60, M, [], H);
    TakePrinted(60, M, [], M);
    assert sixty == Decimal(60) + [M] + [];
    PlainUntouched(sixty);
    TakePrinted(1, H, [], W);
    TakePrinted(1, H, [], D);
    TakePrinted(1, H, [], H);
    assert one == Decimal(1) + [H] + [];
    PlainUntouched(one);
    assert one[|one| - 1] == H && sixty[|sixty| - 1] == M;
  }
}
