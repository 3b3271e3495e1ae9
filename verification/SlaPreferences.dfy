/**
 SLA alert thresholds: one user's stored preferences, the edits of the alert
 form, and the per-call overrides (`src/utils/sla-preferences.ts`,
 `src/utils/sla-alerts-elicitation.ts`, `src/utils/sla-thresholds.ts`).
 */
module SlaPreferences {
  import opened Options
  import opened JsText
  import opened Durations

  datatype Family = Reply | Wait

  datatype Threshold = Threshold(warning: nat, critical: nat)

  datatype Thresholds = Thresholds(reply: Threshold, wait: Threshold)

  datatype Preferences = Preferences(reply: Option<Threshold>, wait: Option<Threshold>, introduced: bool)

  datatype Reset = ResetReply | ResetWait | ResetAll

  datatype Change = Change(
    replyWarning: Option<Text>, replyCritical: Option<Text>,
    waitWarning: Option<Text>, waitCritical: Option<Text>,
    reset: Option<Reset>)

  datatype ChangeError = NotADuration(family: Family) | ResetAndSet(family: Family) | CriticalWider(family: Family)

  const NO_PREFERENCES := Preferences(None, None, false)

  const NO_CHANGE := Change(None, None, None, None, None)

  /** A critical window wider than the warning one would never show a WARNING. */
  predicate Ordered(t: Threshold) { t.critical <= t.warning }

  predicate OrderedBoth(t: Thresholds) { Ordered(t.reply) && Ordered(t.wait) }

  predicate OrderedPreferences(p: Preferences) {
    (p.reply.Some? ==> Ordered(p.reply.value)) && (p.wait.Some? ==> Ordered(p.wait.value))
  }

  function Of(t: Thresholds, family: Family): Threshold {
    if family.Reply? then t.reply else t.wait
  }

  function Stored(p: Preferences, family: Family): Option<Threshold> {
    if family.Reply? then p.reply else p.wait
  }

  function Store(p: Preferences, family: Family, t: Option<Threshold>): Preferences {
    if family.Reply? then p.(reply := t) else p.(wait := t)
  }

  function EffectiveThresholds(admin: Thresholds, prefs: Option<Preferences>): Thresholds {
    if prefs.None? then admin
    else Thresholds(if prefs.value.reply.Some? then prefs.value.reply.value else admin.reply,
                    if prefs.value.wait.Some? then prefs.value.wait.value else admin.wait)
  }

  // ----- One change -----------------------------------------------------------

  function Warning(change: Change, family: Family): Option<Text> {
    if family.Reply? then change.replyWarning else change.waitWarning
  }

  function Critical(change: Change, family: Family): Option<Text> {
    if family.Reply? then change.replyCritical else change.waitCritical
  }

  predicate Resets(change: Change, family: Family) {
    change.reset == Some(ResetAll) || change.reset == Some(if family.Reply? then ResetReply else ResetWait)
  }

  /** A given half must read as a duration. */
  predicate Readable(raw: Option<Text>) {
    raw.Some? ==> ParseDuration(raw.value).Some?
  }

  /** The minutes a half names, the ones in force when it is not given. */
  function HalfOr(raw: Option<Text>, current: nat): nat
    requires Readable(raw)
  {
    if raw.Some? then ParseDuration(raw.value).value else current
  }

  datatype Outcome = Keep | Forget | Set(threshold: Threshold) | Refuse(error: ChangeError)

  function ChangeFamily(family: Family, current: Threshold, change: Change): Outcome {
    var warning, critical := Warning(change, family), Critical(change, family);
    var given := warning.Some? || critical.Some?;
    if !Readable(warning) || !Readable(critical) then Refuse(NotADuration(family))
    else if Resets(change, family) then
      if given then Refuse(ResetAndSet(family)) else Forget
    else if !given then Keep
    else
      var t := Threshold(HalfOr(warning, current.warning), HalfOr(critical, current.critical));
      if t.critical > t.warning then Refuse(CriticalWider(family)) else Set(t)
  }

  const FAMILIES := [Reply, Wait]

  /** What a change leaves of one family's stored threshold. */
  function FamilyAfter(admin: Thresholds, prefs: Option<Preferences>, change: Change, family: Family): Option<Threshold> {
    var stored := if prefs.Some? && change.reset != Some(ResetAll) then Stored(prefs.value, family) else None;
    match ChangeFamily(family, Of(EffectiveThresholds(admin, prefs), family), change)
    case Keep => stored
    case Forget => None
    case Set(t) => Some(t)
    case Refuse(_) => stored
  }

  function Refused(admin: Thresholds, prefs: Option<Preferences>, change: Change, family: Family): bool {
    ChangeFamily(family, Of(EffectiveThresholds(admin, prefs), family), change).Refuse?
  }

  /** The loop over the families; the first refusal refuses the whole change. */
  method ApplyPreferenceChange(admin: Thresholds, prefs: Option<Preferences>, change: Change)
    returns (result: Result<Preferences, ChangeError>)
    ensures result.Err? <==> Refused(admin, prefs, change, Reply) || Refused(admin, prefs, change, Wait)
    ensures result.Err? ==>
      (result.error.family == Wait <==> !Refused(admin, prefs, change, Reply))
    ensures result.Ok? ==>
      && result.value.reply == FamilyAfter(admin, prefs, change, Reply)
      && result.value.wait == FamilyAfter(admin, prefs, change, Wait)
      && result.value.introduced == (prefs.Some? && change.reset != Some(ResetAll) && prefs.value.introduced)
  {
    var current := EffectiveThresholds(admin, prefs);
    var next := if change.reset == Some(ResetAll) || prefs.None? then NO_PREFERENCES else prefs.value;
    ghost var start := next;
    var i := 0;
    while i < |FAMILIES|
      invariant 0 <= i <= 2
      invariant next.introduced == start.introduced
      invariant next.reply == if i == 0 then start.reply else FamilyAfter(admin, prefs, change, Reply)
      invariant next.wait == if i < 2 then start.wait else FamilyAfter(admin, prefs, change, Wait)
      invariant i > 0 ==> !Refused(admin, prefs, change, Reply)
      invariant i > 1 ==> !Refused(admin, prefs, change, Wait)
    {
      var family := FAMILIES[i];
      assert family == if i == 0 then Reply else Wait;
      match ChangeFamily(family, Of(current, family), change) {
        case Keep =>
        case Forget => next := Store(next, family, None);
        case Set(t) => next := Store(next, family, Some(t));
        case Refuse(error) => return Err(error);
      }
      i := i + 1;
    }
    return Ok(next);
  }

  // ----- Any sequence of changes ----------------------------------------------

  /** What is stored after a change: the new preferences, or the old ones when it is refused. */
  function After(admin: Thresholds, prefs: Option<Preferences>, change: Change): Option<Preferences> {
    if Refused(admin, prefs, change, Reply) || Refused(admin, prefs, change, Wait) then prefs
    else Some(Preferences(
      FamilyAfter(admin, prefs, change, Reply), FamilyAfter(admin, prefs, change, Wait),
      prefs.Some? && change.reset != Some(ResetAll) && prefs.value.introduced))
  }

  function AfterAll(admin: Thresholds, prefs: Option<Preferences>, changes: seq<Change>): Option<Preferences>
    decreases |changes|
  {
    if changes == [] then prefs else AfterAll(admin, After(admin, prefs, changes[0]), changes[1..])
  }

  /** Critical never exceeds warning, in either family, over any sequence of changes. */
  lemma {:induction false} ChangesKeepOrder(admin: Thresholds, prefs: Option<Preferences>, changes: seq<Change>)
    requires OrderedBoth(admin)
    requires prefs.Some? ==> OrderedPreferences(prefs.value)
    ensures var after := AfterAll(admin, prefs, changes);
            (after.Some? ==> OrderedPreferences(after.value)) && OrderedBoth(EffectiveThresholds(admin, after))
    decreases |changes|
  {
    if changes != [] {
      ChangesKeepOrder(admin, After(admin, prefs, changes[0]), changes[1..]);
    }
  }

  /**
   An accepted change puts in force exactly what it names: the halves given, the
   other halves as they were, the server default after a reset; and it is refused
   only for a half that does not read, a reset that also sets, or a pair the wrong way round.
   */
  lemma {:induction false} ChangeTakesEffect(admin: Thresholds, prefs: Option<Preferences>, change: Change, family: Family)
    requires !Refused(admin, prefs, change, Reply) && !Refused(admin, prefs, change, Wait)
    ensures var before := Of(EffectiveThresholds(admin, prefs), family);
            var after := Of(EffectiveThresholds(admin, After(admin, prefs, change)), family);
            if Resets(change, family) then after == Of(admin, family)
            else
              && Readable(Warning(change, family)) && Readable(Critical(change, family))
              && after == Threshold(HalfOr(Warning(change, family), before.warning),
                                    HalfOr(Critical(change, family), before.critical))
  {
  }

  /**
   A family refuses a change exactly for a half that does not read, for a reset that also
   sets, or for a pair that would end up the wrong way round, each half not given as it
   was in force. What is refused names the family it is refused for.
   */
  lemma {:induction false} RefusedExactly(admin: Thresholds, prefs: Option<Preferences>, change: Change, family: Family)
    ensures var before := Of(EffectiveThresholds(admin, prefs), family);
            var warning, critical := Warning(change, family), Critical(change, family);
            Refused(admin, prefs, change, family) <==>
              || !Readable(warning) || !Readable(critical)
              || (Resets(change, family) && !(warning.None? && critical.None?))
              || (warning.Some? && critical.Some? && ParseDuration(critical.value).value > ParseDuration(warning.value).value)
              || (warning.None? && critical.Some? && ParseDuration(critical.value).value > before.warning)
              || (warning.Some? && critical.None? && before.critical > ParseDuration(warning.value).value)
  {
    hide ParseDuration;
  }

  /** A form sent back untouched changes nothing that is stored, nor what is in force. */
  lemma {:induction false} UntouchedChangesNothing(admin: Thresholds, prefs: Option<Preferences>)
    ensures After(admin, prefs, NO_CHANGE) == if prefs.Some? then prefs else Some(NO_PREFERENCES)
    ensures EffectiveThresholds(admin, After(admin, prefs, NO_CHANGE)) == EffectiveThresholds(admin, prefs)
  {
  }

  // ----- The alert form ----------------------------------------------------------

  /** A warning and a critical duration, as the admin variables and the form spell them. */
  function Pair(t: Threshold): Text {
    Spelling(t.warning) + [COMMA] + Spelling(t.critical)
  }

  datatype PairError = NotTwo | Unreadable | WrongWayRound

  function ToThreshold(warning: Text, critical: Text): Result<Threshold, PairError> {
    var w, c := ParseDuration(warning), ParseDuration(critical);
    if w.None? || c.None? then Err(Unreadable)
    else if c.value > w.value then Err(WrongWayRound)
    else Ok(Threshold(w.value, c.value))
  }

  function ParseThresholdPair(raw: Text): Result<Threshold, PairError> {
    var parts := Split(raw, COMMA);
    if |parts| != 2 || Trim(parts[0]) == [] || Trim(parts[1]) == [] then Err(NotTwo)
    else ToThreshold(Trim(parts[0]), Trim(parts[1]))
  }

  lemma {:induction false} SpellingPlain(n: nat)
    ensures Plain(Spelling(n)) && Spelling(n) != [] && COMMA !in Spelling(n)
    ensures Trim(Spelling(n)) == Spelling(n)
  {
    hide Decimal, TrimStart, TrimEnd, Trim;
    if n != 0 {
      assert n / MINUTES_PER_DAY != 0 || n % MINUTES_PER_DAY / MINUTES_PER_HOUR != 0
             || n % MINUTES_PER_DAY % MINUTES_PER_HOUR != 0;
    }
    var t := Spelling(n);
    assert t[0] in t && t[|t| - 1] in t;
    TrimTrims(t);
  }

  /** The default the form shows reads back as the thresholds it shows. */
  lemma {:induction false} PairRoundTrip(t: Threshold)
    ensures ParseThresholdPair(Pair(t)) == if Ordered(t) then Ok(t) else Err(WrongWayRound)
  {
    SpellingPlain(t.warning);
    SpellingPlain(t.critical);
    SplitCons(Spelling(t.warning), Spelling(t.critical), COMMA);
    SplitSingle(Spelling(t.critical), COMMA);
    DurationRoundTrip(t.warning);
    DurationRoundTrip(t.critical);
  }

  /** The fields of the accepted form; `None` for a field that is missing or not a string. */
  datatype FormAnswer = FormAnswer(replyThresholds: Option<Text>, waitThresholds: Option<Text>)

  function Field(answer: FormAnswer, family: Family): Option<Text> {
    if family.Reply? then answer.replyThresholds else answer.waitThresholds
  }

  /** A field is an edit when it differs from the default shown; an unreadable edit is only noted. */
  predicate Edits(answer: FormAnswer, thresholds: Thresholds, family: Family) {
    var raw := Field(answer, family);
    raw.Some? && Trim(raw.value) != Pair(Of(thresholds, family))
  }

  predicate Accepts(answer: FormAnswer, thresholds: Thresholds, family: Family) {
    Edits(answer, thresholds, family) && ParseThresholdPair(Field(answer, family).value).Ok?
  }

  lemma {:induction false} MagnitudeOfNat(n: nat)
    ensures Magnitude(n as real) == n
  {
  }

  predicate Visited(family: Family, i: int) {
    if family.Reply? then i > 0 else i > 1
  }

  /** The loop over the families: an accepted edit is re-spelled into the change, a bad one noted. */
  method ReadAlertsAnswer(answer: FormAnswer, thresholds: Thresholds) returns (change: Change, notes: seq<Family>)
    ensures change.reset == None
    ensures forall family ::
      if Accepts(answer, thresholds, family) then
        var t := ParseThresholdPair(Field(answer, family).value).value;
        Warning(change, family) == Some(Spelling(t.warning)) && Critical(change, family) == Some(Spelling(t.critical))
      else Warning(change, family) == Critical(change, family) == None
    ensures forall family :: family in notes <==>
      Edits(answer, thresholds, family) && !Accepts(answer, thresholds, family)
  {
    hide ParseThresholdPair, Spelling, Pair, Trim, Magnitude;
    change, notes := NO_CHANGE, [];
    var i := 0;
    while i < |FAMILIES|
      invariant 0 <= i <= 2
      invariant change.reset == None
      invariant forall family ::
        if Visited(family, i) && Accepts(answer, thresholds, family) then
          var t := ParseThresholdPair(Field(answer, family).value).value;
          Warning(change, family) == Some(Spelling(t.warning)) && Critical(change, family) == Some(Spelling(t.critical))
        else Warning(change, family) == Critical(change, family) == None
      invariant forall family :: family in notes <==>
        Visited(family, i)
        && Edits(answer, thresholds, family) && !Accepts(answer, thresholds, family)
    {
      var family := FAMILIES[i];
      assert family == if i == 0 then Reply else Wait;
      i := i + 1;
      if !Edits(answer, thresholds, family) { continue; }
      match ParseThresholdPair(Field(answer, family).value) {
        case Err(_) => notes := notes + [family];
        case Ok(t) =>
          MagnitudeOfNat(t.warning);
          MagnitudeOfNat(t.critical);
          var warning := FormatMinutes(t.warning as real);
          var critical := FormatMinutes(t.critical as real);
          change := if family.Reply? then change.(replyWarning := Some(warning), replyCritical := Some(critical))
          else change.(waitWarning := Some(warning), waitCritical := Some(critical));
      }
    }
  }

  /**
   An edit keeps its numbers on the way to the store: the change read off an
   accepted answer is never refused, and puts the numbers typed in force while
   leaving an unedited family alone.
   */
  lemma {:induction false} EditReachesTheStore(
    answer: FormAnswer, thresholds: Thresholds, change: Change, admin: Thresholds, prefs: Option<Preferences>, family: Family)
    requires change.reset == None
    requires forall f ::
      if Accepts(answer, thresholds, f) then
        var t := ParseThresholdPair(Field(answer, f).value).value;
        Warning(change, f) == Some(Spelling(t.warning)) && Critical(change, f) == Some(Spelling(t.critical))
      else Warning(change, f) == Critical(change, f) == None
    ensures !Refused(admin, prefs, change, Reply) && !Refused(admin, prefs, change, Wait)
    ensures Of(EffectiveThresholds(admin, After(admin, prefs, change)), family)
         == if Accepts(answer, thresholds, family) then ParseThresholdPair(Field(answer, family).value).value
            else Of(EffectiveThresholds(admin, prefs), family)
  {
    forall f | Accepts(answer, thresholds, f) ensures Ordered(ParseThresholdPair(Field(answer, f).value).value) {
      AcceptedIsOrdered(Field(answer, f).value);
    }
    if Accepts(answer, thresholds, Reply) {
      RespelledReads(admin, prefs, change, Reply, ParseThresholdPair(Field(answer, Reply).value).value);
    } else {
      FamilyUnchanged(admin, prefs, change, Reply);
    }
    if Accepts(answer, thresholds, Wait) {
      RespelledReads(admin, prefs, change, Wait, ParseThresholdPair(Field(answer, Wait).value).value);
    } else {
      FamilyUnchanged(admin, prefs, change, Wait);
    }
    ChangeTakesEffect(admin, prefs, change, family);
  }

  lemma {:induction false} AcceptedIsOrdered(raw: Text)
    requires ParseThresholdPair(raw).Ok?
    ensures Ordered(ParseThresholdPair(raw).value)
  {
  }

  lemma {:induction false} FamilyUnchanged(admin: Thresholds, prefs: Option<Preferences>, change: Change, family: Family)
    requires change.reset == None
    requires Warning(change, family) == Critical(change, family) == None
    ensures !Refused(admin, prefs, change, family)
  {
  }

  lemma {:induction false} RespelledReads(
    admin: Thresholds, prefs: Option<Preferences>, change: Change, family: Family, t: Threshold)
    requires change.reset == None && Ordered(t)
    requires Warning(change, family) == Some(Spelling(t.warning)) && Critical(change, family) == Some(Spelling(t.critical))
    ensures !Refused(admin, prefs, change, family)
    ensures forall current :: ChangeFamily(family, current, change) == Set(t)
  {
    hide ParseDuration, Spelling;
    DurationRoundTrip(t.warning);
    DurationRoundTrip(t.critical);
  }

  // ----- Per-call overrides ----------------------------------------------------------

  function OverrideThresholds(thresholds: Thresholds, warning: Option<Text>, critical: Option<Text>)
    : Result<Thresholds, PairError>
  {
    if warning.Some? && critical.Some? then
      var both := ToThreshold(warning.value, critical.value);
      if both.Err? then Err(both.error) else Ok(Thresholds(both.value, both.value))
    else if !Readable(warning) || !Readable(critical) then Err(Unreadable)
    else Ok(Thresholds(Overridden(thresholds.reply, warning, critical), Overridden(thresholds.wait, warning, critical)))
  }

  /** At most one half given: it wins, and pulls the other half along just far enough. */
  function Overridden(t: Threshold, warning: Option<Text>, critical: Option<Text>): Threshold
    requires Readable(warning) && Readable(critical)
  {
    var c := HalfOr(critical, 0);
    var w := HalfOr(warning, t.critical);
    Threshold(if warning.Some? then w else if t.warning > c then t.warning else c,
              if critical.Some? then c else if t.critical < w then t.critical else w)
  }

  /**
   Every accepted override keeps both families ordered, puts each half given in
   force as it reads, and moves the other half of a family only when keeping it
   would turn the pair round, and then only up to the half given.
   */
  lemma {:induction false} OverrideKeepsOrder(thresholds: Thresholds, warning: Option<Text>, critical: Option<Text>, family: Family)
    requires OrderedBoth(thresholds)
    requires OverrideThresholds(thresholds, warning, critical).Ok?
    ensures var before := Of(thresholds, family);
            var after := Of(OverrideThresholds(thresholds, warning, critical).value, family);
            && Ordered(after)
            && (warning.Some? ==> Some(after.warning) == ParseDuration(warning.value))
            && (critical.Some? ==> Some(after.critical) == ParseDuration(critical.value))
            && (warning.None? && after.warning != before.warning ==> before.warning < after.warning == after.critical)
            && (critical.None? && after.critical != before.critical ==> after.warning == after.critical < before.critical)
  {
    if warning.Some? && critical.Some? {
      var both := ToThreshold(warning.value, critical.value);
      assert Ordered(both.value);
    }
  }

  /** An override is refused exactly for a half that does not read, or for both given the wrong way round. */
  lemma {:induction false} OverrideRefusedExactly(thresholds: Thresholds, warning: Option<Text>, critical: Option<Text>)
    ensures OverrideThresholds(thresholds, warning, critical).Err? <==>
              || !Readable(warning) || !Readable(critical)
              || (warning.Some? && critical.Some? && ParseDuration(critical.value).value > ParseDuration(warning.value).value)
  {
    hide ParseDuration;
  }
}
