/**
 What a text file gives back (`src/customization/backend.ts`): written as UTF-8, a
 surrogate without its other half comes back as U+FFFD. Everything the store reads off
 a file survives that, down to the fields of its frontmatter.
 */
module StoredText {
  import opened Options
  import opened JsText
  import opened Frontmatter
  import Json

  const REPLACEMENT: CodeUnit := 0xFFFD

  predicate IsSurrogate(u: CodeUnit) { Json.IsHigh(u) || Json.IsLow(u) }

  /** The text as it is read back after being written as UTF-8. */
  function Stored(t: Text): Text {
    if t == [] then []
    else if |t| >= 2 && Json.IsHigh(t[0]) && Json.IsLow(t[1]) then t[..2] + Stored(t[2..])
    else [if IsSurrogate(t[0]) then REPLACEMENT else t[0]] + Stored(t[1..])
  }

  /** Every surrogate stands beside its other half (`String.prototype.isWellFormed`). */
  predicate WellFormed(t: Text) {
    && (forall i :: 0 <= i < |t| && Json.IsHigh(t[i]) ==> i + 1 < |t| && Json.IsLow(t[i + 1]))
    && (forall i :: 0 <= i < |t| && Json.IsLow(t[i]) ==> i > 0 && Json.IsHigh(t[i - 1]))
  }

  // ----- Exactly the well-formed texts survive ---------------------------------------

  lemma {:induction false} WellFormedAfterPair(t: Text)
    requires |t| >= 2 && Json.IsHigh(t[0]) && Json.IsLow(t[1])
    ensures WellFormed(t) <==> WellFormed(t[2..])
  {
    var rest := t[2..];
    assert forall i :: 0 <= i < |rest| ==> rest[i] == t[i + 2];
    if WellFormed(rest) {
      forall i | 0 <= i < |t| && Json.IsHigh(t[i]) ensures i + 1 < |t| && Json.IsLow(t[i + 1]) {
        if i >= 2 { assert rest[i - 2] == t[i]; }
      }
      forall i | 0 <= i < |t| && Json.IsLow(t[i]) ensures i > 0 && Json.IsHigh(t[i - 1]) {
        if i >= 2 { assert rest[i - 2] == t[i]; }
      }
    }
  }

  lemma {:induction false} WellFormedAfterUnit(t: Text)
    requires t != [] && !IsSurrogate(t[0])
    ensures WellFormed(t) <==> WellFormed(t[1..])
  {
    var rest := t[1..];
    assert forall i :: 0 <= i < |rest| ==> rest[i] == t[i + 1];
    if WellFormed(rest) {
      forall i | 0 <= i < |t| && Json.IsHigh(t[i]) ensures i + 1 < |t| && Json.IsLow(t[i + 1]) {
        if i >= 1 { assert rest[i - 1] == t[i]; }
      }
      forall i | 0 <= i < |t| && Json.IsLow(t[i]) ensures i > 0 && Json.IsHigh(t[i - 1]) {
        if i >= 1 { assert rest[i - 1] == t[i]; }
      }
    }
  }

  /** A text comes back as it was written exactly when it is well-formed. */
  lemma {:induction false} SurvivesExactly(t: Text)
    ensures Stored(t) == t <==> WellFormed(t)
    decreases |t|
  {
    hide WellFormed;
    if t == [] {
      NothingIsWellFormed();
    } else if |t| >= 2 && Json.IsHigh(t[0]) && Json.IsLow(t[1]) {
      WellFormedAfterPair(t);
      SurvivesExactly(t[2..]);
      assert t == t[..2] + t[2..] && Stored(t)[2..] == Stored(t[2..]);
    } else if IsSurrogate(t[0]) {
      LoneIsNotWellFormed(t);
      assert Stored(t)[0] != t[0];
    } else {
      WellFormedAfterUnit(t);
      SurvivesExactly(t[1..]);
      assert t == [t[0]] + t[1..] && Stored(t)[1..] == Stored(t[1..]);
    }
  }

  lemma {:induction false} NothingIsWellFormed()
    ensures WellFormed([])
  {
  }

  lemma {:induction false} LoneIsNotWellFormed(t: Text)
    requires t != [] && IsSurrogate(t[0]) && !(|t| >= 2 && Json.IsHigh(t[0]) && Json.IsLow(t[1]))
    ensures !WellFormed(t)
  {
  }

  // ----- Unit by unit --------------------------------------------------------------------

  predicate SameUnit(u: CodeUnit, v: CodeUnit) { u == v || (IsSurrogate(u) && v == REPLACEMENT) }

  /** The same text but for surrogates that were replaced. */
  predicate Alike(a: Text, b: Text) {
    |a| == |b| && forall i :: 0 <= i < |a| ==> SameUnit(a[i], b[i])
  }

  lemma {:induction false} StoredIsAlike(t: Text)
    ensures Alike(t, Stored(t))
    decreases |t|
  {
    if t == [] {
    } else if |t| >= 2 && Json.IsHigh(t[0]) && Json.IsLow(t[1]) {
      StoredIsAlike(t[2..]);
      AlikeConcat(t[..2], t[..2], t[2..], Stored(t[2..]));
      assert t == t[..2] + t[2..];
    } else {
      StoredIsAlike(t[1..]);
      var first := if IsSurrogate(t[0]) then REPLACEMENT else t[0];
      AlikeConcat([t[0]], [first], t[1..], Stored(t[1..]));
      assert t == [t[0]] + t[1..];
    }
  }

  lemma {:induction false} AlikeConcat(a: Text, b: Text, c: Text, d: Text)
    requires Alike(a, b) && Alike(c, d)
    ensures Alike(a + c, b + d)
  {
    forall i | 0 <= i < |a + c| ensures SameUnit((a + c)[i], (b + d)[i]) {
      if i >= |a| { assert (a + c)[i] == c[i - |a|] && (b + d)[i] == d[i - |a|]; }
    }
  }

  lemma {:induction false} AlikeSlice(a: Text, b: Text, i: nat, j: nat)
    requires Alike(a, b) && i <= j <= |a|
    ensures Alike(a[i..j], b[i..j]) && Alike(a[..j], b[..j]) && Alike(a[i..], b[i..])
  {
  }

  /** Without surrogates there is nothing to replace. */
  predicate Whole(t: Text) { forall u :: u in t ==> !IsSurrogate(u) && u != REPLACEMENT }

  lemma {:induction false} AlikeWhole(a: Text, b: Text)
    requires Alike(a, b) && (Whole(a) || Whole(b))
    ensures a == b
  {
    forall i | 0 <= i < |a| ensures a[i] == b[i] {
      assert a[i] in a && b[i] in b && SameUnit(a[i], b[i]);
    }
  }

  lemma {:induction false} AlikePrefix(a: Text, b: Text, p: Text)
    requires Alike(a, b) && Whole(p)
    ensures p <= a <==> p <= b
  {
    if |p| <= |a| {
      AlikeSlice(a, b, 0, |p|);
      if a[..|p|] == p || b[..|p|] == p { AlikeWhole(a[..|p|], b[..|p|]); }
    }
  }

  // ----- Texts written in pieces -------------------------------------------------------------

  lemma {:induction false} StoredConcat(a: Text, b: Text)
    requires a == [] || !Json.IsHigh(a[|a| - 1]) || b == [] || !Json.IsLow(b[0])
    ensures Stored(a + b) == Stored(a) + Stored(b)
    decreases |a|
  {
    hide Stored;
    if a == [] {
      NothingStored();
      assert a + b == b;
    } else if |a| >= 2 && Json.IsHigh(a[0]) && Json.IsLow(a[1]) {
      StoredPair(a[..2], a[2..] + b);
      StoredPair(a[..2], a[2..]);
      assert a == a[..2] + a[2..] && a + b == a[..2] + (a[2..] + b);
      StoredConcat(a[2..], b);
    } else {
      StoredUnit(a[0], a[1..] + b);
      StoredUnit(a[0], a[1..]);
      assert a == [a[0]] + a[1..] && a + b == [a[0]] + (a[1..] + b);
      StoredConcat(a[1..], b);
    }
  }

  lemma {:induction false} NothingStored()
    ensures Stored([]) == []
  {
  }

  lemma {:induction false} StoredPair(pair: Text, rest: Text)
    requires |pair| == 2 && Json.IsHigh(pair[0]) && Json.IsLow(pair[1])
    ensures Stored(pair + rest) == pair + Stored(rest)
  {
    assert (pair + rest)[..2] == pair && (pair + rest)[2..] == rest;
  }

  lemma {:induction false} StoredUnit(u: CodeUnit, rest: Text)
    requires !(Json.IsHigh(u) && rest != [] && Json.IsLow(rest[0]))
    ensures Stored([u] + rest) == [if IsSurrogate(u) then REPLACEMENT else u] + Stored(rest)
  {
    assert ([u] + rest)[1..] == rest;
  }

  lemma {:induction false} StoredWhole(t: Text)
    requires forall u :: u in t ==> !IsSurrogate(u)
    ensures Stored(t) == t
  {
    if t != [] {
      assert t[0] in t;
      StoredWhole(t[1..]);
      assert t == [t[0]] + t[1..];
    }
  }

  /** A JSON string holds no surrogate on its own, so it is written as it is. */
  lemma {:induction false} StoredEscape(s: Text)
    ensures Stored(Json.Escape(s)) == Json.Escape(s)
    ensures Json.Escape(s) != [] ==> !Json.IsLow(Json.Escape(s)[0]) && !Json.IsHigh(Json.Escape(s)[|Json.Escape(s)| - 1])
    decreases |s|
  {
    hide Stored, Json.EscapeUnit;
    if s == [] {
      NothingStored();
    } else if |s| >= 2 && Json.IsHigh(s[0]) && Json.IsLow(s[1]) {
      StoredEscape(s[2..]);
      StoredPair(s[..2], Json.Escape(s[2..]));
    } else {
      StoredEscape(s[1..]);
      var e, rest := Json.EscapeUnit(s[0]), Json.Escape(s[1..]);
      EscapedIsWhole(s[0]);
      StoredWhole(e);
      assert e[|e| - 1] in e && e[0] in e;
      StoredConcat(e, rest);
    }
  }

  lemma {:induction false} EscapedIsWhole(u: CodeUnit)
    ensures forall x :: x in Json.EscapeUnit(u) ==> !IsSurrogate(x)
  {
  }

  // ----- Trimming and splitting ------------------------------------------------------------------

  lemma {:induction false} SameSpace(u: CodeUnit, v: CodeUnit)
    requires SameUnit(u, v)
    ensures IsSpace(u) <==> IsSpace(v)
  {
  }

  lemma {:induction false} AlikeTrimStart(a: Text, b: Text)
    requires Alike(a, b)
    ensures Alike(TrimStart(a), TrimStart(b))
  {
    hide IsSpace, SameUnit;
    if a != [] {
      SameSpace(a[0], b[0]);
      AlikeSlice(a, b, 1, |a|);
      if IsSpace(a[0]) { AlikeTrimStart(a[1..], b[1..]); }
    }
  }

  lemma {:induction false} AlikeTrimEnd(a: Text, b: Text)
    requires Alike(a, b)
    ensures Alike(TrimEnd(a), TrimEnd(b))
  {
    hide IsSpace, SameUnit;
    if a != [] {
      SameSpace(a[|a| - 1], b[|b| - 1]);
      AlikeSlice(a, b, 0, |a| - 1);
      if IsSpace(a[|a| - 1]) { AlikeTrimEnd(a[..|a| - 1], b[..|b| - 1]); }
    }
  }

  lemma {:induction false} AlikeTrim(a: Text, b: Text)
    requires Alike(a, b)
    ensures Alike(Trim(a), Trim(b))
  {
    hide Alike;
    AlikeTrimStart(a, b);
    AlikeTrimEnd(TrimStart(a), TrimStart(b));
  }

  lemma {:induction false} AlikeIn(a: Text, b: Text, u: CodeUnit)
    requires Alike(a, b) && !IsSurrogate(u) && u != REPLACEMENT && u in b
    ensures u in a
  {
    var k :| 0 <= k < |b| && b[k] == u;
    assert SameUnit(a[k], b[k]);
  }

  lemma {:induction false} AlikeFind(a: Text, b: Text, u: CodeUnit)
    requires Alike(a, b) && !IsSurrogate(u) && u != REPLACEMENT
    ensures Find(a, u) == Find(b, u)
  {
    var i := Find(a, u);
    AlikeSlice(a, b, 0, i);
    if u in b[..i] { AlikeIn(a[..i], b[..i], u); }
    assert i < |a| ==> SameUnit(a[i], b[i]);
    FindAt(b, u, i);
  }

  ghost predicate AllAlike(a: seq<Text>, b: seq<Text>) {
    |a| == |b| && forall i :: 0 <= i < |a| ==> Alike(a[i], b[i])
  }

  lemma {:induction false} AlikeSplit(a: Text, b: Text, sep: CodeUnit)
    requires Alike(a, b) && !IsSurrogate(sep) && sep != REPLACEMENT
    ensures AllAlike(Split(a, sep), Split(b, sep))
    decreases |a|
  {
    hide Alike, Split, Find;
    SameLength(a, b);
    AlikeFind(a, b, sep);
    var i := Find(a, sep);
    AlikeSlice(a, b, 0, i);
    SplitStep(a, sep);
    SplitStep(b, sep);
    if i < |a| {
      AlikeSlice(a, b, i + 1, |a|);
      AlikeSplit(a[i + 1..], b[i + 1..], sep);
      AllAlikeCons(a[..i], b[..i], Split(a[i + 1..], sep), Split(b[i + 1..], sep));
    }
  }

  lemma {:induction false} SplitStep(t: Text, sep: CodeUnit)
    ensures Split(t, sep) == var i := Find(t, sep); if i == |t| then [t] else [t[..i]] + Split(t[i + 1..], sep)
  {
  }

  lemma {:induction false} AllAlikeCons(x: Text, y: Text, a: seq<Text>, b: seq<Text>)
    requires Alike(x, y) && AllAlike(a, b)
    ensures AllAlike([x] + a, [y] + b)
  {
    hide Alike;
  }

  lemma {:induction false} SameLength(a: Text, b: Text)
    requires Alike(a, b)
    ensures |a| == |b|
  {
  }

  lemma {:induction false} AlikeLines(a: Text, b: Text)
    requires Alike(a, b)
    ensures AllAlike(SplitLines(a), SplitLines(b))
  {
    hide Split, Alike;
    AlikeSplit(a, b, LF);
    var p, q := Split(a, LF), Split(b, LF);
    forall i | 0 <= i < |p| ensures Alike(SplitLines(a)[i], SplitLines(b)[i]) {
      SameLength(p[i], q[i]);
      if p[i] != [] {
        LastUnit(p[i], q[i], CR);
        AlikeSlice(p[i], q[i], 0, |p[i]| - 1);
      }
    }
  }

  lemma {:induction false} LastUnit(a: Text, b: Text, u: CodeUnit)
    requires Alike(a, b) && a != [] && |a| == |b| && !IsSurrogate(u) && u != REPLACEMENT
    ensures a[|a| - 1] == u <==> b[|b| - 1] == u
    ensures a[0] == u <==> b[0] == u
  {
    assert SameUnit(a[|a| - 1], b[|b| - 1]) && SameUnit(a[0], b[0]);
  }

  // ----- Values --------------------------------------------------------------------------------

  /** Both nothing, or alike. */
  predicate AlikeOption(a: Option<Text>, b: Option<Text>) {
    (a.Some? <==> b.Some?) && (a.Some? ==> Alike(a.value, b.value))
  }

  lemma {:induction false} SameReading(u: CodeUnit, v: CodeUnit)
    requires SameUnit(u, v)
    ensures Json.SimpleEscape(u) == Json.SimpleEscape(v) && Json.HexValue(u) == Json.HexValue(v)
    ensures u < 32 <==> v < 32
    ensures u == QUOTE <==> v == QUOTE
    ensures u == BACKSLASH <==> v == BACKSLASH
    ensures u == Json.LETTER_U <==> v == Json.LETTER_U
  {
  }

  lemma {:induction false} AlikePrepend(u: CodeUnit, v: CodeUnit, a: Option<Text>, b: Option<Text>)
    requires SameUnit(u, v) && AlikeOption(a, b)
    ensures AlikeOption(Json.Prepend(u, a), Json.Prepend(v, b))
  {
    if a.Some? { AlikeConcat([u], [v], a.value, b.value); }
  }

  /** A JSON string is read alike: only units outside it could matter, and those are the same. */
  lemma {:induction false} AlikeParseRest(a: Text, b: Text)
    requires Alike(a, b)
    ensures AlikeOption(Json.ParseRest(a), Json.ParseRest(b))
    decreases |a|
  {
    hide AlikeOption, SameUnit, Json.SimpleEscape, Json.HexValue, Json.Prepend;
    if a == [] {
      NothingAlike();
    } else {
      SameReading(a[0], b[0]);
      AlikeSlice(a, b, 1, |a|);
      NothingAlike();
      if a[0] >= 32 && a[0] != QUOTE {
        if a[0] != BACKSLASH {
          AlikeParseRest(a[1..], b[1..]);
          AlikePrepend(a[0], b[0], Json.ParseRest(a[1..]), Json.ParseRest(b[1..]));
        } else {
          AlikeParseEscaped(a, b);
        }
      }
    }
  }

  lemma {:induction false} NothingAlike()
    ensures AlikeOption(None, None) && AlikeOption(Some([]), Some([]))
  {
  }

  lemma {:induction false} SameItself(u: CodeUnit)
    ensures SameUnit(u, u)
  {
  }

  lemma {:induction false} AlikeParseEscaped(a: Text, b: Text)
    requires Alike(a, b) && a != [] && a[0] == b[0] == BACKSLASH
    ensures AlikeOption(Json.ParseRest(a), Json.ParseRest(b))
    decreases |a|, 0
  {
    hide AlikeOption, SameUnit, Json.SimpleEscape, Json.HexValue, Json.Prepend;
    NothingAlike();
    if |a| >= 2 {
      SameReading(a[1], b[1]);
      if Json.SimpleEscape(a[1]).Some? {
        var u := Json.SimpleEscape(a[1]).value;
        AlikeSlice(a, b, 2, |a|);
        AlikeParseRest(a[2..], b[2..]);
        SameItself(u);
        AlikePrepend(u, u, Json.ParseRest(a[2..]), Json.ParseRest(b[2..]));
      } else if |a| >= 6 {
        SameReading(a[2], b[2]);
        SameReading(a[3], b[3]);
        SameReading(a[4], b[4]);
        SameReading(a[5], b[5]);
        AlikeSlice(a, b, 6, |a|);
        AlikeParseRest(a[6..], b[6..]);
        if Json.HexValue(a[2]) < 16 && Json.HexValue(a[3]) < 16 && Json.HexValue(a[4]) < 16 && Json.HexValue(a[5]) < 16 {
          var u := 4096 * Json.HexValue(a[2]) + 256 * Json.HexValue(a[3]) + 16 * Json.HexValue(a[4]) + Json.HexValue(a[5]);
          SameItself(u);
          AlikePrepend(u, u, Json.ParseRest(a[6..]), Json.ParseRest(b[6..]));
        }
      }
    }
  }

  lemma {:induction false} SameMark(u: CodeUnit, v: CodeUnit)
    requires SameUnit(u, v)
    ensures u == APOSTROPHE <==> v == APOSTROPHE
    ensures IsLineEnd(u) <==> IsLineEnd(v)
  {
  }

  lemma {:induction false} AlikeUndouble(a: Text, b: Text)
    requires Alike(a, b)
    ensures Alike(UndoubleApostrophes(a), UndoubleApostrophes(b))
    decreases |a|
  {
    if a != [] {
      SameMark(a[0], b[0]);
      if |a| >= 2 && a[0] == a[1] == APOSTROPHE {
        SameMark(a[1], b[1]);
        AlikeSlice(a, b, 2, |a|);
        AlikeUndouble(a[2..], b[2..]);
        AlikeConcat([APOSTROPHE], [APOSTROPHE], UndoubleApostrophes(a[2..]), UndoubleApostrophes(b[2..]));
      } else {
        if |a| >= 2 { SameMark(a[1], b[1]); }
        AlikeSlice(a, b, 1, |a|);
        AlikeUndouble(a[1..], b[1..]);
        AlikeConcat([a[0]], [b[0]], UndoubleApostrophes(a[1..]), UndoubleApostrophes(b[1..]));
      }
    }
  }

  lemma {:induction false} SameLineEnds(a: Text, b: Text)
    requires Alike(a, b)
    ensures (forall u :: u in a ==> !IsLineEnd(u)) <==> (forall u :: u in b ==> !IsLineEnd(u))
  {
    forall i | 0 <= i < |a| ensures IsLineEnd(a[i]) <==> IsLineEnd(b[i]) { SameMark(a[i], b[i]); }
    if u :| u in a && IsLineEnd(u) {
      var i :| 0 <= i < |a| && a[i] == u;
      assert b[i] in b;
    }
    if u :| u in b && IsLineEnd(u) {
      var i :| 0 <= i < |b| && b[i] == u;
      assert a[i] in a;
    }
  }

  lemma {:induction false} AlikeUnquote(a: Text, b: Text)
    requires Alike(a, b)
    ensures Alike(Unquote(a), Unquote(b))
  {
    hide UndoubleApostrophes, IsLineEnd, Json.ParseRest, Alike;
    SameLength(a, b);
    if a != [] {
      LastUnit(a, b, QUOTE);
      LastUnit(a, b, APOSTROPHE);
      AlikeSlice(a, b, 1, |a|);
      AlikeParseRest(a[1..], b[1..]);
      if |a| >= 2 {
        AlikeSlice(a, b, 1, |a| - 1);
        SameLineEnds(a[1..|a| - 1], b[1..|b| - 1]);
        AlikeUndouble(a[1..|a| - 1], b[1..|b| - 1]);
      }
    }
  }

  // ----- Fields -----------------------------------------------------------------------------------

  ghost predicate AlikeField(a: Option<(Text, Text)>, b: Option<(Text, Text)>) {
    (a.Some? <==> b.Some?) && (a.Some? ==> Alike(a.value.0, b.value.0) && Alike(a.value.1, b.value.1))
  }

  lemma {:induction false} AlikeLineField(a: Text, b: Text)
    requires Alike(a, b)
    ensures AlikeField(LineField(a), LineField(b))
  {
    hide Alike, Trim, Unquote, Find;
    SameLength(a, b);
    AlikeFind(a, b, COLON);
    var colon := Find(a, COLON);
    if a != [] { LastUnit(a, b, SPACE); }
    AlikeSlice(a, b, 0, colon);
    AlikeTrim(a[..colon], b[..colon]);
    if colon < |a| {
      AlikeSlice(a, b, colon + 1, |a|);
      AlikeTrim(a[colon + 1..], b[colon + 1..]);
      AlikeUnquote(Trim(a[colon + 1..]), Trim(b[colon + 1..]));
    }
  }

  function Lookup(fields: map<Text, Text>, key: Text): Option<Text> {
    if key in fields then Some(fields[key]) else None
  }

  /** A key without surrogates finds the same line in both, with values alike. */
  lemma {:induction false} AlikeFields(a: seq<Text>, b: seq<Text>, key: Text)
    requires AllAlike(a, b) && Whole(key)
    ensures AlikeOption(Lookup(FieldsOf(a), key), Lookup(FieldsOf(b), key))
  {
    if a == [] {
      NothingAlike();
    } else {
      hide Alike, LineField, Whole;
      var k := |a| - 1;
      AlikeFields(a[..k], b[..k], key);
      AlikeLineField(a[k], b[k]);
      var f, g := LineField(a[k]), LineField(b[k]);
      if f.Some? {
        if f.value.0 == key { AlikeWhole(key, g.value.0); }
        if g.value.0 == key { AlikeWhole(f.value.0, key); }
      }
    }
  }

  // ----- The block ----------------------------------------------------------------------------------

  lemma {:induction false} DashesAreWhole()
    ensures Whole(DASHES + [LF]) && Whole(DASHES + [CR, LF]) && Whole([LF] + DASHES) && Whole([CR, LF] + DASHES)
  {
  }

  lemma {:induction false} AlikeClosing(a: Text, b: Text)
    requires Alike(a, b)
    ensures ClosingLength(a) == ClosingLength(b) && OpeningLength(a) == OpeningLength(b)
  {
    hide Alike, Whole;
    DashesAreWhole();
    AlikePrefix(a, b, [LF] + DASHES);
    AlikePrefix(a, b, [CR, LF] + DASHES);
    AlikePrefix(a, b, DASHES + [LF]);
    AlikePrefix(a, b, DASHES + [CR, LF]);
  }

  lemma {:induction false} AlikeFindClosing(a: Text, b: Text)
    requires Alike(a, b)
    ensures FindClosing(a) == FindClosing(b)
  {
    hide ClosingLength, SameUnit;
    AlikeClosing(a, b);
    if a != [] {
      AlikeSlice(a, b, 1, |a|);
      AlikeFindClosing(a[1..], b[1..]);
    }
  }

  lemma {:induction false} AlikeAfterClosing(a: Text, b: Text)
    requires Alike(a, b)
    ensures Alike(AfterClosing(a), AfterClosing(b))
  {
    hide Alike;
    SameLength(a, b);
    if a != [] {
      LastUnit(a, b, CR);
      LastUnit(a, b, LF);
      AlikeSlice(a, b, 1, |a|);
      if |a| >= 2 {
        LastUnit(a[1..], b[1..], LF);
        AlikeSlice(a[1..], b[1..], 1, |a| - 1);
      }
    }
  }

  lemma {:induction false} AlikeMatch(a: Text, b: Text)
    requires Alike(a, b)
    ensures AlikeField(MatchBlock(a), MatchBlock(b))
  {
    hide Alike, OpeningLength, ClosingLength, FindClosing, AfterClosing;
    AlikeClosing(a, b);
    SameLength(a, b);
    var open := OpeningLength(a);
    AlikeSlice(a, b, open, |a|);
    var x, y := a[open..], b[open..];
    SameLength(x, y);
    AlikeFindClosing(x, y);
    var close := FindClosing(x);
    AlikeSlice(x, y, 0, close);
    AlikeSlice(x, y, close, |x|);
    AlikeClosing(x[close..], y[close..]);
    var n := close + ClosingLength(x[close..]);
    AlikeSlice(x, y, n, |x|);
    AlikeAfterClosing(x[n..], y[n..]);
  }

  /** A stored document has the same fields but for surrogates in their values, and its body likewise. */
  lemma {:induction false} StoredDocument(t: Text, key: Text)
    requires Whole(key)
    ensures AlikeOption(Lookup(Read(t).fields, key), Lookup(Read(Stored(t)).fields, key))
    ensures Alike(Read(t).body, Read(Stored(t)).body)
  {
    hide Alike, Whole, MatchBlock, SplitLines, FieldsOf, Stored;
    StoredIsAlike(t);
    AlikeMatch(t, Stored(t));
    NothingAlike();
    var a, b := MatchBlock(t), MatchBlock(Stored(t));
    if a.Some? {
      AlikeLines(a.value.0, b.value.0);
      AlikeFields(SplitLines(a.value.0), SplitLines(b.value.0), key);
    }
  }
}
