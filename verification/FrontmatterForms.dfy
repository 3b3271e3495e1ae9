/**
 Frontmatter that people write by hand (`src/customization/model.ts`): other line ends,
 other quotes, none at all.
 */
module FrontmatterForms {
  import opened Options
  import opened JsText
  import opened Frontmatter
  import Json
  import opened Sequences

  // ----- Line ends --------------------------------------------------------------------------

  /** The text with each line feed written as carriage return and line feed. */
  function Windows(t: Text): Text {
    if t == [] then [] else (if t[0] == LF then [CR, LF] else [t[0]]) + Windows(t[1..])
  }

  lemma {:induction false} WindowsConcat(a: Text, b: Text)
    ensures Windows(a + b) == Windows(a) + Windows(b)
  {
    if a == [] {
      assert a + b == b;
    } else {
      assert (a + b)[1..] == a[1..] + b;
      WindowsConcat(a[1..], b);
    }
  }

  lemma {:induction false} OneLineStays(t: Text)
    requires LF !in t
    ensures Windows(t) == t
  {
    if t != [] { OneLineStays(t[1..]); }
  }

  lemma {:induction false} LinesTakenApart(t: Text)
    ensures var i := Find(t, LF);
            Split(t, LF) == if i == |t| then [t] else [t[..i]] + Split(t[i + 1..], LF)
  {
  }

  /** All but the last part ended in a carriage return. */
  lemma {:induction false} WindowsSplit(t: Text)
    requires CR !in t
    ensures var parts, written := Split(t, LF), Split(Windows(t), LF);
            && |written| == |parts|
            && (forall i :: 0 <= i < |parts| - 1 ==> written[i] == parts[i] + [CR])
            && written[|parts| - 1] == parts[|parts| - 1]
    decreases |t|
  {
    hide Split, Find;
    LinesTakenApart(t);
    var i := Find(t, LF);
    FoundAt(t, LF);
    if i == |t| {
      assert t[..i] == t;
      OneLineStays(t);
      SplitSingle(t, LF);
    } else {
      var line, rest := t[..i], t[i + 1..];
      assert t == line + ([LF] + rest);
      WindowsSplit(rest);
      WindowsConcat(line, [LF] + rest);
      OneLineStays(line);
      assert ([LF] + rest)[1..] == rest;
      assert Windows(t) == (line + [CR]) + [LF] + Windows(rest);
      SplitCons(line + [CR], Windows(rest), LF);
    }
  }

  lemma {:induction false} FoundAt(t: Text, u: CodeUnit)
    ensures var i := Find(t, u); i <= |t| && u !in t[..i] && (i < |t| ==> t[i] == u)
  {
  }

  lemma {:induction false} PartsHaveNoReturn(t: Text, part: Text)
    requires CR !in t && part in Split(t, LF)
    ensures CR !in part
    decreases |t|
  {
    hide Split, Find;
    LinesTakenApart(t);
    FoundAt(t, LF);
    var i := Find(t, LF);
    if i < |t| && part in Split(t[i + 1..], LF) { PartsHaveNoReturn(t[i + 1..], part); }
  }

  lemma {:induction false} SameLines(t: Text)
    requires CR !in t
    ensures SplitLines(Windows(t)) == SplitLines(t)
  {
    hide Split, Windows;
    WindowsSplit(t);
    var parts := Split(t, LF);
    forall i | 0 <= i < |parts| ensures SplitLines(Windows(t))[i] == SplitLines(t)[i] {
      PartsHaveNoReturn(t, parts[i]);
      if parts[i] != [] { assert parts[i][|parts[i]| - 1] in parts[i]; }
    }
  }

  lemma {:induction false} WindowsClosing(h: Text, tail: Text)
    requires NoClosingInside(h) && ClosingLength(tail) > 0
    ensures FindClosing(Windows(h) + tail) == |Windows(h)|
  {
    if h == [] {
      assert Windows(h) + tail == tail;
    } else {
      var rest := Windows(h[1..]) + tail;
      NoneInside(h);
      WindowsClosing(h[1..], tail);
      if h[0] == LF {
        assert Windows(h) + tail == [CR, LF] + rest;
        assert rest[0] != DASH;
        NotClosingThere(rest);
      } else {
        assert Windows(h) + tail == [h[0]] + rest;
        NotClosing([h[0]] + rest);
        assert ([h[0]] + rest)[1..] == rest;
      }
    }
  }

  lemma {:induction false} NoneInside(h: Text)
    requires NoClosingInside(h) && h != []
    ensures NoClosingInside(h[1..]) && h[0] != CR
    ensures h[0] == LF ==> h[1..] != [] && Windows(h[1..])[0] != DASH
  {
    assert h[0] in h;
    forall i | 0 <= i < |h[1..]| && h[1..][i] == LF ensures i + 1 < |h[1..]| && h[1..][i + 1] != DASH {
      assert h[i + 1] == LF;
    }
  }

  lemma {:induction false} NotClosingThere(rest: Text)
    requires rest != [] && rest[0] != DASH
    ensures FindClosing([CR, LF] + rest) == 2 + FindClosing(rest)
  {
    var t := [CR, LF] + rest;
    assert t[1..] == [LF] + rest && t[1..][1..] == rest;
    assert ([LF] + DASHES)[0] == LF && ([LF] + DASHES)[1] == DASH && ([CR, LF] + DASHES)[2] == DASH;
    assert ClosingLength(t) == 0;
    assert ([CR, LF] + DASHES)[0] == CR && t[1..][0] == LF && t[1..][1] == rest[0];
    assert ClosingLength(t[1..]) == 0;
  }

  lemma {:induction false} WindowsOpening(rest: Text)
    ensures OpeningLength(DASHES + [CR, LF] + rest) == 5 && (DASHES + [CR, LF] + rest)[5..] == rest
  {
    assert (DASHES + [LF])[3] == LF && (DASHES + [CR, LF] + rest)[3] == CR;
  }

  lemma {:induction false} WindowsEnd(body: Text)
    ensures var tail := [CR, LF] + DASHES + ([CR, LF] + body);
            ClosingLength(tail) == 5 && AfterClosing(tail[5..]) == body
  {
    var tail := [CR, LF] + DASHES + ([CR, LF] + body);
    assert ([LF] + DASHES)[0] == LF && tail[0] == CR;
    Halves([CR, LF] + DASHES, [CR, LF] + body);
    assert ([CR, LF] + body)[1..] == [LF] + body && ([LF] + body)[1..] == body;
  }

  /**
   A file saved with Windows line ends is read like the same file without: it has the
   same fields, and the same body after them.
   */
  lemma {:induction false} WindowsIsReadAlike(header: Text, body: Text)
    requires NoClosingInside(header)
    ensures Read(DASHES + [CR, LF] + (Windows(header) + ([CR, LF] + DASHES + ([CR, LF] + body))))
         == Read(DASHES + [LF] + (header + ([LF] + DASHES + ([LF] + body))))
         == Document(FieldsOf(SplitLines(header)), body)
  {
    hide FindClosing, AfterClosing, ClosingLength, OpeningLength, NoClosingInside, Windows, SplitLines, FieldsOf;
    var tail := [CR, LF] + DASHES + ([CR, LF] + body);
    var rest := Windows(header) + tail;
    PrintedBlock(header, body);
    WindowsOpening(rest);
    WindowsEnd(body);
    WindowsClosing(header, tail);
    Halves(Windows(header), tail);
    assert rest[|Windows(header)| + 5..] == rest[|Windows(header)|..][5..];
    assert CR !in header by { NoReturnInside(header); }
    SameLines(header);
  }

  lemma {:induction false} NoReturnInside(h: Text)
    requires NoClosingInside(h)
    ensures CR !in h
  {
  }

  // ----- Quotes ---------------------------------------------------------------------------

  /** YAML's single quotes, section 7.3.2 of YAML 1.2: an apostrophe inside is doubled. */
  function Doubled(t: Text): Text {
    if t == [] then [] else (if t[0] == APOSTROPHE then [APOSTROPHE, APOSTROPHE] else [t[0]]) + Doubled(t[1..])
  }

  lemma {:induction false} DoubledIsUndoubled(t: Text)
    ensures UndoubleApostrophes(Doubled(t)) == t
    ensures forall u :: u in Doubled(t) ==> u in t
  {
    if t != [] {
      DoubledIsUndoubled(t[1..]);
      var rest := Doubled(t[1..]);
      assert t == [t[0]] + t[1..];
      if t[0] == APOSTROPHE {
        assert Doubled(t) == [APOSTROPHE, APOSTROPHE] + rest && Doubled(t)[2..] == rest;
      } else {
        assert Doubled(t) == [t[0]] + rest && Doubled(t)[1..] == rest;
      }
    }
  }

  /** A line of a field: its key, a colon, and its value with any white space around it. */
  ghost predicate FieldLine(line: Text, key: Text, value: Text) {
    && key != [] && Trimmed(key) && COLON !in key
    && exists before: Text, after: Text :: White(before) && White(after) && line == key + [COLON] + (before + value + after)
  }

  lemma {:induction false} FieldIsRead(line: Text, key: Text, value: Text)
    requires FieldLine(line, key, value) && value != [] && Trimmed(value)
    ensures LineField(line) == Some((key, Unquote(value)))
  {
    hide Unquote;
    var before: Text, after: Text :| White(before) && White(after) && line == key + [COLON] + (before + value + after);
    assert line[..|key|] == key && line[|key| + 1..] == before + value + after;
    FindAt(line, COLON, |key|);
    TrimTrims(key);
    TrimPadded(before, value, after);
    assert line[0] == key[0];
    assert !IsSpace(key[0]);
  }

  /** A value in single quotes is read as what is inside them, doubled apostrophes once. */
  lemma {:induction false} SingleQuotedField(line: Text, key: Text, value: Text)
    requires FieldLine(line, key, [APOSTROPHE] + Doubled(value) + [APOSTROPHE])
    requires forall u :: u in value ==> !IsLineEnd(u)
    ensures LineField(line) == Some((key, value))
  {
    hide LineField, UndoubleApostrophes, Doubled;
    var quoted := [APOSTROPHE] + Doubled(value) + [APOSTROPHE];
    DoubledIsUndoubled(value);
    assert quoted[1..|quoted| - 1] == Doubled(value);
    FieldIsRead(line, key, quoted);
  }

  /** A value without quotes is read as it stands, colons and all, but for the white space around it. */
  lemma {:induction false} PlainField(line: Text, key: Text, value: Text)
    requires FieldLine(line, key, value) && value != [] && Trimmed(value)
    requires value[0] != QUOTE && value[0] != APOSTROPHE
    ensures LineField(line) == Some((key, value))
  {
    hide LineField;
    FieldIsRead(line, key, value);
  }

  /** A value that only starts like a JSON string is taken as it stands. */
  lemma {:induction false} BrokenQuoteIsPlain(line: Text, key: Text, value: Text)
    requires FieldLine(line, key, value) && value != [] && Trimmed(value) && value[0] == QUOTE
    ensures LineField(line) == Some((key, if Json.Parse(value).Some? then Json.Parse(value).value else value))
  {
    hide LineField, Json.Parse;
    FieldIsRead(line, key, value);
  }

  /** No field at all: an indented line, one that starts with a colon, and one without any. */
  lemma {:induction false} NoField(line: Text)
    requires COLON !in line || line[0] == COLON || line[0] == SPACE
    ensures LineField(line).None?
  {
    hide Unquote, Trim;
    if COLON in line && line[0] == COLON { FindAt(line, COLON, 0); }
    FoundAt(line, COLON);
  }

  // ----- None ------------------------------------------------------------------------------

  /** A text that opens no block, or closes none, is all body. */
  lemma {:induction false} AllBody(t: Text)
    requires (!(DASHES + [LF] <= t) && !(DASHES + [CR, LF] <= t)) || forall i :: 0 <= i <= |t| ==> !([LF] + DASHES <= t[i..])
    ensures Read(t) == Document(map[], t)
  {
    if OpeningLength(t) > 0 {
      var rest := t[OpeningLength(t)..];
      forall i | 0 <= i <= |rest| ensures !([LF] + DASHES <= rest[i..]) { assert rest[i..] == t[OpeningLength(t) + i..]; }
      NeverCloses(rest);
    }
  }

  lemma {:induction false} ReturnBeforeClosing(t: Text)
    requires [CR, LF] + DASHES <= t
    ensures [LF] + DASHES <= t[1..]
  {
  }

  lemma {:induction false} NeverCloses(t: Text)
    requires forall i :: 0 <= i <= |t| ==> !([LF] + DASHES <= t[i..])
    ensures FindClosing(t) == |t|
  {
    if t != [] {
      assert t[0..] == t;
      assert !([LF] + DASHES <= t[1..]);
      forall u: Text | [CR, LF] + DASHES <= u ensures [LF] + DASHES <= u[1..] { ReturnBeforeClosing(u); }
      forall i | 0 <= i <= |t[1..]| ensures !([LF] + DASHES <= t[1..][i..]) { assert t[1..][i..] == t[i + 1..]; }
      NeverCloses(t[1..]);
    }
  }
}
