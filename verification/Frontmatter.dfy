/** The leading `---` block of a stored Markdown file (`src/customization/model.ts`). */
module Frontmatter {
  import opened Options
  import opened JsText
  import Json
  import Sequences

  /** A block's fields, and the body after it. */
  datatype Document = Document(fields: map<Text, Text>, body: Text)

  const DASHES: Text := [DASH, DASH, DASH]

  /** The length of the opening `---` line, or 0. */
  function OpeningLength(t: Text): (n: nat)
    ensures n <= |t|
  {
    if DASHES + [LF] <= t then 4
    else if DASHES + [CR, LF] <= t then 5
    else 0
  }

  /** The length of a line break and `---` at the start of `t`, or 0. */
  function ClosingLength(t: Text): (n: nat)
    ensures n <= |t|
  {
    if [LF] + DASHES <= t then 4
    else if [CR, LF] + DASHES <= t then 5
    else 0
  }

  /** The first place a closing line starts, or the length when there is none. */
  function FindClosing(t: Text): (i: nat)
    ensures i <= |t|
  {
    if t == [] || ClosingLength(t) > 0 then 0 else 1 + FindClosing(t[1..])
  }

  /** The optional carriage return and line feed after the closing dashes. */
  function AfterClosing(t: Text): Text {
    var noCr := if t != [] && t[0] == CR then t[1..] else t;
    if noCr != [] && noCr[0] == LF then noCr[1..] else noCr
  }

  /** The block between the dashes and the text after it. */
  function MatchBlock(t: Text): Option<(Text, Text)> {
    var open := OpeningLength(t);
    var rest := t[open..];
    var close := FindClosing(rest);
    if open == 0 || close == |rest| then None
    else Some((rest[..close], AfterClosing(rest[close + ClosingLength(rest[close..])..])))
  }

  /** `split(/\r?\n/)`: the line feeds separate, each with the carriage return before it. */
  function SplitLines(t: Text): seq<Text> {
    var parts := Split(t, LF);
    seq(|parts|, i requires 0 <= i < |parts| =>
      if i < |parts| - 1 && parts[i] != [] && parts[i][|parts[i]| - 1] == CR
      then parts[i][..|parts[i]| - 1] else parts[i])
  }

  predicate IsLineEnd(u: CodeUnit) { u == LF || u == CR || u == 0x2028 || u == 0x2029 }

  function UndoubleApostrophes(t: Text): Text
    decreases |t|
  {
    if t == [] then []
    else if |t| >= 2 && t[0] == t[1] == APOSTROPHE then [APOSTROPHE] + UndoubleApostrophes(t[2..])
    else [t[0]] + UndoubleApostrophes(t[1..])
  }

  function Unquote(value: Text): Text {
    if value != [] && value[0] == QUOTE then
      var parsed := Json.Parse(value);
      if parsed.Some? then parsed.value else value
    else if |value| >= 2 && value[0] == value[|value| - 1] == APOSTROPHE
            && forall u :: u in value[1..|value| - 1] ==> !IsLineEnd(u) then
      UndoubleApostrophes(value[1..|value| - 1])
    else value
  }

  /** A `key: value` line, or nothing for a line that is not one. */
  function LineField(line: Text): Option<(Text, Text)> {
    var colon := Find(line, COLON);
    if colon == |line| || colon == 0 || line[0] == SPACE then None
    else Some((Trim(line[..colon]), Unquote(Trim(line[colon + 1..]))))
  }

  /** The fields of a block; of two lines with one key the later wins. */
  function FieldsOf(lines: seq<Text>): map<Text, Text> {
    if lines == [] then map[]
    else
      var last := LineField(lines[|lines| - 1]);
      var fields := FieldsOf(lines[..|lines| - 1]);
      if last.None? then fields else fields[last.value.0 := last.value.1]
  }

  function Read(t: Text): Document {
    var block := MatchBlock(t);
    if block.None? then Document(map[], t) else Document(FieldsOf(SplitLines(block.value.0)), block.value.1)
  }

  lemma {:induction false} NoFields()
    ensures FieldsOf([]) == map[]
  {
  }

  lemma {:induction false} FieldsNext(lines: seq<Text>, i: nat)
    requires i < |lines|
    ensures FieldsOf(lines[..i + 1]) == var last := LineField(lines[i]);
            if last.None? then FieldsOf(lines[..i]) else FieldsOf(lines[..i])[last.value.0 := last.value.1]
  {
    hide LineField;
    assert lines[..i + 1][..i] == lines[..i];
  }

  method ParseFrontmatter(text: Text) returns (document: Document)
    ensures document == Read(text)
  {
    hide MatchBlock, SplitLines, Unquote, Trim, FieldsOf;
    NoFields();
    var block := MatchBlock(text);
    if block.None? { return Document(map[], text); }
    var fields: map<Text, Text> := map[];
    var lines := SplitLines(block.value.0);
    for i := 0 to |lines|
      invariant fields == FieldsOf(lines[..i])
    {
      FieldsNext(lines, i);
      var line := lines[i];
      var colon := Find(line, COLON);
      if colon == |line| || colon == 0 || line[0] == SPACE { continue; }
      var value := Trim(line[colon + 1..]);
      fields := fields[Trim(line[..colon]) := Unquote(value)];
    }
    assert lines[..|lines|] == lines;
    return Document(fields, block.value.1);
  }

  // ----- Reading back a printed block ---------------------------------------

  /** No closing line can start inside `h`: every line feed is followed by something else than a dash. */
  predicate NoClosingInside(h: Text) {
    && CR !in h
    && forall i :: 0 <= i < |h| && h[i] == LF ==> i + 1 < |h| && h[i + 1] != DASH
  }

  lemma {:induction false} FindClosingAfter(h: Text, tail: Text)
    requires NoClosingInside(h) && ClosingLength(tail) > 0
    ensures FindClosing(h + tail) == |h|
  {
    if h == [] {
      assert h + tail == tail;
    } else {
      assert (h + tail)[1..] == h[1..] + tail;
      assert h[0] in h;
      assert NoClosingInside(h[1..]) by {
        forall i | 0 <= i < |h[1..]| && h[1..][i] == LF ensures i + 1 < |h[1..]| && h[1..][i + 1] != DASH {
          assert h[i + 1] == LF;
        }
      }
      FindClosingAfter(h[1..], tail);
      if h[0] == LF { assert (h + tail)[1] == h[1]; }
      NotClosing(h + tail);
    }
  }

  lemma {:induction false} NotClosing(t: Text)
    requires t != [] && t[0] != CR
    requires t[0] == LF ==> |t| >= 2 && t[1] != DASH
    ensures ClosingLength(t) == 0
  {
    assert ([LF] + DASHES)[0] == LF && ([LF] + DASHES)[1] == DASH;
    assert ([CR, LF] + DASHES)[0] == CR;
  }

  lemma {:induction false} PrintedOpening(rest: Text)
    ensures OpeningLength(DASHES + [LF] + rest) == 4
    ensures (DASHES + [LF] + rest)[4..] == rest
  {
  }

  lemma {:induction false} PrintedClosing(body: Text)
    ensures var tail := [LF] + DASHES + ([LF] + body);
            ClosingLength(tail) == 4 && AfterClosing(tail[4..]) == body
  {
    Sequences.Halves([LF] + DASHES, [LF] + body);
    Sequences.Halves([LF], body);
  }

  /** The match stops at the closing line the printer wrote. */
  lemma {:induction false} PrintedBlock(header: Text, body: Text)
    requires NoClosingInside(header)
    ensures MatchBlock(DASHES + [LF] + (header + ([LF] + DASHES + ([LF] + body)))) == Some((header, body))
  {
    hide FindClosing, AfterClosing, ClosingLength, OpeningLength, NoClosingInside;
    var tail := [LF] + DASHES + ([LF] + body);
    var rest := header + tail;
    PrintedOpening(rest);
    PrintedClosing(body);
    FindClosingAfter(header, tail);
    Sequences.Halves(header, tail);
    assert rest[|header| + 4..] == rest[|header|..][4..];
  }

  /** One printed `key: "value"` line is read back as that key and that value. */
  lemma {:induction false} PrintedField(key: Text, value: Text)
    requires key != [] && Trimmed(key) && COLON !in key
    ensures LineField(key + [COLON, SPACE] + Json.Stringify(value)) == Some((key, value))
  {
    var quoted := Json.Stringify(value);
    var line := key + [COLON, SPACE] + quoted;
    assert line[..|key|] == key && line[|key| + 1..] == [SPACE] + quoted;
    FindAt(line, COLON, |key|);
    TrimTrims(key);
    assert Trimmed(quoted);
    assert [SPACE] + quoted == [SPACE] + quoted + [];
    TrimPadded([SPACE], quoted, []);
    Json.StringifyRoundTrip(value);
    assert line[0] == key[0];
  }

  lemma {:induction false} PrintedLine(key: Text, value: Text)
    requires forall u :: u in key ==> u >= 32
    ensures var line := key + [COLON, SPACE] + Json.Stringify(value);
            (forall u :: u in line ==> u >= 32) && LF !in line && CR !in line
  {
    Json.EscapeIsOneLine(value);
  }

  lemma {:induction false} LinesOfOne(line: Text)
    requires LF !in line
    ensures SplitLines(line) == [line]
  {
    SplitSingle(line, LF);
  }

  lemma {:induction false} LinesOfTwo(a: Text, b: Text)
    requires LF !in a && CR !in a && LF !in b
    ensures SplitLines(a + [LF] + b) == [a, b]
  {
    SplitCons(a, b, LF);
    SplitSingle(b, LF);
    assert a != [] ==> a[|a| - 1] in a;
  }
}
