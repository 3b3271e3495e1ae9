/** JSON strings (section 7 of RFC 8259), as `JSON.stringify` writes and `JSON.parse` reads them. */
module Json {
  import opened Options
  import opened JsText
  import Sequences

  const LETTER_B: CodeUnit := 98
  const LETTER_F: CodeUnit := 102
  const LETTER_N: CodeUnit := 110
  const LETTER_R: CodeUnit := 114
  const LETTER_T: CodeUnit := 116
  const LETTER_U: CodeUnit := 117

  predicate IsHigh(u: CodeUnit) { 0xD800 <= u <= 0xDBFF }

  predicate IsLow(u: CodeUnit) { 0xDC00 <= u <= 0xDFFF }

  function HexDigit(n: nat): CodeUnit
    requires n < 16
  {
    if n < 10 then 48 + n else 87 + n
  }

  function Hex4(u: CodeUnit): Text {
    var third := u / 16;
    var second := third / 16;
    [HexDigit(second / 16), HexDigit(second % 16), HexDigit(third % 16), HexDigit(u % 16)]
  }

  /** The value of a hexadecimal digit, 16 for anything else. */
  function HexValue(u: CodeUnit): (n: nat)
    ensures n <= 16
  {
    if IsDigit(u) then u - 48
    else if 97 <= u <= 102 then u - 87
    else if 65 <= u <= 70 then u - 55
    else 16
  }

  function EscapeUnit(u: CodeUnit): (t: Text)
    ensures |t| >= 1
  {
    if u == QUOTE || u == BACKSLASH then [BACKSLASH, u]
    else if u == 8 then [BACKSLASH, LETTER_B]
    else if u == TAB then [BACKSLASH, LETTER_T]
    else if u == LF then [BACKSLASH, LETTER_N]
    else if u == 12 then [BACKSLASH, LETTER_F]
    else if u == CR then [BACKSLASH, LETTER_R]
    else if u < 32 || IsHigh(u) || IsLow(u) then [BACKSLASH, LETTER_U] + Hex4(u)
    else [u]
  }

  /** A surrogate pair is written as it is; a lone surrogate is escaped. */
  function Escape(s: Text): Text {
    if s == [] then []
    else if |s| >= 2 && IsHigh(s[0]) && IsLow(s[1]) then s[..2] + Escape(s[2..])
    else EscapeUnit(s[0]) + Escape(s[1..])
  }

  function Stringify(s: Text): Text {
    [QUOTE] + Escape(s) + [QUOTE]
  }

  function Prepend(u: CodeUnit, rest: Option<Text>): Option<Text> {
    if rest.None? then None else Some([u] + rest.value)
  }

  function SimpleEscape(u: CodeUnit): Option<CodeUnit> {
    if u == QUOTE || u == BACKSLASH || u == SLASH then Some(u)
    else if u == LETTER_B then Some(8)
    else if u == LETTER_F then Some(12)
    else if u == LETTER_N then Some(LF)
    else if u == LETTER_R then Some(CR)
    else if u == LETTER_T then Some(TAB)
    else None
  }

  /** The string whose opening quote has just been read; the closing one must end the text. */
  function ParseRest(t: Text): Option<Text>
    decreases |t|
  {
    if t == [] || t[0] < 32 then None
    else if t[0] == QUOTE then if |t| == 1 then Some([]) else None
    else if t[0] != BACKSLASH then Prepend(t[0], ParseRest(t[1..]))
    else if |t| >= 2 && SimpleEscape(t[1]).Some? then Prepend(SimpleEscape(t[1]).value, ParseRest(t[2..]))
    else if |t| >= 6 && t[1] == LETTER_U
            && HexValue(t[2]) < 16 && HexValue(t[3]) < 16 && HexValue(t[4]) < 16 && HexValue(t[5]) < 16 then
      Prepend(4096 * HexValue(t[2]) + 256 * HexValue(t[3]) + 16 * HexValue(t[4]) + HexValue(t[5]), ParseRest(t[6..]))
    else None
  }

  /** `JSON.parse` of a trimmed text that starts with a quote. */
  function Parse(t: Text): Option<Text> {
    if t == [] || t[0] != QUOTE then None else ParseRest(t[1..])
  }

  lemma {:induction false} HexDigitRoundTrip(n: nat)
    requires n < 16
    ensures HexValue(HexDigit(n)) == n
  {
  }

  lemma {:induction false} HexRoundTrip(u: CodeUnit)
    ensures var h := Hex4(u);
            && HexValue(h[0]) < 16 && HexValue(h[1]) < 16 && HexValue(h[2]) < 16 && HexValue(h[3]) < 16
            && 4096 * HexValue(h[0]) + 256 * HexValue(h[1]) + 16 * HexValue(h[2]) + HexValue(h[3]) == u
  {
    var third := u / 16;
    var second := third / 16;
    HexDigitRoundTrip(second / 16);
    HexDigitRoundTrip(second % 16);
    HexDigitRoundTrip(third % 16);
    HexDigitRoundTrip(u % 16);
  }

  lemma {:induction false} ParseEscaped(u: CodeUnit, rest: Text)
    ensures ParseRest(EscapeUnit(u) + rest) == Prepend(u, ParseRest(rest))
  {
    var e := EscapeUnit(u);
    if |e| == 1 {
      assert (e + rest)[1..] == rest;
    } else if |e| == 2 {
      assert (e + rest)[2..] == rest;
    } else {
      HexRoundTrip(u);
      assert (e + rest)[6..] == rest;
      assert SimpleEscape(LETTER_U) == None;
    }
  }

  lemma {:induction false} ParseEscapedAll(s: Text)
    ensures ParseRest(Escape(s) + [QUOTE]) == Some(s)
    decreases |s|
  {
    hide ParseRest;
    if s == [] {
      ParseClosing();
      assert Escape(s) + [QUOTE] == [QUOTE];
    } else if |s| >= 2 && IsHigh(s[0]) && IsLow(s[1]) {
      var rest := Escape(s[2..]) + [QUOTE];
      ParseEscapedAll(s[2..]);
      ParsePlain(s[1], rest);
      ParsePlain(s[0], [s[1]] + rest);
      Sequences.Associative(s[..2], Escape(s[2..]), [QUOTE]);
      assert s[..2] + rest == [s[0]] + ([s[1]] + rest);
      assert s == [s[0]] + ([s[1]] + s[2..]);
    } else {
      var rest := Escape(s[1..]) + [QUOTE];
      ParseEscapedAll(s[1..]);
      ParseEscaped(s[0], rest);
      Sequences.Associative(EscapeUnit(s[0]), Escape(s[1..]), [QUOTE]);
      assert s == [s[0]] + s[1..];
    }
  }

  lemma {:induction false} ParseClosing()
    ensures ParseRest([QUOTE]) == Some([])
  {
  }

  lemma {:induction false} ParsePlain(u: CodeUnit, rest: Text)
    requires u >= 32 && u != QUOTE && u != BACKSLASH
    ensures ParseRest([u] + rest) == Prepend(u, ParseRest(rest))
  {
    assert ([u] + rest)[1..] == rest;
  }

  /** Every string, lone surrogates and control characters included, survives the round trip. */
  lemma {:induction false} StringifyRoundTrip(s: Text)
    ensures Parse(Stringify(s)) == Some(s)
  {
    ParseEscapedAll(s);
    assert Stringify(s)[1..] == Escape(s) + [QUOTE];
  }

  /** The written form holds no control character, so it stays on one line. */
  lemma {:induction false} EscapeIsOneLine(s: Text)
    ensures forall u :: u in Escape(s) ==> u >= 32
    decreases |s|
  {
    if s == [] {
    } else if |s| >= 2 && IsHigh(s[0]) && IsLow(s[1]) {
      EscapeIsOneLine(s[2..]);
    } else {
      EscapeIsOneLine(s[1..]);
    }
  }
}
