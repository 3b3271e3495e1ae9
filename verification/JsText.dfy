/**
 JavaScript strings: sequences of 16-bit code units, with the few string
 operations the modelled code uses.
 */
module JsText {

  type CodeUnit = u: int | 0 <= u < 0x1_0000

  type Text = seq<CodeUnit>

  const TAB: CodeUnit := 9
  const LF: CodeUnit := 10
  const CR: CodeUnit := 13
  const SPACE: CodeUnit := 32
  const QUOTE: CodeUnit := 34
  const APOSTROPHE: CodeUnit := 39
  const COMMA: CodeUnit := 44
  const DASH: CodeUnit := 45
  const DOT: CodeUnit := 46
  const SLASH: CodeUnit := 47
  const ZERO: CodeUnit := 48
  const COLON: CodeUnit := 58
  const BACKSLASH: CodeUnit := 92
  const UNDERSCORE: CodeUnit := 95

  predicate IsDigit(u: CodeUnit) { 48 <= u <= 57 }

  predicate IsLower(u: CodeUnit) { 97 <= u <= 122 }

  predicate IsUpper(u: CodeUnit) { 65 <= u <= 90 }

  // ----- trim ---------------------------------------------------------------

  /** White space and line terminators, as `String.prototype.trim` strips them. */
  predicate IsSpace(u: CodeUnit) {
    || 9 <= u <= 13 || u == 32 || u == 0xA0 || u == 0x1680 || 0x2000 <= u <= 0x200A
    || u == 0x2028 || u == 0x2029 || u == 0x202F || u == 0x205F || u == 0x3000 || u == 0xFEFF
  }

  function TrimStart(t: Text): Text {
    if t != [] && IsSpace(t[0]) then TrimStart(t[1..]) else t
  }

  function TrimEnd(t: Text): Text {
    if t != [] && IsSpace(t[|t| - 1]) then TrimEnd(t[..|t| - 1]) else t
  }

  function Trim(t: Text): Text {
    TrimEnd(TrimStart(t))
  }

  /** Nothing to strip at either end. */
  predicate Trimmed(t: Text) {
    t == [] || (!IsSpace(t[0]) && !IsSpace(t[|t| - 1]))
  }

  lemma {:induction false} TrimEndKeepsFront(t: Text)
    ensures |TrimEnd(t)| <= |t| && TrimEnd(t) == t[..|TrimEnd(t)|]
    ensures TrimEnd(t) != [] ==> !IsSpace(TrimEnd(t)[|TrimEnd(t)| - 1])
  {
    if t != [] && IsSpace(t[|t| - 1]) {
      TrimEndKeepsFront(t[..|t| - 1]);
    }
  }

  lemma {:induction false} TrimStartKeepsBack(t: Text)
    ensures |TrimStart(t)| <= |t| && TrimStart(t) == t[|t| - |TrimStart(t)|..]
    ensures TrimStart(t) != [] ==> !IsSpace(TrimStart(t)[0])
  {
    if t != [] && IsSpace(t[0]) {
      TrimStartKeepsBack(t[1..]);
    }
  }

  lemma {:induction false} TrimTrims(t: Text)
    ensures Trimmed(Trim(t)) && |Trim(t)| <= |t|
    ensures Trimmed(t) ==> Trim(t) == t
  {
    TrimStartKeepsBack(t);
    TrimEndKeepsFront(TrimStart(t));
  }

  lemma {:induction false} TrimStartPadded(pad: Text, t: Text)
    requires forall u :: u in pad ==> IsSpace(u)
    ensures TrimStart(pad + t) == TrimStart(t)
  {
    if pad == [] {
      assert pad + t == t;
    } else {
      assert (pad + t)[1..] == pad[1..] + t;
      TrimStartPadded(pad[1..], t);
    }
  }

  lemma {:induction false} TrimEndPadded(t: Text, pad: Text)
    requires forall u :: u in pad ==> IsSpace(u)
    ensures TrimEnd(t + pad) == TrimEnd(t)
  {
    if pad == [] {
      assert t + pad == t;
    } else {
      var n := |pad| - 1;
      assert (t + pad)[..|t + pad| - 1] == t + pad[..n];
      TrimEndPadded(t, pad[..n]);
    }
  }

  /** White space around a trimmed text is what `trim` takes off. */
  lemma {:induction false} TrimPadded(before: Text, t: Text, after: Text)
    requires forall u :: u in before ==> IsSpace(u)
    requires forall u :: u in after ==> IsSpace(u)
    requires t != [] && Trimmed(t)
    ensures Trim(before + t + after) == t
  {
    assert before + t + after == before + (t + after);
    TrimStartPadded(before, t + after);
    assert TrimStart(t + after) == t + after;
    TrimEndPadded(t, after);
  }

  predicate White(t: Text) { forall u :: u in t ==> IsSpace(u) }

  /** What `trim` takes off is white space at both ends. */
  lemma {:induction false} TrimTakesWhite(t: Text) returns (before: Text, after: Text)
    ensures White(before) && White(after) && t == before + Trim(t) + after
  {
    var rest;
    before, rest := StartTakesWhite(t);
    var front;
    front, after := EndTakesWhite(rest);
    assert t == before + (front + after) == before + front + after;
  }

  lemma {:induction false} StartTakesWhite(t: Text) returns (before: Text, rest: Text)
    ensures White(before) && rest == TrimStart(t) && t == before + rest
  {
    if t != [] && IsSpace(t[0]) {
      before, rest := StartTakesWhite(t[1..]);
      before := [t[0]] + before;
    } else {
      before, rest := [], t;
    }
  }

  lemma {:induction false} EndTakesWhite(t: Text) returns (front: Text, after: Text)
    ensures White(after) && front == TrimEnd(t) && t == front + after
  {
    if t != [] && IsSpace(t[|t| - 1]) {
      front, after := EndTakesWhite(t[..|t| - 1]);
      after := after + [t[|t| - 1]];
    } else {
      front, after := t, [];
    }
  }

  // ----- split and join -----------------------------------------------------

  /** The first index of `u`, or the length. */
  function Find(t: Text, u: CodeUnit): (i: nat)
    ensures i <= |t|
    ensures u !in t[..i]
    ensures i < |t| ==> t[i] == u
  {
    if t == [] || t[0] == u then 0
    else
      var i := 1 + Find(t[1..], u);
      assert t[..i] == [t[0]] + t[1..][..i - 1];
      i
  }

  function Split(t: Text, sep: CodeUnit): (parts: seq<Text>)
    ensures |parts| >= 1
    decreases |t|
  {
    var i := Find(t, sep);
    if i == |t| then [t] else [t[..i]] + Split(t[i + 1..], sep)
  }

  function Join(parts: seq<Text>, sep: CodeUnit): Text
    requires |parts| >= 1
  {
    if |parts| == 1 then parts[0] else parts[0] + [sep] + Join(parts[1..], sep)
  }

  lemma {:induction false} FindAt(t: Text, u: CodeUnit, i: nat)
    requires i <= |t| && u !in t[..i] && (i < |t| ==> t[i] == u)
    ensures Find(t, u) == i
  {
    assert i < |t| ==> u in t[..i + 1];
  }

  /** The part before the first separator, and the split of what follows it. */
  lemma {:induction false} SplitCons(head: Text, tail: Text, sep: CodeUnit)
    requires sep !in head
    ensures Split(head + [sep] + tail, sep) == [head] + Split(tail, sep)
  {
    var t := head + [sep] + tail;
    assert t[..|head|] == head && t[|head| + 1..] == tail;
    FindAt(t, sep, |head|);
  }

  lemma {:induction false} SplitSingle(t: Text, sep: CodeUnit)
    requires sep !in t
    ensures Split(t, sep) == [t]
  {
    assert t[..|t|] == t;
    FindAt(t, sep, |t|);
  }

  lemma {:induction false} JoinSplit(t: Text, sep: CodeUnit)
    ensures Join(Split(t, sep), sep) == t
    ensures forall p :: p in Split(t, sep) ==> sep !in p
    decreases |t|
  {
    var i := Find(t, sep);
    if i < |t| {
      JoinSplit(t[i + 1..], sep);
      var parts := Split(t[i + 1..], sep);
      assert Split(t, sep)[1..] == parts;
      assert t == t[..i] + [sep] + t[i + 1..];
    } else {
      assert t[..i] == t;
    }
  }

  // ----- decimal numbers ----------------------------------------------------

  /** A natural number as a template literal prints it. */
  function Decimal(n: nat): (t: Text)
    ensures |t| >= 1 && forall u :: u in t ==> IsDigit(u)
  {
    if n < 10 then [48 + n] else Decimal(n / 10) + [48 + n % 10]
  }

  /** A run of digits as `Number` reads it. */
  function DecimalValue(t: Text): nat
    requires forall u :: u in t ==> IsDigit(u)
  {
    if t == [] then 0
    else
      var last: int := t[|t| - 1];
      assert IsDigit(last) && 0 <= last - 48;
      10 * DecimalValue(t[..|t| - 1]) + (last - 48)
  }

  lemma {:induction false} DecimalRoundTrip(n: nat)
    ensures DecimalValue(Decimal(n)) == n
  {
    if n >= 10 {
      DecimalRoundTrip(n / 10);
      assert Decimal(n)[..|Decimal(n)| - 1] == Decimal(n / 10);
    }
  }

  lemma {:induction false} ZeroInFront(digits: Text)
    requires forall u :: u in digits ==> IsDigit(u)
    ensures DecimalValue([ZERO] + digits) == DecimalValue(digits)
  {
    var all := [ZERO] + digits;
    if digits == [] {
      assert all[..0] == [];
    } else {
      assert all[..|all| - 1] == [ZERO] + digits[..|digits| - 1];
      ZeroInFront(digits[..|digits| - 1]);
    }
  }

  /** Nothing but zeros. */
  predicate Zeros(t: Text) { forall u :: u in t ==> u == ZERO }

  /** Zeros in front of a number do not change what it is read as. */
  lemma {:induction false} ZerosInFront(zeros: Text, digits: Text)
    requires Zeros(zeros) && forall u :: u in digits ==> IsDigit(u)
    ensures (forall u :: u in zeros + digits ==> IsDigit(u)) && DecimalValue(zeros + digits) == DecimalValue(digits)
  {
    if zeros == [] {
      assert zeros + digits == digits;
    } else {
      assert zeros[0] in zeros;
      assert forall u :: u in zeros[1..] ==> u in zeros;
      assert zeros + digits == [ZERO] + (zeros[1..] + digits);
      ZerosInFront(zeros[1..], digits);
      ZeroInFront(zeros[1..] + digits);
    }
  }

  /** Every run of digits is a printed number with zeros in front. */
  lemma {:induction false} DigitsAreANumber(t: Text) returns (zeros: Text)
    requires t != [] && forall u :: u in t ==> IsDigit(u)
    ensures Zeros(zeros) && t == zeros + Decimal(DecimalValue(t))
  {
    var front, last := t[..|t| - 1], t[|t| - 1];
    assert t == front + [last] && IsDigit(last);
    if front == [] {
      zeros := [];
    } else {
      zeros := DigitsAreANumber(front);
      if DecimalValue(front) == 0 {
        zeros := zeros + [ZERO];
      } else {
        assert Decimal(DecimalValue(t)) == Decimal(DecimalValue(front)) + [last];
      }
    }
  }

  /** A larger number is never printed shorter. */
  lemma {:induction false} DecimalLengthMonotone(m: nat, n: nat)
    requires m <= n
    ensures |Decimal(m)| <= |Decimal(n)|
  {
    if n >= 10 && m >= 10 {
      DecimalLengthMonotone(m / 10, n / 10);
    }
  }

  predicate NoDigit(t: Text) { forall u :: u in t ==> !IsDigit(u) }

  /** The numbers the text spells, in order, are exactly these. */
  ghost predicate Names(t: Text, numbers: seq<nat>)
    decreases |numbers|
  {
    if numbers == [] then NoDigit(t)
    else
      exists gap: Text, rest: Text ::
        && NoDigit(gap) && t == gap + (Decimal(numbers[0]) + rest)
        && (rest == [] || !IsDigit(rest[0])) && Names(rest, numbers[1..])
  }

  lemma {:induction false} NamesNothing(t: Text)
    requires NoDigit(t)
    ensures Names(t, [])
  {
  }

  lemma {:induction false} NamesOneMore(gap: Text, n: nat, rest: Text, numbers: seq<nat>)
    requires NoDigit(gap) && (rest == [] || !IsDigit(rest[0])) && Names(rest, numbers)
    ensures Names(gap + (Decimal(n) + rest), [n] + numbers)
  {
    assert ([n] + numbers)[1..] == numbers;
  }

  // ----- literals -----------------------------------------------------------

  /** The text of a literal, unit by unit. */
  function Literal(s: string): Text {
    seq(|s|, i requires 0 <= i < |s| => if s[i] as int < 0x1_0000 then s[i] as int else 63)
  }

  lemma {:induction false} LiteralConcat(a: string, b: string)
    ensures Literal(a + b) == Literal(a) + Literal(b)
  {
  }
}
