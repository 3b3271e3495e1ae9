/**
 What a section update leaves in the article (`src/utils/article-sections.ts`): when the
 start of the content counts as the section's own heading sent back, and where the rest
 of it stands afterwards.
 */
module ArticleEchoes {
  import opened Options
  import opened JsText
  import opened ArticleSections
  import opened ArticleUpdates

  // ----- The words of a text -------------------------------------------------------------

  predicate IsWord(t: Text) { t != [] && forall u :: u in t ==> !IsSpace(u) }

  /** The text is these words, with white space before, between and after them. */
  ghost predicate Spaced(t: Text, words: seq<Text>)
    decreases |words|
  {
    if words == [] then White(t)
    else
      exists gap: Text, rest: Text ::
        && White(gap) && IsWord(words[0]) && t == gap + (words[0] + rest)
        && (rest == [] || IsSpace(rest[0])) && Spaced(rest, words[1..])
  }

  lemma {:induction false} WordIsTaken(word: Text, rest: Text)
    requires (forall u :: u in word ==> !IsSpace(u)) && (rest == [] || IsSpace(rest[0]))
    ensures WordLength(word + rest) == |word|
  {
    if word == [] {
      assert word + rest == rest;
    } else {
      assert word[0] in word;
      assert forall u :: u in word[1..] ==> u in word;
      assert (word + rest)[1..] == word[1..] + rest;
      WordIsTaken(word[1..], rest);
    }
  }

  lemma {:induction false} GapIsSkipped(gap: Text, rest: Text)
    requires White(gap)
    ensures Words(gap + rest) == Words(rest)
  {
    if gap == [] {
      assert gap + rest == rest;
    } else {
      assert gap[0] in gap;
      assert forall u :: u in gap[1..] ==> u in gap;
      assert (gap + rest)[1..] == gap[1..] + rest;
      GapIsSkipped(gap[1..], rest);
    }
  }

  lemma {:induction false} WordEnds(t: Text)
    ensures var n := WordLength(t);
            (forall u :: u in t[..n] ==> !IsSpace(u)) && (n == |t| || IsSpace(t[n]))
  {
    if t != [] && !IsSpace(t[0]) {
      WordEnds(t[1..]);
      var n := WordLength(t[1..]);
      assert t[..n + 1] == [t[0]] + t[1..][..n];
    }
  }

  lemma {:induction false} SpacedAreWords(t: Text, words: seq<Text>)
    requires Spaced(t, words)
    ensures Words(t) == words
    decreases |words|
  {
    if words == [] {
      assert t + [] == t;
      GapIsSkipped(t, []);
    } else {
      var gap: Text, rest: Text :|
        && White(gap) && IsWord(words[0]) && t == gap + (words[0] + rest)
        && (rest == [] || IsSpace(rest[0])) && Spaced(rest, words[1..]);
      var tail := words[0] + rest;
      GapIsSkipped(gap, tail);
      WordIsTaken(words[0], rest);
      assert words[0][0] in words[0];
      assert tail[..|words[0]|] == words[0] && tail[|words[0]|..] == rest;
      SpacedAreWords(rest, words[1..]);
    }
  }

  lemma {:induction false} WordsAreSpaced(t: Text)
    ensures Spaced(t, Words(t))
    decreases |t|
  {
    if t != [] {
      if IsSpace(t[0]) {
        WordsAreSpaced(t[1..]);
        SpaceInFront(t[0], t[1..], Words(t[1..]));
        assert t == [t[0]] + t[1..] && Words(t) == Words(t[1..]);
        assert Spaced([t[0]] + t[1..], Words(t));
      } else {
        var n := WordLength(t);
        WordEnds(t);
        WordsAreSpaced(t[n..]);
        assert Words(t) == [t[..n]] + Words(t[n..]);
        assert Words(t)[0] == t[..n] && Words(t)[1..] == Words(t[n..]);
        var gap: Text, rest := [], t[n..];
        assert White(gap) && IsWord(t[..n]) && t == gap + (t[..n] + rest);
      }
    }
  }

  lemma {:induction false} SpaceInFront(u: CodeUnit, t: Text, words: seq<Text>)
    requires IsSpace(u) && Spaced(t, words)
    ensures Spaced([u] + t, words)
  {
    if words != [] {
      var gap: Text, rest: Text :|
        && White(gap) && IsWord(words[0]) && t == gap + (words[0] + rest)
        && (rest == [] || IsSpace(rest[0])) && Spaced(rest, words[1..]);
      assert White([u] + gap);
      assert [u] + t == ([u] + gap) + (words[0] + rest);
    } else {
      assert White([u] + t);
    }
  }

  /** The words of a text are the only ones it can be taken apart into. */
  lemma {:induction false} WordsExactly(t: Text, words: seq<Text>)
    ensures Words(t) == words <==> Spaced(t, words)
  {
    WordsAreSpaced(t);
    if Spaced(t, words) { SpacedAreWords(t, words); }
  }

  // ----- Comparing by words -------------------------------------------------------------------

  /** The same words in the same order, however they are spaced. */
  ghost predicate SameWords(a: Text, b: Text) { exists words :: Spaced(a, words) && Spaced(b, words) }

  lemma {:induction false} WordsAreWords(t: Text)
    ensures forall w :: w in Words(t) ==> IsWord(w)
    decreases |t|
  {
    if t != [] {
      if IsSpace(t[0]) {
        WordsAreWords(t[1..]);
      } else {
        WordEnds(t);
        WordsAreWords(t[WordLength(t)..]);
      }
    }
  }

  lemma {:induction false} SplitJoined(words: seq<Text>)
    requires words != [] && forall w :: w in words ==> IsWord(w)
    ensures Split(Join(words, SPACE), SPACE) == words && Join(words, SPACE) != []
  {
    hide Split, Find;
    assert words[0] in words && IsWord(words[0]);
    assert SPACE !in words[0] by { assert IsSpace(SPACE); }
    if |words| == 1 {
      SplitSingle(words[0], SPACE);
      assert words == [words[0]];
    } else {
      assert forall w :: w in words[1..] ==> w in words;
      SplitJoined(words[1..]);
      SplitCons(words[0], Join(words[1..], SPACE), SPACE);
      assert words == [words[0]] + words[1..];
    }
  }

  lemma {:induction false} NormalizedAlike(a: Text, b: Text)
    ensures NormalizeText(a) == NormalizeText(b) <==> SameWords(a, b)
  {
    WordsAreWords(a);
    WordsAreWords(b);
    if Words(a) != [] { SplitJoined(Words(a)); }
    if Words(b) != [] { SplitJoined(Words(b)); }
    WordsAreSpaced(a);
    WordsAreSpaced(b);
    if SameWords(a, b) {
      var words :| Spaced(a, words) && Spaced(b, words);
      SpacedAreWords(a, words);
      SpacedAreWords(b, words);
    }
  }

  // ----- White space at the start of a content ---------------------------------------------------

  predicate IsGap(n: Node) { n.TextNode? && White(n.text) }

  /** All of `body` from its first character on that is not white space. */
  ghost predicate FromFirstVisible(body: Body, kept: Body) {
    exists k :: 0 <= k <= |body| && (forall n :: n in body[..k] ==> IsGap(n)) && StartsVisible(body[k..], kept)
  }

  /** What is kept is everything, but for white space at the start of its first text. */
  ghost predicate StartsVisible(rest: Body, kept: Body) {
    if rest == [] || !rest[0].TextNode? then kept == rest
    else
      && |kept| == |rest| && kept[1..] == rest[1..] && kept[0].TextNode?
      && kept[0].text != [] && !IsSpace(kept[0].text[0])
      && exists gap :: White(gap) && rest[0].text == gap + kept[0].text
  }

  lemma {:induction false} GapsExactly(t: Text)
    ensures TrimStart(t) == [] <==> White(t)
  {
    if t != [] {
      if IsSpace(t[0]) {
        GapsExactly(t[1..]);
        assert t == [t[0]] + t[1..];
      } else {
        assert t[0] in t;
      }
    }
  }

  lemma {:induction false} TrimmedStart(content: Body)
    ensures FromFirstVisible(content, TrimStartBody(content))
  {
    if content == [] || !content[0].TextNode? {
      assert content[0..] == content;
      assert StartsVisible(content[0..], TrimStartBody(content));
    } else {
      var text := content[0].text;
      GapsExactly(text);
      if TrimStart(text) == [] {
        TrimmedStart(content[1..]);
        var rest, kept := content[1..], TrimStartBody(content);
        var k :| 0 <= k <= |rest| && (forall n :: n in rest[..k] ==> IsGap(n)) && StartsVisible(rest[k..], kept);
        assert content[..k + 1] == [content[0]] + rest[..k] && content[k + 1..] == rest[k..];
      } else {
        var gap, rest := StartTakesWhite(text);
        TrimStartKeepsBack(text);
        assert content[0..] == content;
        assert StartsVisible(content[0..], TrimStartBody(content));
      }
    }
  }

  // ----- What counts as the section's own heading --------------------------------------------------

  /** The first node past white space, at `k`, is a heading of the section's level with the words of the section's heading. */
  ghost predicate OwnHeadingAt(content: Body, target: Section, k: nat) {
    && k < |content| && (forall n :: n in content[..k] ==> IsGap(n))
    && content[k].Heading? && target.head.Some? && target.head.value.Heading?
    && content[k].level == target.head.value.level
    && SameWords(content[k].text, target.head.value.text)
  }

  lemma {:induction false} EchoesExactly(n: Node, target: Section)
    ensures Echoes(n, target) <==>
            && n.Heading? && target.head.Some? && target.head.value.Heading?
            && n.level == target.head.value.level && SameWords(n.text, target.head.value.text)
  {
    if n.Heading? && target.head.Some? && target.head.value.Heading? {
      TrimmedTitleCompares(target.head.value.text);
      NormalizedAlike(n.text, target.head.value.text);
    }
    hide NormalizeText, SameWords;
  }

  lemma {:induction false} PastTheGaps(content: Body, k: nat)
    requires k < |content| && (forall n :: n in content[..k] ==> IsGap(n)) && content[k].Heading?
    ensures TrimStartBody(content) == content[k..]
  {
    forall n | n in content[..k] ensures n.TextNode? && TrimStart(n.text) == [] { GapsExactly(n.text); }
    TrimStartBodySkips(content[..k], content[k..]);
    assert content == content[..k] + content[k..];
  }

  lemma {:induction false} LedExactly(content: Body, target: Section)
    ensures LedByEcho(content, target) <==> exists k: nat :: OwnHeadingAt(content, target, k)
  {
    if LedByEcho(content, target) {
      TrimmedStart(content);
      var rest := TrimStartBody(content);
      var k :| 0 <= k <= |content| && (forall n :: n in content[..k] ==> IsGap(n)) && StartsVisible(content[k..], rest);
      EchoesExactly(rest[0], target);
      assert rest == content[k..] && rest[0] == content[k];
      assert OwnHeadingAt(content, target, k);
    }
    forall k: nat | OwnHeadingAt(content, target, k) ensures LedByEcho(content, target) {
      PastTheGaps(content, k);
      EchoesExactly(content[k], target);
    }
  }

  // ----- What the article holds afterwards -----------------------------------------------------------

  /** Only the content of that section changes: what stands before and after it stays. */
  lemma {:induction false} OnlyThatContent(body: Body, index: nat, content: Body) returns (before: Body, after: Body)
    requires index < |Parse(body)|
    ensures ReplaceSectionContent(body, index, content).Some?
    ensures body == before + (Parse(body)[index].content + after)
    ensures ReplaceSectionContent(body, index, content).value == before + (content + after)
    ensures before == Rejoined(Parse(body)[..index]) + (if Parse(body)[index].head.Some? then [Parse(body)[index].head.value] else [])
  {
    hide Sections, Blank, Proper, Rejoined, Written;
    SplitRoundTrip(body);
    var s := Parse(body);
    var mid := s[index].(content := content);
    var head := if s[index].head.Some? then [s[index].head.value] else [];
    TakenApart(s, index, s[index]);
    TakenApart(s, index, mid);
    assert s[index := s[index]] == s;
    WrittenIs(s[index], head);
    WrittenIs(mid, head);
    before, after := Rejoined(s[..index]) + head, Rejoined(s[index + 1..]);
    Regroup(Rejoined(s[..index]), head, s[index].content, after);
    Regroup(Rejoined(s[..index]), head, content, after);
  }

  lemma {:induction false} WrittenIs(s: Section, head: Body)
    requires head == if s.head.Some? then [s.head.value] else []
    ensures Written(s) == head + s.content
  {
  }

  lemma {:induction false} Regroup(a: Body, b: Body, c: Body, d: Body)
    ensures a + ((b + c) + d) == (a + b) + (c + d)
  {
  }

  lemma {:induction false} TakenApart(s: seq<Section>, index: nat, mid: Section)
    requires index < |s|
    ensures Rejoined(s[index := mid]) == Rejoined(s[..index]) + (Written(mid) + Rejoined(s[index + 1..]))
  {
    hide Rejoined, Written;
    var front, back := s[..index], s[index + 1..];
    assert s[index := mid] == front + ([mid] + back);
    RejoinedConcat(front, [mid] + back);
    RejoinedConcat([mid], back);
    RejoinedOne(mid);
  }

  /**
   Content is taken as it was sent unless it starts, past white space, with a heading
   of the section's level and words. Then everything after that heading is taken, from
   its first visible character on. Whatever is taken replaces the section's old content;
   nothing before or after that changes.
   */
  lemma {:induction false} NothingElseIsTakenOff(body: Body, index: nat, content: Body)
    returns (before: Body, kept: Body, after: Body)
    requires index < |Parse(body)|
    ensures body == before + (Parse(body)[index].content + after)
    ensures ApplySectionUpdate(body, index, content).Some?
    ensures ApplySectionUpdate(body, index, content).value.body == before + (kept + after)
    ensures ApplySectionUpdate(body, index, content).value.stripped <==> exists k: nat :: OwnHeadingAt(content, Parse(body)[index], k)
    ensures forall k: nat :: OwnHeadingAt(content, Parse(body)[index], k) ==> FromFirstVisible(content[k + 1..], kept)
    ensures (forall k: nat :: !OwnHeadingAt(content, Parse(body)[index], k)) ==> kept == content
  {
    hide Parse, SameWords, FromFirstVisible, TrimStartBody;
    var target := Parse(body)[index];
    kept := StripLeadingDuplicateHeading(content, target);
    before, after := OnlyThatContent(body, index, kept);
    LedExactly(content, target);
    forall k: nat | OwnHeadingAt(content, target, k) ensures FromFirstVisible(content[k + 1..], kept) {
      HeadingGoes(content, target, k);
    }
  }

  lemma {:induction false} HeadingGoes(content: Body, target: Section, k: nat)
    requires OwnHeadingAt(content, target, k)
    ensures FromFirstVisible(content[k + 1..], StripLeadingDuplicateHeading(content, target))
  {
    hide FromFirstVisible;
    LedExactly(content, target);
    PastTheGaps(content, k);
    assert content[k..][1..] == content[k + 1..];
    TrimmedStart(content[k + 1..]);
  }

  // ----- What the warnings say -------------------------------------------------------------------------

  /** The headings among the nodes. */
  function Headings(body: Body): nat {
    if body == [] then 0 else (if body[0].Heading? then 1 else 0) + Headings(body[1..])
  }

  lemma {:induction false} HeadedCounts(body: Body)
    ensures |Headed(body)| == Headings(body)
  {
    if body != [] { HeadedCounts(body[1..]); }
  }

  /**
   Every warning is true of the article as stored: its numbers of sections before and
   after, the headings it counts, and what it says became of the intro and of the
   indexes after the section.
   */
  lemma {:induction false} WarningsAreTrue(body: Body, index: nat, newContent: Body)
    requires index < |Parse(body)|
    ensures ApplySectionUpdate(body, index, newContent).Some?
    ensures var s := Parse(body);
            var content := StripLeadingDuplicateHeading(newContent, s[index]);
            var u := ApplySectionUpdate(body, index, newContent).value;
            var after := Parse(u.body);
            match StructureWarning(u, index, |after|)
            case None => Headings(content) == 0
            case Some(BodyEmpty) => |s| == 1 && after == []
            case Some(IntroGone(a, b)) =>
              a == |after| && b == |s| > 1 && s[index].head.None? && Blank(content) && (content == [] ==> after == s[1..])
            case Some(IntroNowHeading(i, a, b)) =>
              a == |after| && b == |s| && i == index == 0 && s[0].head.None?
              && a > 0 && after[0].head.Some?
            case Some(HeadingsAdded(count, a, b, i)) =>
              count == Headings(content) && a == |after| && b == |s| && a == b + count && i == index
              && after[..index] == s[..index] && after[index + 1 + count..] == s[index + 1..]
  {
    hide Sections, Headed, Intro, HeadingCount, Rejoined, Blank, LedByEcho, Written, Headings;
    var s := Parse(body);
    var target := s[index];
    var content := StripLeadingDuplicateHeading(newContent, target);
    var u := ApplySectionUpdate(body, index, newContent).value;
    HeadedCounts(content);
    ContentHeadings(content);
    SectionCountAfter(body, index, content);
    UpdatedSections(body, index, newContent);
    BlankAfter(body, index, content);
    SplitRoundTrip(body);
    WellFormedParts(s, index);
    if target.head.Some? {
      ShiftedAfter(s[..index], [Section(target.head, Intro(content))] + Headed(content), s[index + 1..]);
    } else if Blank(content) {
      BlankSplit(content);
      LossOfBlank(target, content);
      if content == [] { NoSections(); }
    } else {
      LossOfContent(target, content);
      SplitOf(content);
      ShiftedAfter([], Sections(content), s[1..]);
    }
  }

  lemma {:induction false} SplitOf(content: Body)
    ensures Intro(content) == [] ==> Sections(content) == Headed(content)
    ensures Intro(content) != [] ==> |Sections(content)| == 1 + |Headed(content)|
    ensures Intro(content) == [] && content != [] ==> Sections(content) != [] && Sections(content)[0].head.Some?
  {
    hide Headed, Intro;
    SplitRoundTrip(content);
    HeadedIsProper(content);
    if Intro(content) == [] && content != [] {
      if Headed(content) == [] { RejoinedNone(); }
      assert Headed(content)[0] in Headed(content);
    }
  }

  lemma {:induction false} ShiftedAfter(before: seq<Section>, mid: seq<Section>, after: seq<Section>)
    ensures var all := before + mid + after;
            && all[..|before|] == before && all[|before| + |mid|..] == after
            && (before == [] && mid != [] ==> all[0] == mid[0])
  {
  }
}
