/**
 A section update as the tool makes it (`applySectionUpdate` in
 `src/utils/article-sections.ts`): an echoed heading is taken off the content, and the
 caller is warned when the outline changes (`structureWarning` in
 `src/tools/help-center.ts`).
 */
module ArticleUpdates {
  import opened Options
  import opened JsText
  import opened ArticleSections

  // ----- Comparing titles ---------------------------------------------------------------

  function WordLength(t: Text): (n: nat)
    ensures n <= |t|
    ensures t != [] && !IsSpace(t[0]) ==> n > 0
  {
    if t == [] || IsSpace(t[0]) then 0 else 1 + WordLength(t[1..])
  }

  /** The runs of non-space characters. */
  function Words(t: Text): seq<Text>
    decreases |t|
  {
    if t == [] then []
    else if IsSpace(t[0]) then Words(t[1..])
    else [t[..WordLength(t)]] + Words(t[WordLength(t)..])
  }

  /** `normalizeText`: words with one space between any two. */
  function NormalizeText(t: Text): Text {
    if Words(t) == [] then [] else Join(Words(t), SPACE)
  }

  lemma {:induction false} TrimmedStartWords(t: Text)
    ensures Words(TrimStart(t)) == Words(t)
  {
    if t != [] && IsSpace(t[0]) { TrimmedStartWords(t[1..]); }
  }

  lemma {:induction false} SpaceEndsWord(t: Text, u: CodeUnit)
    requires IsSpace(u)
    ensures WordLength(t + [u]) == WordLength(t)
  {
    if t == [] {
      assert t + [u] == [u];
    } else {
      assert (t + [u])[1..] == t[1..] + [u];
      SpaceEndsWord(t[1..], u);
    }
  }

  lemma {:induction false} TrailingSpaceWords(t: Text, u: CodeUnit)
    requires IsSpace(u)
    ensures Words(t + [u]) == Words(t)
    decreases |t|
  {
    if t == [] {
      assert [u][1..] == [] && t + [u] == [u];
      assert Words([u]) == Words([u][1..]);
    } else if IsSpace(t[0]) {
      assert (t + [u])[1..] == t[1..] + [u];
      TrailingSpaceWords(t[1..], u);
    } else {
      var n := WordLength(t);
      SpaceEndsWord(t, u);
      assert (t + [u])[..n] == t[..n] && (t + [u])[n..] == t[n..] + [u];
      TrailingSpaceWords(t[n..], u);
    }
  }

  lemma {:induction false} TrimmedEndWords(t: Text)
    ensures Words(TrimEnd(t)) == Words(t)
  {
    if t != [] && IsSpace(t[|t| - 1]) {
      var front := t[..|t| - 1];
      assert t == front + [t[|t| - 1]];
      TrailingSpaceWords(front, t[|t| - 1]);
      TrimmedEndWords(front);
    }
  }

  /** Trimming a title, as the outline shows it, does not change what it compares as. */
  lemma {:induction false} TrimmedTitleCompares(t: Text)
    ensures NormalizeText(Trim(t)) == NormalizeText(t)
  {
    TrimmedStartWords(t);
    TrimmedEndWords(TrimStart(t));
  }

  // ----- The echoed heading ----------------------------------------------------------------

  /** `trimStart` on the content: white space goes, up to the first node or character that is not. */
  function TrimStartBody(content: Body): Body {
    if content == [] || !content[0].TextNode? then content
    else if TrimStart(content[0].text) == [] then TrimStartBody(content[1..])
    else [TextNode(TrimStart(content[0].text))] + content[1..]
  }

  /** The title an outline shows for a section: its heading's text, trimmed. */
  function Title(s: Section): Text {
    if s.head.Some? && s.head.value.Heading? then Trim(s.head.value.text) else []
  }

  /** A heading that repeats the section's own: same level, same words. */
  predicate Echoes(n: Node, target: Section) {
    && n.Heading? && target.head.Some? && target.head.value.Heading?
    && n.level == target.head.value.level
    && NormalizeText(n.text) == NormalizeText(Title(target))
  }

  predicate LedByEcho(content: Body, target: Section) {
    var rest := TrimStartBody(content);
    rest != [] && Echoes(rest[0], target)
  }

  /** `stripLeadingDuplicateHeading`. */
  function StripLeadingDuplicateHeading(content: Body, target: Section): Body {
    if LedByEcho(content, target) then TrimStartBody(TrimStartBody(content)[1..]) else content
  }

  datatype Update = Update(body: Body, stripped: bool, contentHeadings: nat, introLost: IntroLoss, sectionsBefore: nat)

  function ApplySectionUpdate(body: Body, index: int, newContent: Body): Option<Update> {
    var sections := Parse(body);
    if index < 0 || index >= |sections| then None
    else
      var target := sections[index];
      var content := StripLeadingDuplicateHeading(newContent, target);
      var replaced := ReplaceSectionContent(body, index, content);
      if replaced.None? then None
      else
        Some(Update(replaced.value, LedByEcho(newContent, target), HeadingCount(Parse(content)),
                    Loss(target, Parse(content)), |sections|))
  }

  lemma {:induction false} TrimStartBodySkips(space: Body, content: Body)
    requires forall n :: n in space ==> n.TextNode? && TrimStart(n.text) == []
    ensures TrimStartBody(space + content) == TrimStartBody(content)
  {
    if space == [] {
      assert space + content == content;
    } else {
      assert space[0] in space;
      assert (space + content)[1..] == space[1..] + content;
      TrimStartBodySkips(space[1..], content);
    }
  }

  lemma {:induction false} ReplacedLength(body: Body, index: nat, content: Body)
    requires index < |Parse(body)|
    ensures ReplaceSectionContent(body, index, content).Some?
    ensures |ReplaceSectionContent(body, index, content).value| == |body| - |Parse(body)[index].content| + |content|
  {
    hide Sections;
    SplitRoundTrip(body);
    var s := Parse(body);
    var before, mid, after := s[..index], s[index].(content := content), s[index + 1..];
    assert s == before + ([s[index]] + after) && s[index := mid] == before + ([mid] + after);
    RejoinedConcat(before, [s[index]] + after);
    RejoinedConcat([s[index]], after);
    RejoinedConcat(before, [mid] + after);
    RejoinedConcat([mid], after);
    RejoinedOne(mid);
    RejoinedOne(s[index]);
  }

  /**
   Echoing the section's heading, white space around it or not, gives the same article
   as leaving it out, exactly when what follows is not led by the echo again: only one
   is taken off.
   */
  lemma {:induction false} EchoChangesNothing(body: Body, index: nat, space: Body, echo: Node, rest: Body)
    requires index < |Parse(body)| && Echoes(echo, Parse(body)[index])
    requires forall n :: n in space ==> n.TextNode? && TrimStart(n.text) == []
    ensures var with := ApplySectionUpdate(body, index, space + ([echo] + rest));
            var without := ApplySectionUpdate(body, index, TrimStartBody(rest));
            && with.Some? && without.Some? && with.value.stripped
            && (with.value.body == without.value.body <==> !LedByEcho(TrimStartBody(rest), Parse(body)[index]))
  {
    hide Echoes, Parse, TrimStart;
    var target := Parse(body)[index];
    var sent, kept := space + ([echo] + rest), TrimStartBody(rest);
    EchoIsHeading(echo, target);
    TrimStartBodySkips(space, [echo] + rest);
    assert TrimStartBody([echo] + rest) == [echo] + rest && ([echo] + rest)[1..] == rest;
    ReplacedLength(body, index, kept);
    var again := StripLeadingDuplicateHeading(kept, target);
    ReplacedLength(body, index, again);
    if LedByEcho(kept, target) {
      TrimStartShrinks(kept);
      TrimStartShrinks(TrimStartBody(kept)[1..]);
      assert |again| < |kept|;
    }
  }

  lemma {:induction false} EchoIsHeading(echo: Node, target: Section)
    requires Echoes(echo, target)
    ensures echo.Heading?
  {
  }

  lemma {:induction false} TrimStartShrinks(content: Body)
    ensures |TrimStartBody(content)| <= |content|
  {
    if content != [] && content[0].TextNode? && TrimStart(content[0].text) == [] { TrimStartShrinks(content[1..]); }
  }

  /** A heading sent back with the very text it has is recognised, whatever white space its title was trimmed of. */
  lemma {:induction false} OwnHeadingIsAnEcho(target: Section, html: Text)
    requires target.head.Some? && target.head.value.Heading?
    ensures Echoes(Heading(target.head.value.level, target.head.value.text, html), target)
    ensures Echoes(Heading(target.head.value.level, Title(target), html), target)
  {
    TrimmedTitleCompares(target.head.value.text);
  }

  // ----- Warnings -----------------------------------------------------------------------------

  datatype Warning =
    | BodyEmpty
    | IntroGone(after: nat, before: nat)
    | IntroNowHeading(index: nat, after: nat, before: nat)
    | HeadingsAdded(count: nat, after: nat, before: nat, index: nat)

  /** `structureWarning`, with the number of sections the stored article has afterwards. */
  function StructureWarning(u: Update, index: nat, after: nat): Option<Warning> {
    if u.introLost.Empty? then
      Some(if u.sectionsBefore == 1 then BodyEmpty else IntroGone(after, u.sectionsBefore))
    else if u.introLost.HeadingLed? then Some(IntroNowHeading(index, after, u.sectionsBefore))
    else if u.contentHeadings > 0 then Some(HeadingsAdded(u.contentHeadings, after, u.sectionsBefore, index))
    else None
  }

  /** The outline: each section's heading, or none for the intro. */
  function Outline(sections: seq<Section>): (outline: seq<Option<Node>>)
    ensures |outline| == |sections|
  {
    seq(|sections|, i requires 0 <= i < |sections| => sections[i].head)
  }

  /**
   The outline afterwards: the sections before keep their index, those after move by as
   many as were added, and the section in between starts with its old heading.
   */
  lemma {:induction false} UpdatedSections(body: Body, index: nat, newContent: Body)
    requires index < |Parse(body)|
    ensures var u := ApplySectionUpdate(body, index, newContent);
            var s := Parse(body);
            var content := StripLeadingDuplicateHeading(newContent, s[index]);
            && u.Some?
            && Sections(u.value.body)
               == s[..index]
                  + (if s[index].head.Some? then [Section(s[index].head, Intro(content))] + Headed(content)
                     else Sections(content))
                  + s[index + 1..]
  {
    hide Sections, Headed, Intro, Rejoined, LedByEcho;
    var s := Parse(body);
    var content := StripLeadingDuplicateHeading(newContent, s[index]);
    ReplacementIsLocal(body, index, content);
    WrittenSplit(s[index], content, body, index);
  }

  /**
   A silent update leaves the outline alone and a warning means it changed: the tool
   warns exactly when the headings an outline lists are no longer the same. The one
   exception is white space sent for the intro of an article with more sections, which
   is warned about though the outline stays.
   */
  lemma {:induction false} WarnsExactlyWhenTheOutlineChanges(body: Body, index: nat, newContent: Body)
    requires index < |Parse(body)|
    ensures var s := Parse(body);
            var content := StripLeadingDuplicateHeading(newContent, s[index]);
            && ApplySectionUpdate(body, index, newContent).Some?
            && var u := ApplySectionUpdate(body, index, newContent).value;
               var after := Parse(u.body);
               (StructureWarning(u, index, |after|).None? <==> Outline(after) == Outline(s))
               <==> !BlankIntro(s[index], content, |s|)
  {
    hide Sections, Headed, Intro, HeadingCount, Rejoined, Blank, LedByEcho, Written;
    var s := Parse(body);
    var target := s[index];
    var content := StripLeadingDuplicateHeading(newContent, target);
    var u := ApplySectionUpdate(body, index, newContent).value;
    SectionCountAfter(body, index, content);
    ContentHeadings(content);
    UpdatedSections(body, index, newContent);
    BlankAfter(body, index, content);
    SplitRoundTrip(body);
    WellFormedParts(s, index);
    assert s == s[..index] + [target] + s[index + 1..];
    if target.head.Some? {
      if Headed(content) == [] {
        SameOutline(s[..index], target, Section(target.head, Intro(content)), s[index + 1..]);
        assert [Section(target.head, Intro(content))] + Headed(content) == [Section(target.head, Intro(content))];
      }
    } else if Blank(content) {
      BlankSplit(content);
      LossOfBlank(target, content);
      BlankIntroOutline(s, content);
    } else {
      LossOfContent(target, content);
      IntroOutline(s, content);
    }
  }

  lemma {:induction false} SameOutline(before: seq<Section>, a: Section, b: Section, after: seq<Section>)
    requires a.head == b.head
    ensures Outline(before + [a] + after) == Outline(before + [b] + after)
  {
  }

  lemma {:induction false} BlankIntroOutline(s: seq<Section>, content: Body)
    requires s != [] && s[0].head.None? && Headed(content) == [] && Intro(content) == content
    ensures content != [] ==> Outline(s[..0] + Sections(content) + s[1..]) == Outline(s)
    ensures content == [] ==> s[..0] + Sections(content) + s[1..] == s[1..]
  {
    if content != [] {
      assert Sections(content) == [Section(None, content)];
      SameOutline(s[..0], s[0], Section(None, content), s[1..]);
      assert s == s[..0] + [s[0]] + s[1..];
    }
  }

  /** With content that is not white space, the intro's outline entry stays only if the content is all intro. */
  lemma {:induction false} IntroOutline(s: seq<Section>, content: Body)
    requires s != [] && s[0].head.None? && content != []
    ensures Outline(s[..0] + Sections(content) + s[1..]) == Outline(s) <==> Intro(content) != [] && Headed(content) == []
  {
    hide Headed, Intro;
    var all := s[..0] + Sections(content) + s[1..];
    HeadedIsProper(content);
    SplitRoundTrip(content);
    if Intro(content) != [] && Headed(content) == [] {
      assert Sections(content) == [Section(None, Intro(content))];
      SameOutline(s[..0], s[0], Section(None, Intro(content)), s[1..]);
      assert s == s[..0] + [s[0]] + s[1..];
    } else if Intro(content) == [] {
      assert Sections(content) == Headed(content);
      if Headed(content) == [] { RejoinedNone(); }
      assert Headed(content)[0] in Headed(content);
      assert all[0] == Headed(content)[0];
      assert Outline(all)[0] != Outline(s)[0];
    } else {
      assert |all| > |s|;
      assert |Outline(all)| != |Outline(s)|;
    }
  }
}
