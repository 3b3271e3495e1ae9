/**
 Editing one section of an article (`src/utils/article-sections.ts`), over the
 article's top-level nodes: splitting at h1-h3 headings, replacing one section's
 content, and what a caller is told about the outline (`src/tools/help-center.ts`).
 */
module ArticleSections {
  import opened Options
  import opened JsText

  datatype Level = H1 | H2 | H3

  /** A top-level node: an h1-h3 heading with its text, any other element, or text. */
  datatype Node = Heading(level: Level, text: Text, html: Text) | Element(html: Text) | TextNode(text: Text)

  type Body = seq<Node>

  /** A section; the one without a heading is the intro. Its index is its place in the list. */
  datatype Section = Section(head: Option<Node>, content: Body)

  predicate AllSpace(t: Text) { forall u :: u in t ==> IsSpace(u) }

  /** Nothing but white space: `trim` leaves nothing. */
  predicate Blank(body: Body) {
    forall n :: n in body ==> n.TextNode? && AllSpace(n.text)
  }

  // ----- Splitting ------------------------------------------------------------------------

  /** The nodes before the first heading. */
  function Intro(body: Body): Body {
    if body == [] || body[0].Heading? then [] else [body[0]] + Intro(body[1..])
  }

  /** The sections that follow, each from its heading to the next. */
  function Headed(body: Body): seq<Section> {
    if body == [] then []
    else if body[0].Heading? then
      [Section(Some(body[0]), Intro(body[1..]))] + Headed(body[1..])
    else Headed(body[1..])
  }

  function Sections(body: Body): seq<Section> {
    (if Intro(body) == [] then [] else [Section(None, Intro(body))]) + Headed(body)
  }

  /** `parseSections`: an article of white space has no section at all. */
  function Parse(body: Body): seq<Section> { if Blank(body) then [] else Sections(body) }

  method ParseSections(body: Body) returns (result: seq<Section>)
    ensures result == Parse(body)
  {
    hide Blank, Intro, Headed, Continued;
    if Blank(body) { return []; }
    var intro: Body, sections: seq<Section> := [], [];
    var i := 0;
    NothingToSplit();
    assert body[0..] == body;
    while i < |body|
      invariant i <= |body|
      invariant sections == [] ==> Intro(body) == intro + Intro(body[i..]) && Headed(body) == Headed(body[i..])
      invariant sections != [] ==>
        && Intro(body) == intro
        && Headed(body) == Continued(sections, Intro(body[i..])) + Headed(body[i..])
    {
      var node := body[i];
      assert body[i..][1..] == body[i + 1..];
      ghost var rest := body[i + 1..];
      SplitStep(node, rest);
      assert body[i..] == [node] + rest;
      if node.Heading? {
        ContinuedByNothing(sections);
        ContinuedNew(sections, node, Intro(rest));
        assert intro + Intro(body[i..]) == intro;
        assert sections + ([Section(Some(node), Intro(rest))] + Headed(rest))
            == sections + [Section(Some(node), Intro(rest))] + Headed(rest);
        sections := sections + [Section(Some(node), [])];
      } else if sections != [] {
        var last := sections[|sections| - 1];
        ContinuedTwice(sections, [node], Intro(rest));
        ContinuedOnce(sections, [node]);
        assert [] + Headed(rest) == Headed(rest);
        sections := sections[..|sections| - 1] + [last.(content := last.content + [node])];
      } else {
        assert intro + ([node] + Intro(rest)) == intro + [node] + Intro(rest);
        assert [] + Headed(rest) == Headed(rest);
        intro := intro + [node];
      }
      i := i + 1;
    }
    assert body[i..] == [];
    ContinuedByNothing(sections);
    assert intro + [] == intro && sections + [] == sections;
    result := (if intro == [] then [] else [Section(None, intro)]) + sections;
  }

  /** The last section with more content. */
  function Continued(sections: seq<Section>, more: Body): seq<Section>
    requires sections != []
  {
    var last := sections[|sections| - 1];
    sections[..|sections| - 1] + [last.(content := last.content + more)]
  }

  lemma {:induction false} SplitStep(node: Node, rest: Body)
    ensures Intro([node] + rest) == if node.Heading? then [] else [node] + Intro(rest)
    ensures Headed([node] + rest) == (if node.Heading? then [Section(Some(node), Intro(rest))] else []) + Headed(rest)
  {
    assert ([node] + rest)[1..] == rest;
  }

  lemma {:induction false} NothingToSplit()
    ensures Intro([]) == [] && Headed([]) == []
  {
  }

  lemma {:induction false} ContinuedByNothing(sections: seq<Section>)
    ensures sections != [] ==> Continued(sections, []) == sections
  {
    if sections != [] { assert sections[|sections| - 1].content + [] == sections[|sections| - 1].content; }
  }

  lemma {:induction false} ContinuedNew(sections: seq<Section>, node: Node, more: Body)
    ensures Continued(sections + [Section(Some(node), [])], more) == sections + [Section(Some(node), more)]
  {
    assert (sections + [Section(Some(node), [])])[..|sections|] == sections;
    assert [] + more == more;
  }

  lemma {:induction false} ContinuedOnce(sections: seq<Section>, more: Body)
    requires sections != []
    ensures var last := sections[|sections| - 1];
            Continued(sections, more) == sections[..|sections| - 1] + [last.(content := last.content + more)]
  {
  }

  lemma {:induction false} ContinuedTwice(sections: seq<Section>, more: Body, yet: Body)
    requires sections != []
    ensures Continued(sections, more + yet) == Continued(Continued(sections, more), yet)
  {
    var once := Continued(sections, more);
    assert once[..|once| - 1] == sections[..|sections| - 1];
    assert sections[|sections| - 1].content + (more + yet) == sections[|sections| - 1].content + more + yet;
  }

  /** The sections written one after the other. */
  function Rejoined(sections: seq<Section>): Body {
    if sections == [] then [] else Written(sections[0]) + Rejoined(sections[1..])
  }

  function Written(s: Section): Body { (if s.head.Some? then [s.head.value] else []) + s.content }

  // ----- Round trip ------------------------------------------------------------------------

  /** A section as parsing makes them. */
  ghost predicate Proper(s: Section) {
    && (forall n :: n in s.content ==> !n.Heading?)
    && (s.head.Some? ==> s.head.value.Heading?)
  }

  /** A list as parsing makes them: only the first may be an intro, and no intro is empty. */
  ghost predicate WellFormed(sections: seq<Section>) {
    && (forall s :: s in sections ==> Proper(s))
    && (forall i :: 0 < i < |sections| ==> sections[i].head.Some?)
    && (sections != [] && sections[0].head.None? ==> sections[0].content != [])
  }

  lemma {:induction false} IntroIsPlain(body: Body)
    ensures forall n :: n in Intro(body) ==> !n.Heading?
    ensures body == Intro(body) + Rejoined(Headed(body))
  {
    if body != [] {
      IntroIsPlain(body[1..]);
      assert body == [body[0]] + body[1..];
      if body[0].Heading? {
        var s := Section(Some(body[0]), Intro(body[1..]));
        assert Headed(body)[1..] == Headed(body[1..]);
        assert Written(s) + Rejoined(Headed(body[1..])) == [body[0]] + body[1..];
      }
    }
  }

  lemma {:induction false} HeadedIsProper(body: Body)
    ensures forall s :: s in Headed(body) ==> Proper(s) && s.head.Some?
  {
    if body != [] {
      IntroIsPlain(body[1..]);
      HeadedIsProper(body[1..]);
    }
  }

  /** Splitting makes a proper list that, written out, is the article again. */
  lemma {:induction false} SplitRoundTrip(body: Body)
    ensures WellFormed(Sections(body)) && Rejoined(Sections(body)) == body
  {
    hide Headed, Proper;
    IntroIsPlain(body);
    HeadedIsProper(body);
    var intro, headed := Intro(body), Headed(body);
    var all := Sections(body);
    if intro != [] {
      assert all[1..] == headed && Written(all[0]) == intro;
      assert Proper(all[0]) by { IntroIsProper(intro); }
    } else {
      assert all == headed;
    }
  }

  lemma {:induction false} IntroIsProper(intro: Body)
    requires forall n :: n in intro ==> !n.Heading?
    ensures Proper(Section(None, intro))
  {
  }

  /** Parsing gives the article back exactly when it is not just white space (or is empty). */
  lemma {:induction false} ParseRoundTrip(body: Body)
    ensures Rejoined(Parse(body)) == body <==> body == [] || !Blank(body)
  {
    hide Sections;
    SplitRoundTrip(body);
  }

  lemma {:induction false} IntroConcat(a: Body, b: Body)
    requires b == [] || b[0].Heading?
    ensures Intro(a + b) == Intro(a) && Headed(a + b) == Headed(a) + Headed(b)
  {
    if a == [] {
      assert a + b == b;
    } else {
      assert (a + b)[1..] == a[1..] + b;
      IntroConcat(a[1..], b);
    }
  }

  /** A split falls apart wherever a heading starts. */
  lemma {:induction false} SplitAtHeading(a: Body, b: Body)
    requires b == [] || b[0].Heading?
    ensures Sections(a + b) == Sections(a) + Sections(b)
  {
    hide Headed;
    IntroConcat(a, b);
    assert Intro(b) == [];
  }

  lemma {:induction false} PlainSplit(content: Body)
    requires forall n :: n in content ==> !n.Heading?
    ensures Intro(content) == content && Headed(content) == []
  {
    if content != [] { PlainSplit(content[1..]); }
  }

  lemma {:induction false} OneSection(s: Section)
    requires Proper(s) && (s.head.None? ==> s.content != [])
    ensures Sections(Written(s)) == [s]
  {
    PlainSplit(s.content);
    if s.head.Some? {
      assert Written(s)[1..] == s.content;
    } else {
      assert Written(s) == s.content;
    }
  }

  lemma {:induction false} StartsWithHeading(sections: seq<Section>)
    requires WellFormed(sections)
    requires sections != [] ==> sections[0].head.Some?
    ensures Rejoined(sections) == [] || Rejoined(sections)[0].Heading?
    ensures sections == [] <==> Rejoined(sections) == []
  {
    if sections != [] { assert sections[0] in sections; }
  }

  /** A proper list written out splits into itself. */
  lemma {:induction false} WriteRoundTrip(sections: seq<Section>)
    requires WellFormed(sections)
    ensures Sections(Rejoined(sections)) == sections
  {
    hide Proper, Sections, Written;
    if sections == [] {
      NoSections();
    } else {
      var rest := sections[1..];
      assert sections[0] in sections;
      assert forall s :: s in rest ==> s in sections;
      assert WellFormed(rest);
      StartsWithHeading(rest);
      WriteRoundTrip(rest);
      OneSection(sections[0]);
      SplitAtHeading(Written(sections[0]), Rejoined(rest));
    }
  }

  lemma {:induction false} NoSections()
    ensures Sections([]) == []
  {
  }

  // ----- Replacing a section's content -----------------------------------------------------------

  /** The article with one section's content replaced; nothing for an index out of range. */
  function ReplaceSectionContent(body: Body, index: int, content: Body): Option<Body> {
    var sections := Parse(body);
    if index < 0 || index >= |sections| then None
    else Some(Rejoined(sections[index := sections[index].(content := content)]))
  }

  lemma {:induction false} RejoinedConcat(a: seq<Section>, b: seq<Section>)
    ensures Rejoined(a + b) == Rejoined(a) + Rejoined(b)
  {
    if a == [] {
      assert a + b == b;
    } else {
      assert (a + b)[1..] == a[1..] + b;
      RejoinedConcat(a[1..], b);
    }
  }

  lemma {:induction false} WellFormedParts(sections: seq<Section>, index: nat)
    requires WellFormed(sections) && index < |sections|
    ensures WellFormed(sections[..index]) && WellFormed(sections[index + 1..])
    ensures sections[index + 1..] != [] ==> sections[index + 1..][0].head.Some?
    ensures sections[index].head.None? ==> index == 0
  {
    hide Proper;
    assert forall s :: s in sections[..index] ==> s in sections;
    assert forall s :: s in sections[index + 1..] ==> s in sections;
  }

  /**
   What splitting sees afterwards: every section before and after is there unchanged,
   in order, and in between stand the sections of the old heading with the new content.
   */
  lemma {:induction false} ReplacementIsLocal(body: Body, index: nat, content: Body)
    requires index < |Parse(body)|
    ensures var s := Parse(body);
            ReplaceSectionContent(body, index, content).Some?
            && Sections(ReplaceSectionContent(body, index, content).value)
               == s[..index] + Sections(Written(s[index].(content := content))) + s[index + 1..]
  {
    hide Proper, Sections, WellFormed, Written, Rejoined;
    SplitRoundTrip(body);
    var s := Sections(body);
    var before, mid, after := s[..index], s[index].(content := content), s[index + 1..];
    WellFormedParts(s, index);
    assert s[index := mid] == before + ([mid] + after);
    RejoinedConcat(before, [mid] + after);
    RejoinedConcat([mid], after);
    RejoinedOne(mid);
    StartsWithHeading(after);
    WriteRoundTrip(before);
    WriteRoundTrip(after);
    SplitAtHeading(Written(mid), Rejoined(after));
    if index > 0 {
      HeadFirst(s, index, content);
      SplitAtHeading(Rejoined(before), Written(mid) + Rejoined(after));
    } else {
      RejoinedNone();
      assert before == [] && Rejoined(before) + (Written(mid) + Rejoined(after)) == Written(mid) + Rejoined(after);
    }
  }

  lemma {:induction false} RejoinedOne(s: Section)
    ensures Rejoined([s]) == Written(s)
  {
    assert [s][1..] == [];
    assert Rejoined([s][1..]) == [];
  }

  lemma {:induction false} RejoinedNone()
    ensures Rejoined([]) == []
  {
  }

  lemma {:induction false} HeadFirst(sections: seq<Section>, index: nat, content: Body)
    requires WellFormed(sections) && 0 < index < |sections|
    ensures var w := Written(sections[index].(content := content)); w != [] && w[0].Heading?
  {
    assert sections[index] in sections;
  }

  // ----- An update ------------------------------------------------------------------------------

  datatype IntroLoss = Kept | Empty | HeadingLed

  function Loss(target: Section, contentSections: seq<Section>): IntroLoss {
    if target.head.Some? then Kept
    else if contentSections == [] then Empty
    else if contentSections[0].head.Some? then HeadingLed
    else Kept
  }

  function HeadingCount(sections: seq<Section>): nat {
    if sections == [] then 0 else (if sections[0].head.Some? then 1 else 0) + HeadingCount(sections[1..])
  }

  lemma {:induction false} HeadingCountConcat(a: seq<Section>, b: seq<Section>)
    ensures HeadingCount(a + b) == HeadingCount(a) + HeadingCount(b)
  {
    if a == [] {
      assert a + b == b;
    } else {
      assert (a + b)[1..] == a[1..] + b;
      HeadingCountConcat(a[1..], b);
    }
  }

  lemma {:induction false} AllHeaded(sections: seq<Section>)
    requires forall s :: s in sections ==> s.head.Some?
    ensures HeadingCount(sections) == |sections|
  {
    if sections != [] {
      assert sections[0] in sections;
      AllHeaded(sections[1..]);
    }
  }

  lemma {:induction false} BlankSplit(content: Body)
    requires Blank(content)
    ensures Intro(content) == content && Headed(content) == []
  {
    assert forall n :: n in content ==> !n.Heading?;
    PlainSplit(content);
  }

  /** The headings a content adds are its headed sections, white space or not. */
  lemma {:induction false} ContentHeadings(content: Body)
    ensures HeadingCount(Parse(content)) == |Headed(content)|
  {
    hide Headed, Intro, HeadingCount;
    HeadedIsProper(content);
    AllHeaded(Headed(content));
    if Blank(content) {
      BlankSplit(content);
      AllHeaded([]);
    } else if Intro(content) != [] {
      HeadingCountConcat([Section(None, Intro(content))], Headed(content));
      NotHeaded(Section(None, Intro(content)));
      assert Sections(content) == [Section(None, Intro(content))] + Headed(content);
    } else {
      assert Sections(content) == Headed(content);
    }
  }

  lemma {:induction false} NotHeaded(s: Section)
    requires s.head.None?
    ensures HeadingCount([s]) == 0
  {
    assert [s][1..] == [];
  }

  /** White space sent for the intro of an article with more sections: nothing was lost. */
  predicate BlankIntro(target: Section, content: Body, sections: nat) {
    target.head.None? && content != [] && Blank(content) && sections > 1
  }

  /**
   How many sections there are afterwards: as many as before, plus the headings in the
   content, less one when the intro is reported lost. This holds for every content but
   one: white space, not empty, sent for the intro of an article with more sections,
   which is reported as an intro lost though a blank one stays.
   */
  lemma {:induction false} SectionCountAfter(body: Body, index: nat, content: Body)
    requires index < |Parse(body)|
    ensures ReplaceSectionContent(body, index, content).Some?
    ensures var s, after := Parse(body), Parse(ReplaceSectionContent(body, index, content).value);
            |after| == |s| + HeadingCount(Parse(content)) - (if Loss(s[index], Parse(content)).Kept? then 0 else 1)
            <==> !BlankIntro(s[index], content, |s|)
  {
    hide Headed, Intro, HeadingCount, Rejoined, Blank;
    var s := Parse(body);
    var target, after := s[index], ReplaceSectionContent(body, index, content).value;
    ReplacementIsLocal(body, index, content);
    ContentHeadings(content);
    WrittenSplit(target, content, body, index);
    BlankAfter(body, index, content);
    if target.head.None? {
      if Blank(content) {
        BlankSplit(content);
        LossOfBlank(target, content);
      } else {
        LossOfContent(target, content);
      }
    }
  }

  lemma {:induction false} LossOfBlank(target: Section, content: Body)
    requires target.head.None? && Blank(content)
    ensures Loss(target, Parse(content)) == Empty
  {
  }

  lemma {:induction false} LossOfContent(target: Section, content: Body)
    requires target.head.None? && !Blank(content)
    ensures content != []
    ensures Loss(target, Parse(content)) == if Intro(content) == [] then HeadingLed else Kept
  {
    hide Headed;
    HeadedIsProper(content);
    if Intro(content) == [] {
      SplitRoundTrip(content);
      assert Sections(content) == Headed(content);
      assert content != [] by { assert !Blank(content); }
      if Headed(content) == [] { RejoinedNone(); }
      assert Headed(content)[0] in Headed(content);
    } else {
      assert Sections(content)[0] == Section(None, Intro(content));
    }
  }

  /** The sections the old heading makes with the new content. */
  lemma {:induction false} WrittenSplit(target: Section, content: Body, body: Body, index: nat)
    requires index < |Parse(body)| && target == Parse(body)[index]
    ensures Sections(Written(target.(content := content)))
            == if target.head.Some? then [Section(target.head, Intro(content))] + Headed(content) else Sections(content)
    ensures target.head.None? ==> index == 0
  {
    hide Proper;
    SplitRoundTrip(body);
    assert target in Parse(body);
    var w := Written(target.(content := content));
    if target.head.Some? {
      assert target.head.value.Heading? by { HeadsAreHeadings(body, index); }
      assert w[1..] == content;
      assert Intro(w) == [];
    } else {
      assert w == content;
    }
  }

  lemma {:induction false} HeadsAreHeadings(body: Body, index: nat)
    requires index < |Parse(body)| && Parse(body)[index].head.Some?
    ensures Parse(body)[index].head.value.Heading?
  {
    SplitRoundTrip(body);
    assert Parse(body)[index] in Parse(body);
  }

  /** The article is blank afterwards only if it was all intro and the content is blank. */
  lemma {:induction false} BlankAfter(body: Body, index: nat, content: Body)
    requires index < |Parse(body)|
    ensures ReplaceSectionContent(body, index, content).Some?
    ensures var s, after := Parse(body), ReplaceSectionContent(body, index, content).value;
            Blank(after) <==> s[index].head.None? && |s| == 1 && Blank(content)
  {
    hide Sections, Proper;
    SplitRoundTrip(body);
    var s := Parse(body);
    var replaced := s[index := s[index].(content := content)];
    if s[index].head.None? && |s| == 1 {
      assert replaced == [Section(None, content)];
      RejoinedOne(Section(None, content));
      assert Written(Section(None, content)) == content;
    } else {
      var k := if s[index].head.Some? then index else 1;
      assert replaced[k].head.Some? && replaced[k].head == s[k].head;
      HeadsAreHeadings(body, k);
      HeadIsWritten(replaced, k);
    }
  }

  lemma {:induction false} HeadIsWritten(sections: seq<Section>, k: nat)
    requires k < |sections| && sections[k].head.Some?
    ensures sections[k].head.value in Rejoined(sections)
  {
    var rest := sections[1..];
    if k == 0 {
      assert sections[0].head.value in Written(sections[0]);
    } else {
      HeadIsWritten(rest, k - 1);
      assert rest[k - 1] == sections[k];
    }
  }
}
