/**
 Offset paging and the advice a cut page gives (`src/utils/pagination.ts`), for the
 tools that search (`src/tools/search.ts`, `search_tickets` in `src/tools/tickets.ts`):
 from a fixed result list, a caller who always makes the call the response names sees
 every result.
 */
module Paging {
  import opened Options
  import opened JsText
  import opened FittingList
  import opened Sequences

  datatype Call = Call(perPage: nat, page: nat)

  predicate Valid(c: Call) { c.perPage >= 1 && c.page >= 1 }

  function Offset(c: Call): nat
    requires Valid(c)
  {
    (c.page - 1) * c.perPage
  }

  // ----- The advice ------------------------------------------------------------------------

  datatype Advice = Advice(call: Call, repeated: nat)

  /** The call that goes on after `shown` results of this one, its offset aligned to its page size. */
  function OffsetResume(c: Call, shown: nat): Advice
    requires Valid(c) && shown >= 1
  {
    var offset := Offset(c) + shown;
    Advice(Call(shown, offset / shown + 1), offset % shown)
  }

  function AdviceText(a: Advice): Text {
    Literal("To continue, call again with per_page: ") + Decimal(a.call.perPage)
    + Literal(" and page: ") + Decimal(a.call.page)
    + (if a.repeated > 0
       then Literal("; its first ") + Decimal(a.repeated) + Literal(" results were already shown")
       else [])
    + Literal(".")
  }

  /**
   The advice is exact: its page starts the stated number of results before the first
   one not shown, and so inside this page, past its start: nothing is skipped, what is
   repeated was just shown, and the caller gets ahead.
   */
  lemma {:induction false} AdviceIsExact(c: Call, shown: nat)
    requires Valid(c) && shown >= 1
    ensures var a := OffsetResume(c, shown);
            && Valid(a.call)
            && Offset(a.call) + a.repeated == Offset(c) + shown
            && a.repeated < shown
            && Offset(c) < Offset(a.call) <= Offset(c) + shown
  {
    var offset := Offset(c) + shown;
    assert offset == shown * (offset / shown) + offset % shown;
    assert Offset(Call(shown, offset / shown + 1)) == (offset / shown) * shown;
  }

  // ----- A fixed result list -----------------------------------------------------------------

  /** The formatted results, and the header a call's response gets with and without more to come. */
  datatype Catalogue = Catalogue(results: seq<Text>, limit: nat, header: (Call, bool) -> Text)

  /** `extractSearchPaginationMeta`: more results exist past this page. */
  predicate HasMore(cat: Catalogue, c: Call) { |cat.results| > c.page * c.perPage }

  function PageEnd(cat: Catalogue, c: Call): (end: nat)
    requires Valid(c)
    ensures Offset(c) <= |cat.results| ==> Offset(c) <= end
  {
    if Offset(c) + c.perPage <= |cat.results| then Offset(c) + c.perPage else |cat.results|
  }

  /** The page a search returns for this call, as the handler hands it to `formatFittingList`. */
  function PageOf(cat: Catalogue, c: Call): Page
    requires Valid(c)
  {
    Page(
      cat.header(c, HasMore(cat, c)), cat.header(c, false),
      if Offset(c) < |cat.results| then cat.results[Offset(c)..PageEnd(cat, c)] else [],
      cat.limit,
      (shown, onPage) => if shown >= 1 then AdviceText(OffsetResume(c, shown)) else [])
  }

  /** The call the response names: the closing notice's, or the next page the header hints at. */
  function NextCall(cat: Catalogue, c: Call): Option<Call>
    requires Valid(c)
  {
    match Choose(PageOf(cat, c))
    case Fitted(shown) => if shown >= 1 then Some(OffsetResume(c, shown).call) else None
    case FirstCut => Some(OffsetResume(c, 1).call)
    case _ => if HasMore(cat, c) then Some(Call(c.perPage, c.page + 1)) else None
  }

  /** Where the named call goes on: no result is skipped, and each call gets ahead. */
  lemma {:induction false} NoGap(cat: Catalogue, c: Call)
    requires Valid(c)
    ensures var p, next := PageOf(cat, c), NextCall(cat, c);
            match next
            case None => Offset(c) + Credited(p) >= |cat.results|
            case Some(call) =>
              && Valid(call) && call.perPage <= c.perPage
              && Offset(c) < Offset(call) <= Offset(c) + Credited(p) <= |cat.results|
  {
    hide Joined, Notice, Decimal, AdviceText;
    var p := PageOf(cat, c);
    assert c.page * c.perPage == Offset(c) + c.perPage;
    match Choose(p)
    case Fitted(shown) =>
      assert 1 <= shown <= |p.blocks|;
      AdviceIsExact(c, shown);
    case FirstCut => AdviceIsExact(c, 1);
    case _ =>
      if HasMore(cat, c) { assert Offset(Call(c.perPage, c.page + 1)) == c.page * c.perPage; }
  }

  /**
   What the named call asks for: after a cut page as many results as just fitted, from
   the last page boundary of that size; one, right after the first result, when not even
   that one fitted; and otherwise the same page size and the next page, exactly when
   there are results past this one.
   */
  lemma {:induction false} NextCallAsksFor(cat: Catalogue, c: Call)
    requires Valid(c)
    ensures var next := NextCall(cat, c);
            match Choose(PageOf(cat, c))
            case Fitted(shown) =>
              && next.Some? && next.value.perPage == shown >= 1 && Valid(next.value)
              && Offset(next.value) <= Offset(c) + shown < Offset(next.value) + shown
            case FirstCut => next.Some? && next.value.perPage == 1 && Valid(next.value) && Offset(next.value) == Offset(c) + 1
            case _ =>
              && (next.Some? <==> Offset(c) + c.perPage < |cat.results|)
              && (next.Some? ==> next.value.perPage == c.perPage && Valid(next.value)
                                 && Offset(next.value) == Offset(c) + c.perPage)
  {
    hide Joined, Notice, Decimal, AdviceText;
    var p := PageOf(cat, c);
    assert c.page * c.perPage == Offset(c) + c.perPage;
    match Choose(p)
    case Fitted(shown) => AdviceIsExact(c, shown);
    case FirstCut => AdviceIsExact(c, 1);
    case _ =>
      if HasMore(cat, c) { assert Offset(Call(c.perPage, c.page + 1)) == c.page * c.perPage; }
  }

  /** The advice spells the call it stands for, page size first, and what that repeats, if anything. */
  lemma {:induction false} AdviceNamesItsCall(a: Advice)
    ensures Names(AdviceText(a), [a.call.perPage, a.call.page] + if a.repeated > 0 then [a.repeated] else [])
  {
    hide Decimal, Names, NoDigit, Literal;
    var first, second := Literal("To continue, call again with per_page: "), Literal(" and page: ");
    var third, fourth, last := Literal("; its first "), Literal(" results were already shown"), Literal(".");
    AdviceLiterals();
    var perPage, page, repeated := Decimal(a.call.perPage), Decimal(a.call.page), Decimal(a.repeated);
    if a.repeated > 0 {
      NamesThree(first, a.call.perPage, second, a.call.page, third, a.repeated, fourth + last);
      RegroupedRepeat(first, perPage, second, page, third, repeated, fourth, last);
      assert [a.call.perPage, a.call.page] + [a.repeated] == [a.call.perPage, a.call.page, a.repeated];
    } else {
      NamesTwo(first, a.call.perPage, second, a.call.page, last);
      RegroupedPlain(first, perPage, second, page, last);
      assert [a.call.perPage, a.call.page] + [] == [a.call.perPage, a.call.page];
    }
  }

  lemma {:induction false} RegroupedPlain(a: Text, b: Text, c: Text, d: Text, e: Text)
    ensures a + b + c + d + [] + e == a + (b + (c + (d + e)))
  {
    assert a + b + c + d + [] == a + b + c + d;
    Associative(a + b + c, d, e);
    Associative(a + b, c, d + e);
    Associative(a, b, c + (d + e));
  }

  lemma {:induction false} RegroupedRepeat(a: Text, b: Text, c: Text, d: Text, e: Text, f: Text, g: Text, h: Text)
    ensures a + b + c + d + (e + f + g) + h == a + (b + (c + (d + (e + (f + (g + h))))))
  {
    Associative(a + b + c + d, e + f + g, h);
    Associative(e + f, g, h);
    Associative(e, f, g + h);
    Associative(a + b + c, d, e + (f + (g + h)));
    Associative(a + b, c, d + (e + (f + (g + h))));
    Associative(a, b, c + (d + (e + (f + (g + h)))));
  }

  lemma {:induction false} AdviceLiterals()
    ensures NoDigit(Literal("To continue, call again with per_page: ")) && NoDigit(Literal(" and page: "))
    ensures NoDigit(Literal("; its first ")) && NoDigit(Literal(".")) && NoDigit(Literal(" results were already shown") + Literal("."))
    ensures Literal(" and page: ") != [] && Literal("; its first ") != []
  {
    hide Literal, NoDigit;
    FirstAdviceLiterals();
    RepeatLiterals();
  }

  lemma {:induction false} FirstAdviceLiterals()
    ensures NoDigit(Literal("To continue, call again with per_page: ")) && NoDigit(Literal(" and page: ")) && NoDigit(Literal("."))
    ensures Literal(" and page: ") != []
  {
  }

  lemma {:induction false} RepeatLiterals()
    ensures NoDigit(Literal("; its first ")) && NoDigit(Literal(" results were already shown") + Literal("."))
    ensures Literal("; its first ") != []
  {
  }

  /** The calls made, each the one its predecessor's response names. */
  function Walk(cat: Catalogue, c: Call): seq<Call>
    requires Valid(c)
    decreases |cat.results| - Offset(c)
  {
    NoGap(cat, c);
    var next := NextCall(cat, c);
    [c] + if next.None? then [] else Walk(cat, next.value)
  }

  /** Result `k` can be seen in this call's response. */
  ghost predicate ShowsResult(cat: Catalogue, c: Call, k: nat) {
    && Valid(c) && Offset(c) <= k < PageEnd(cat, c)
    && Shows(PageOf(cat, c), k - Offset(c))
  }

  /** What can be seen of a result is in the text: its start, and all of it on a page that is not cut inside an item. */
  lemma {:induction false} ShownResultIsInTheText(cat: Catalogue, c: Call, k: nat)
    requires k < |cat.results| && ShowsResult(cat, c, k) && cat.results[k] != []
    ensures exists before: Text :: before + cat.results[k][..1] <= Render(PageOf(cat, c))
    ensures var reply := Choose(PageOf(cat, c));
            reply.Whole? || reply.Fitted? ==> exists before: Text :: before + cat.results[k] <= Render(PageOf(cat, c))
  {
    hide Shows, Choose, Render;
    var p, i := PageOf(cat, c), k - Offset(c);
    assert p.blocks[i] == cat.results[k];
    ShownIsInTheText(p, i);
  }

  /** The response to a cut page says to make just the call that the walk makes next. */
  lemma {:induction false} ResponseNamesTheCall(cat: Catalogue, c: Call) returns (front: Text)
    requires Valid(c) && (Choose(PageOf(cat, c)).Fitted? || Choose(PageOf(cat, c)).FirstCut?)
    ensures exists a: Advice ::
              Some(a.call) == NextCall(cat, c) && Render(PageOf(cat, c)) == front + (AdviceText(a) + Literal(" ---"))
  {
    hide AdviceText, Literal, Decimal, Joined, OffsetResume, Notice, TruncateIfNeeded, Fits, Taken;
    var p := PageOf(cat, c);
    match Choose(p)
    case Fitted(shown) =>
      TakenIsFirstFailure(p, 0);
      var notice := NoticeEnds(p, shown);
      var a := OffsetResume(c, shown);
      Associative(Joined(p.cutHeader, p.blocks[..shown]), notice, AdviceText(a) + Literal(" ---"));
      front := Joined(p.cutHeader, p.blocks[..shown]) + notice;
    case FirstCut =>
      var a := OffsetResume(c, 1);
      front := CutEnds(Joined(p.cutHeader, p.blocks), p.limit, AdviceText(a));
  }

  /** Every header leaves room for an item, and no result is as short as the hint a header drops. */
  ghost predicate Roomy(cat: Catalogue) {
    forall c: Call, more: bool ::
      && |cat.header(c, more)| + 2 < cat.limit
      && forall b :: b in cat.results ==> |cat.header(c, more)| - |cat.header(c, false)| < |b|
  }

  /** A walk loses nothing when each of its pages does not. */
  ghost predicate LosesNothing(cat: Catalogue, calls: seq<Call>) {
    forall c :: c in calls ==> Valid(c) && NothingLost(PageOf(cat, c))
  }

  lemma {:induction false} WalkIsValid(cat: Catalogue, c: Call)
    requires Valid(c)
    ensures forall w :: w in Walk(cat, c) ==> Valid(w) && w.perPage <= c.perPage
    decreases |cat.results| - Offset(c)
  {
    hide NextCall, PageOf, Credited;
    NoGap(cat, c);
    var next := NextCall(cat, c);
    if next.Some? { WalkIsValid(cat, next.value); }
  }

  lemma {:induction false} RoomyWalkLosesNothing(cat: Catalogue, c: Call)
    requires Valid(c) && Roomy(cat)
    ensures LosesNothing(cat, Walk(cat, c))
  {
    hide Walk, NothingLost, Joined, Notice;
    WalkIsValid(cat, c);
    forall w | w in Walk(cat, c) ensures NothingLost(PageOf(cat, w)) {
      var p := PageOf(cat, w);
      forall b | b in p.blocks ensures |p.header| - |p.cutHeader| < |b| { assert b in cat.results; }
      RoomyLosesNothing(p);
    }
  }

  /**
   Following the advice reaches everything: from any call on, every result at or past
   its offset is shown by some call of the walk, whatever the result sizes, as long as
   no page of the walk loses an item.
   */
  lemma {:induction false} WalkShowsEverything(cat: Catalogue, c: Call, k: nat)
    requires Valid(c) && Offset(c) <= k < |cat.results|
    requires LosesNothing(cat, Walk(cat, c))
    ensures exists w :: w in Walk(cat, c) && ShowsResult(cat, w, k)
    decreases |cat.results| - Offset(c)
  {
    hide NextCall, Credited, Shows;
    NoGap(cat, c);
    var p, next := PageOf(cat, c), NextCall(cat, c);
    assert c in Walk(cat, c);
    if k < Offset(c) + Credited(p) {
      assert Shows(p, k - Offset(c));
      assert ShowsResult(cat, c, k);
    } else {
      var rest := Walk(cat, next.value);
      assert Walk(cat, c) == [c] + rest;
      WalkShowsEverything(cat, next.value, k);
      var w :| w in rest && ShowsResult(cat, w, k);
    }
  }

  /** Starting at page 1 of a roomy catalogue, nothing stays unseen. */
  lemma {:induction false} FollowingTheAdviceReachesEverything(cat: Catalogue, perPage: nat, k: nat)
    requires perPage >= 1 && Roomy(cat) && k < |cat.results|
    ensures exists w :: w in Walk(cat, Call(perPage, 1)) && ShowsResult(cat, w, k)
  {
    hide Roomy, Walk, ShowsResult, LosesNothing;
    RoomyWalkLosesNothing(cat, Call(perPage, 1));
    WalkShowsEverything(cat, Call(perPage, 1), k);
  }

  /** The walk makes at most one call a result, and one more. */
  lemma {:induction false} WalkIsShort(cat: Catalogue, c: Call)
    requires Valid(c)
    ensures |Walk(cat, c)| <= 1 + if Offset(c) < |cat.results| then |cat.results| - Offset(c) else 0
    decreases |cat.results| - Offset(c)
  {
    hide NextCall, PageOf, Credited;
    NoGap(cat, c);
    var next := NextCall(cat, c);
    if next.Some? { WalkIsShort(cat, next.value); }
  }
}
