/**
 A list response under the character limit (`formatFittingList` and
 `truncateIfNeeded` in `src/utils/formatting.ts`): whole items as far as they fit,
 closed by a notice that says how to go on.
 */
module FittingList {
  import opened JsText
  import opened Sequences

  const SEPARATOR: Text := [LF, LF]

  /** The header and the blocks, joined by blank lines. */
  function Joined(header: Text, blocks: seq<Text>): Text {
    if blocks == [] then header
    else Joined(header, blocks[..|blocks| - 1]) + SEPARATOR + blocks[|blocks| - 1]
  }

  const PLAIN_ADVICE: Text := Literal("Use pagination or filters to reduce results.")

  function TruncateIfNeeded(text: Text, limit: nat, advice: Text): Text {
    if |text| <= limit then text
    else
      text[..limit] + SEPARATOR + Literal("--- Response truncated (") + Decimal(|text|)
      + Literal(" chars, limit ") + Decimal(limit) + Literal("). ") + advice + Literal(" ---")
  }

  /** One call's list: its header with and without the next-page hint, and the caller's advice. */
  datatype Page = Page(header: Text, cutHeader: Text, blocks: seq<Text>, limit: nat, resume: (nat, nat) -> Text)

  function Notice(p: Page, count: nat): Text {
    SEPARATOR + Literal("--- Showing ") + Decimal(count) + Literal(" of the ") + Decimal(|p.blocks|)
    + Literal(" results on this page: the next one would pass the ") + Decimal(p.limit)
    + Literal("-character response limit. ") + p.resume(count, |p.blocks|) + Literal(" ---")
  }

  /** The response holding the first `count` items whole. */
  function Prefix(p: Page, count: nat): Text
    requires count <= |p.blocks|
  {
    Joined(p.cutHeader, p.blocks[..count]) + Notice(p, count)
  }

  predicate Fits(p: Page, count: nat)
    requires count <= |p.blocks|
  {
    |Prefix(p, count)| <= p.limit
  }

  /** How many items are taken, one more as long as the response with it fits. */
  function Taken(p: Page, count: nat): (taken: nat)
    requires count <= |p.blocks|
    ensures count <= taken <= |p.blocks|
    decreases |p.blocks| - count
  {
    if count == |p.blocks| || !Fits(p, count + 1) then count else Taken(p, count + 1)
  }

  /** The first count at which the next item fails: every one taken fits, and the next does not. */
  lemma {:induction false} TakenIsFirstFailure(p: Page, count: nat)
    requires count <= |p.blocks|
    ensures forall k :: count < k <= Taken(p, count) ==> Fits(p, k)
    ensures Taken(p, count) < |p.blocks| ==> !Fits(p, Taken(p, count) + 1)
    decreases |p.blocks| - count
  {
    hide Fits;
    if count < |p.blocks| && Fits(p, count + 1) { TakenIsFirstFailure(p, count + 1); }
  }

  datatype Reply = Whole | Fitted(shown: nat) | FirstCut | Plain

  function Choose(p: Page): Reply {
    if |Joined(p.header, p.blocks)| <= p.limit then Whole
    else if Taken(p, 0) > 0 then Fitted(Taken(p, 0))
    else if |p.blocks| > 1 && |Joined(p.cutHeader, p.blocks)| > p.limit then FirstCut
    else Plain
  }

  function Render(p: Page): Text {
    match Choose(p)
    case Whole => Joined(p.header, p.blocks)
    case Fitted(shown) => if shown <= |p.blocks| then Prefix(p, shown) else []
    case FirstCut => TruncateIfNeeded(Joined(p.cutHeader, p.blocks), p.limit, p.resume(1, |p.blocks|))
    case Plain => TruncateIfNeeded(Joined(p.header, p.blocks), p.limit, PLAIN_ADVICE)
  }

  /**
   Which of the four a page gets: whole exactly if all of it fits; else item by item
   exactly if the first item and its notice fit; else cut after the first item exactly
   if there are more and, even without the next-page hint, they do not fit together.
   */
  lemma {:induction false} ReplyExactly(p: Page)
    ensures Choose(p).Whole? <==> |Joined(p.header, p.blocks)| <= p.limit
    ensures Choose(p).Fitted? <==>
            |Joined(p.header, p.blocks)| > p.limit && p.blocks != []
            && |p.cutHeader| + 2 + |p.blocks[0]| + |Notice(p, 1)| <= p.limit
    ensures Choose(p).FirstCut? <==>
            && |Joined(p.header, p.blocks)| > p.limit && |Joined(p.cutHeader, p.blocks)| > p.limit && |p.blocks| > 1
            && |p.cutHeader| + 2 + |p.blocks[0]| + |Notice(p, 1)| > p.limit
  {
    hide Notice;
    if p.blocks != [] {
      assert p.blocks[..1][..0] == [] && Joined(p.cutHeader, []) == p.cutHeader;
      assert Joined(p.cutHeader, p.blocks[..1]) == p.cutHeader + SEPARATOR + p.blocks[0];
      TakenIsFirstFailure(p, 0);
    }
  }

  method FormatFittingList(p: Page) returns (text: Text)
    ensures text == Render(p)
  {
    hide Notice, TruncateIfNeeded;
    var all := Joined(p.header, p.blocks);
    if |all| <= p.limit { return all; }
    var used, shown := |p.cutHeader|, 0;
    while shown < |p.blocks|
      invariant shown <= |p.blocks|
      invariant used == |Joined(p.cutHeader, p.blocks[..shown])|
      invariant Taken(p, 0) == Taken(p, shown)
    {
      assert p.blocks[..shown + 1][..shown] == p.blocks[..shown];
      var next := used + 2 + |p.blocks[shown]|;
      if next + |Notice(p, shown + 1)| > p.limit { break; }
      used := next;
      shown := shown + 1;
    }
    if shown == 0 {
      var cut := Joined(p.cutHeader, p.blocks);
      text := if |p.blocks| > 1 && |cut| > p.limit
        then TruncateIfNeeded(cut, p.limit, p.resume(1, |p.blocks|))
        else TruncateIfNeeded(all, p.limit, PLAIN_ADVICE);
    } else {
      text := Joined(p.cutHeader, p.blocks[..shown]) + Notice(p, shown);
    }
  }

  // ----- What the closing words say -------------------------------------------------------

  /** A notice names the items shown, those on the page and the limit, in this order, and ends with the caller's advice. */
  lemma {:induction false} NoticeEnds(p: Page, count: nat) returns (front: Text)
    ensures Notice(p, count) == front + (p.resume(count, |p.blocks|) + Literal(" ---"))
    ensures Names(front, [count, |p.blocks|, p.limit])
  {
    hide Decimal, Names, NoDigit, Literal;
    var a, b := SEPARATOR + Literal("--- Showing "), Literal(" of the ");
    var c, d := Literal(" results on this page: the next one would pass the "), Literal("-character response limit. ");
    front := a + (Decimal(count) + (b + (Decimal(|p.blocks|) + (c + (Decimal(p.limit) + d)))));
    NoticeLiterals();
    NamesThree(a, count, b, |p.blocks|, c, p.limit, d);
    Regrouped([a, Decimal(count), b, Decimal(|p.blocks|), c, Decimal(p.limit), d],
              p.resume(count, |p.blocks|), Literal(" ---"));
  }

  lemma {:induction false} NamesThree(a: Text, l: nat, b: Text, m: nat, c: Text, n: nat, d: Text)
    requires NoDigit(a) && NoDigit(b) && NoDigit(c) && NoDigit(d) && b != [] && c != []
    ensures Names(a + (Decimal(l) + (b + (Decimal(m) + (c + (Decimal(n) + d))))), [l, m, n])
  {
    hide Decimal, Names;
    assert b[0] in b && c[0] in c && (d != [] ==> d[0] in d);
    NamesNothing(d);
    NamesOneMore(c, n, d, []);
    assert [n] + [] == [n];
    NamesOneMore(b, m, c + (Decimal(n) + d), [n]);
    assert [m] + [n] == [m, n];
    NamesOneMore(a, l, b + (Decimal(m) + (c + (Decimal(n) + d))), [m, n]);
    assert [l] + [m, n] == [l, m, n];
  }

  lemma {:induction false} NamesTwo(a: Text, l: nat, b: Text, m: nat, c: Text)
    requires NoDigit(a) && NoDigit(b) && NoDigit(c) && b != []
    ensures Names(a + (Decimal(l) + (b + (Decimal(m) + c))), [l, m])
  {
    hide Decimal, Names;
    assert b[0] in b && (c != [] ==> c[0] in c);
    NamesNothing(c);
    NamesOneMore(b, m, c, []);
    assert [m] + [] == [m];
    NamesOneMore(a, l, b + (Decimal(m) + c), [m]);
    assert [l] + [m] == [l, m];
  }

  lemma {:induction false} NoticeLiterals()
    ensures NoDigit(SEPARATOR + Literal("--- Showing ")) && NoDigit(Literal(" of the ")) && Literal(" of the ") != []
    ensures NoDigit(Literal(" results on this page: the next one would pass the "))
    ensures Literal(" results on this page: the next one would pass the ") != []
    ensures NoDigit(Literal("-character response limit. "))
  {
    hide Literal, NoDigit;
    NoticeStart();
    NoticeMiddle();
    NoticeLimit();
  }

  lemma {:induction false} NoticeStart()
    ensures NoDigit(SEPARATOR + Literal("--- Showing ")) && NoDigit(Literal(" of the ")) && Literal(" of the ") != []
  {
  }

  lemma {:induction false} NoticeMiddle()
    ensures NoDigit(Literal(" results on this page: the next one would pass the "))
    ensures Literal(" results on this page: the next one would pass the ") != []
  {
    hide Literal;
    LiteralConcat(" results on this page: ", "the next one would pass the ");
    NoticeMiddleStart();
    NoticeMiddleEnd();
    assert " results on this page: " + "the next one would pass the " == " results on this page: the next one would pass the ";
  }

  lemma {:induction false} NoticeMiddleStart()
    ensures NoDigit(Literal(" results on this page: ")) && Literal(" results on this page: ") != []
  {
  }

  lemma {:induction false} NoticeMiddleEnd()
    ensures NoDigit(Literal("the next one would pass the "))
  {
  }

  lemma {:induction false} NoticeLimit()
    ensures NoDigit(Literal("-character response limit. "))
  {
  }

  lemma {:induction false} Regrouped(t: seq<Text>, advice: Text, end: Text)
    requires |t| == 7
    ensures t[0] + t[1] + t[2] + t[3] + t[4] + t[5] + t[6] + advice + end
            == t[0] + (t[1] + (t[2] + (t[3] + (t[4] + (t[5] + t[6]))))) + (advice + end)
  {
    var l1 := t[0] + t[1];
    var l2 := l1 + t[2];
    var l3 := l2 + t[3];
    var l4 := l3 + t[4];
    Associative(l4, t[5], t[6]);
    Associative(l3, t[4], t[5] + t[6]);
    Associative(l2, t[3], t[4] + (t[5] + t[6]));
    Associative(l1, t[2], t[3] + (t[4] + (t[5] + t[6])));
    Associative(t[0], t[1], t[2] + (t[3] + (t[4] + (t[5] + t[6]))));
    Associative(l4 + t[5] + t[6], advice, end);
  }

  /** A text over the limit is cut there, and what follows names its length and the limit and ends with the advice. */
  lemma {:induction false} CutEnds(text: Text, limit: nat, advice: Text) returns (front: Text)
    requires |text| > limit
    ensures TruncateIfNeeded(text, limit, advice) == front + (advice + Literal(" ---"))
    ensures text[..limit] <= front && Names(front[limit..], [|text|, limit])
  {
    hide Decimal, Names, NoDigit, Literal;
    var a, b := SEPARATOR + Literal("--- Response truncated ("), Literal(" chars, limit ");
    var named := a + (Decimal(|text|) + (b + (Decimal(limit) + Literal("). "))));
    front := text[..limit] + named;
    CutLiterals();
    NamesTwo(a, |text|, b, limit, Literal("). "));
    assert front[limit..] == named;
    RegroupedCut(text[..limit], [SEPARATOR, Literal("--- Response truncated ("), Decimal(|text|), b, Decimal(limit), Literal("). ")],
                 advice, Literal(" ---"));
  }

  lemma {:induction false} RegroupedCut(cut: Text, t: seq<Text>, advice: Text, end: Text)
    requires |t| == 6
    ensures cut + t[0] + t[1] + t[2] + t[3] + t[4] + t[5] + advice + end
            == cut + ((t[0] + t[1]) + (t[2] + (t[3] + (t[4] + t[5])))) + (advice + end)
  {
    var l1 := cut + t[0] + t[1];
    var l2 := l1 + t[2];
    var l3 := l2 + t[3];
    Associative(l3, t[4], t[5]);
    Associative(l2, t[3], t[4] + t[5]);
    Associative(l1, t[2], t[3] + (t[4] + t[5]));
    Associative(cut, t[0], t[1]);
    Associative(cut, t[0] + t[1], t[2] + (t[3] + (t[4] + t[5])));
    Associative(l3 + t[4] + t[5], advice, end);
  }

  lemma {:induction false} CutLiterals()
    ensures NoDigit(SEPARATOR + Literal("--- Response truncated (")) && NoDigit(Literal(" chars, limit "))
    ensures Literal(" chars, limit ") != [] && NoDigit(Literal("). "))
  {
  }

  // ----- Whole items within the limit -----------------------------------------------------

  lemma {:induction false} JoinedPrefix(header: Text, blocks: seq<Text>, count: nat)
    requires count < |blocks|
    ensures Joined(header, blocks[..count]) + SEPARATOR + blocks[count] <= Joined(header, blocks)
    decreases |blocks|
  {
    var last := |blocks| - 1;
    if count < last {
      assert blocks[..last][..count] == blocks[..count];
      JoinedPrefix(header, blocks[..last], count);
    }
  }

  lemma {:induction false} JoinedLength(first: Text, second: Text, blocks: seq<Text>)
    ensures |Joined(first, blocks)| - |first| == |Joined(second, blocks)| - |second|
  {
    if blocks != [] { JoinedLength(first, second, blocks[..|blocks| - 1]); }
  }

  /**
   A cut response that shows an item holds whole items, one after the other and from
   the first on, inside the limit, and the next item with its notice would not have
   fitted. When the notice is longer than the hint it replaces, an item is left out.
   */
  lemma {:induction false} WholeItemsWithinLimit(p: Page)
    requires Choose(p).Fitted?
    ensures var shown := Choose(p).shown;
            && 1 <= shown <= |p.blocks|
            && Render(p) == Joined(p.cutHeader, p.blocks[..shown]) + Notice(p, shown)
            && |Render(p)| <= p.limit
            && (shown < |p.blocks| ==> |Prefix(p, shown + 1)| > p.limit)
            && (|p.header| <= |p.cutHeader| + |Notice(p, |p.blocks|)| ==> shown < |p.blocks|)
  {
    hide Notice;
    var shown := Choose(p).shown;
    TakenIsFirstFailure(p, 0);
    assert Fits(p, shown);
    JoinedLength(p.header, p.cutHeader, p.blocks);
    assert p.blocks[..|p.blocks|] == p.blocks;
  }

  // ----- What a reader gets to see -----------------------------------------------------------

  /** Item `i`'s first character comes before the limit, under this header. */
  predicate Begins(header: Text, p: Page, i: nat)
    requires i < |p.blocks|
  {
    |Joined(header, p.blocks[..i])| + 2 < p.limit
  }

  /** Item `i` can be seen in the response: whole, or at least begun where the text is cut. */
  predicate Shows(p: Page, i: nat)
    requires i < |p.blocks|
  {
    match Choose(p)
    case Whole => true
    case Fitted(shown) => i < shown
    case FirstCut => Begins(p.cutHeader, p, i)
    case Plain => Begins(p.header, p, i)
  }

  /** How many items the response treats as read: its advice goes on after them. */
  function Credited(p: Page): (n: nat)
    ensures n <= |p.blocks|
  {
    match Choose(p)
    case Fitted(shown) => if shown <= |p.blocks| then shown else |p.blocks|
    case FirstCut => 1
    case _ => |p.blocks|
  }

  /** The text really holds what `Shows` promises: the item up to its first character, or all of it. */
  lemma {:induction false} ShownIsInTheText(p: Page, i: nat)
    requires i < |p.blocks| && p.blocks[i] != [] && Shows(p, i)
    ensures var header := if Choose(p).Whole? || Choose(p).Plain? then p.header else p.cutHeader;
            var before := Joined(header, p.blocks[..i]) + SEPARATOR;
            && before + p.blocks[i][..1] <= Render(p)
            && (Choose(p).Whole? || Choose(p).Fitted? ==> before + p.blocks[i] <= Render(p))
  {
    hide Notice;
    match Choose(p)
    case Whole => JoinedPrefix(p.header, p.blocks, i);
    case Fitted(shown) =>
      JoinedPrefix(p.cutHeader, p.blocks[..shown], i);
      assert p.blocks[..shown][..i] == p.blocks[..i];
    case FirstCut => BegunIsInTheCut(p.cutHeader, p, i, p.resume(1, |p.blocks|));
    case Plain => BegunIsInTheCut(p.header, p, i, PLAIN_ADVICE);
  }

  lemma {:induction false} BegunIsInTheCut(header: Text, p: Page, i: nat, advice: Text)
    requires i < |p.blocks| && p.blocks[i] != []
    requires |Joined(header, p.blocks)| > p.limit && |Joined(header, p.blocks[..i])| + 2 < p.limit
    ensures Joined(header, p.blocks[..i]) + SEPARATOR + p.blocks[i][..1]
            <= TruncateIfNeeded(Joined(header, p.blocks), p.limit, advice)
  {
    var all, before := Joined(header, p.blocks), Joined(header, p.blocks[..i]) + SEPARATOR;
    JoinedPrefix(header, p.blocks, i);
    assert before + p.blocks[i][..1] <= before + p.blocks[i] <= all;
    assert before + p.blocks[i][..1] <= all[..p.limit];
  }

  lemma {:induction false} EarlierBegins(header: Text, p: Page, i: nat, j: nat)
    requires i <= j < |p.blocks| && Begins(header, p, j)
    ensures Begins(header, p, i)
  {
    if i < j {
      JoinedPrefix(header, p.blocks[..j], i);
      assert p.blocks[..j][..i] == p.blocks[..i];
    }
  }

  /** Nothing the advice skips goes unseen. */
  ghost predicate NothingLost(p: Page) {
    forall i :: 0 <= i < Credited(p) ==> Shows(p, i)
  }

  /**
   Exactly when that holds: always for a page shown whole or item by item, and for a
   text cut at the limit when the last item its advice skips begins before the limit.
   */
  lemma {:induction false} NothingLostExactly(p: Page)
    ensures NothingLost(p) <==>
            match Choose(p)
            case FirstCut => |p.cutHeader| + 2 < p.limit
            case Plain => p.blocks == [] || |Joined(p.header, p.blocks)| - |p.blocks[|p.blocks| - 1]| < p.limit
            case _ => true
  {
    hide Notice;
    match Choose(p)
    case FirstCut =>
      assert p.blocks[..0] == [];
      assert Shows(p, 0) <==> |p.cutHeader| + 2 < p.limit;
    case Plain =>
      if p.blocks != [] {
        var last := |p.blocks| - 1;
        assert Shows(p, last) <==> |Joined(p.header, p.blocks)| - |p.blocks[last]| < p.limit;
        forall i | 0 <= i < |p.blocks| && Begins(p.header, p, last) ensures Shows(p, i) {
          EarlierBegins(p.header, p, i, last);
        }
      }
    case _ =>
  }

  /** It holds when headers leave room and every item is longer than the hint the header may drop. */
  lemma {:induction false} RoomyLosesNothing(p: Page)
    requires |p.header| + 2 < p.limit && |p.cutHeader| + 2 < p.limit
    requires forall b :: b in p.blocks ==> |p.header| - |p.cutHeader| < |b|
    ensures NothingLost(p)
  {
    hide Notice, Shows;
    NothingLostExactly(p);
    if Choose(p).Plain? && p.blocks != [] {
      var last := |p.blocks| - 1;
      if last == 0 {
        assert p.blocks[..0] == [];
      } else {
        JoinedLength(p.header, p.cutHeader, p.blocks);
        assert p.blocks[last] in p.blocks;
      }
    }
  }

  /**
   A page on which an item vanishes: the first of two items leaves no room for the
   notice, both fit but for the next-page hint, and the second is shorter than that
   hint. The plain cut drops it whole and the hint goes on after it.
   */
  lemma {:induction false} TinyLastItemIsLost(resume: (nat, nat) -> Text)
    ensures var p := Page(seq(40, _ => DASH), seq(10, _ => DASH), [seq(180, _ => DOT), [DOT]], 200, resume);
            Choose(p) == Plain && Credited(p) == 2 && !Shows(p, 1)
  {
    hide Literal, Decimal;
    var p := Page(seq(40, _ => DASH), seq(10, _ => DASH), [seq(180, _ => DOT), [DOT]], 200, resume);
    assert p.blocks[..2] == p.blocks && p.blocks[..1] == [p.blocks[0]] && p.blocks[..0] == [];
    TwoBlocks(p.header, p.blocks);
    TwoBlocks(p.cutHeader, p.blocks);
    NoticeIsLong(p, 1);
    assert !Fits(p, 1);
  }

  lemma {:induction false} TwoBlocks(header: Text, blocks: seq<Text>)
    requires |blocks| == 2
    ensures |Joined(header, blocks[..1])| == |header| + 2 + |blocks[0]|
    ensures |Joined(header, blocks)| == |header| + 4 + |blocks[0]| + |blocks[1]|
  {
    assert blocks[..1][..0] == [];
    assert Joined(header, blocks[..1]) == header + SEPARATOR + blocks[0];
  }

  lemma {:induction false} NoticeIsLong(p: Page, count: nat)
    ensures |Notice(p, count)| >= 14
  {
    assert |Literal("--- Showing ")| == 12;
  }
}
