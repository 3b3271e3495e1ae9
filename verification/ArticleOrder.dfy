/**
 Moving one article inside a Help Center section (`src/utils/article-order.ts`).

 The section is a list of articles in display order; the only lever is each
 article's absolute integer position, and equal positions display in any order.
 Positions are unbounded integers here, negative ones included.
 */
module ArticleOrder {
  import opened Options
  import Sequences

  datatype Article = Article(id: int, position: int)

  datatype Write = Write(id: int, position: int)

  datatype Target = Top | Bottom | Before | After

  datatype ArrangeError = MovedMissing | ReferenceMissing

  // ----- Display orders -------------------------------------------------

  ghost predicate Distinct(order: seq<Article>) {
    forall i, j :: 0 <= i < j < |order| ==> order[i].id != order[j].id
  }

  ghost predicate Sorted(order: seq<Article>) {
    forall i, j :: 0 <= i < j < |order| ==> order[i].position <= order[j].position
  }

  function Ids(order: seq<Article>): set<int> {
    set a | a in order :: a.id
  }

  /** The first index holding `id`, or -1. */
  function IndexOf(order: seq<Article>, id: int): (index: int)
    ensures -1 <= index < |order|
    ensures index == -1 <==> id !in Ids(order)
    ensures index != -1 ==> order[index].id == id && id !in Ids(order[..index])
  {
    if order == [] then -1
    else if order[0].id == id then 0
    else
      var later := IndexOf(order[1..], id);
      assert order == [order[0]] + order[1..];
      if later == -1 then -1
      else
        assert order[..later + 1] == [order[0]] + order[1..][..later];
        later + 1
  }

  /** `order` without the article `id`. */
  function Without(order: seq<Article>, id: int): seq<Article> {
    if order == [] then []
    else (if order[0].id == id then [] else [order[0]]) + Without(order[1..], id)
  }

  /** A display order is non-decreasing everywhere exactly when no adjacent pair decreases. */
  method HasPositionInversion(order: seq<Article>) returns (inverted: bool)
    ensures inverted <==> !Sorted(order)
  {
    var i := 1;
    while i < |order|
      invariant 1 <= i
      invariant i <= |order| || i == 1
      invariant forall j, k :: 0 <= j < k < i && k < |order| ==> order[j].position <= order[k].position
    {
      if order[i - 1].position > order[i].position {
        return true;
      }
      i := i + 1;
    }
    return false;
  }

  function ArrangeDesiredOrder(
    effective: seq<Article>, movedId: int, target: Target, reference: Option<int>
  ): Result<seq<Article>, ArrangeError>
  {
    var at := IndexOf(effective, movedId);
    if at == -1 then Err(MovedMissing)
    else
      var rest := Without(effective, movedId);
      var slot := Slot(rest, target, reference);
      if slot == -1 then Err(ReferenceMissing)
      else Ok(rest[..slot] + [effective[at]] + rest[slot..])
  }

  /** Where the moved article goes among the others; -1 when the reference is not one of them. */
  function Slot(rest: seq<Article>, target: Target, reference: Option<int>): (slot: int)
    ensures -1 <= slot <= |rest|
  {
    match target
    case Top => 0
    case Bottom => |rest|
    case Before => if reference.Some? then IndexOf(rest, reference.value) else -1
    case After =>
      var at := if reference.Some? then IndexOf(rest, reference.value) else -1;
      if at == -1 then -1 else at + 1
  }

  function IsPlacedAsRequested(
    after: seq<Article>, movedId: int, target: Target, reference: Option<int>
  ): bool
  {
    var moved := IndexOf(after, movedId);
    if moved == -1 then false
    else if target.Top? then moved == 0
    else if target.Bottom? then moved == |after| - 1
    else
      var at := if reference.Some? then IndexOf(after, reference.value) else -1;
      at != -1 && (if target.Before? then moved < at else moved > at)
  }

  // ----- The positions a reorder assigns ---------------------------------

  /** The largest position of `order`, at least -1. */
  function MaxPosition(order: seq<Article>): (max: int)
    ensures max >= -1
    ensures forall a :: a in order ==> a.position <= max
    ensures max == -1 || exists a :: a in order && a.position == max
  {
    if order == [] then -1
    else
      var front := order[..|order| - 1];
      var last := order[|order| - 1];
      assert order == front + [last];
      var m := MaxPosition(front);
      if last.position > m then last.position else m
  }

  function Positions(order: seq<Article>): (ps: seq<int>)
    ensures |ps| == |order|
    ensures forall i :: 0 <= i < |ps| ==> ps[i] == order[i].position
  {
    seq(|order|, i requires 0 <= i < |order| => order[i].position)
  }

  /** New positions of the articles right of the moved one, whose predecessor now sits at `running`. */
  function Cascade(right: seq<Article>, running: int): (ps: seq<int>)
    ensures |ps| == |right|
  {
    if right == [] then []
    else if right[0].position > running then Positions(right)
    else [running + 1] + Cascade(right[1..], running + 1)
  }

  function Anchor(left: seq<Article>): int {
    if left == [] then -1 else left[|left| - 1].position
  }

  /**
   Where the moved article goes: right above its left neighbour, or, when it comes
   last, above all the others and unmoved if it already is.
   */
  function MovedPosition(desired: seq<Article>, m: nat): int
    requires m < |desired|
  {
    var left := desired[..m];
    if m < |desired| - 1 then Anchor(left) + 1
    else if desired[m].position > MaxPosition(left) then desired[m].position
    else MaxPosition(left) + 1
  }

  /** The position every article of `desired` holds once the writes are applied. */
  function NewPositions(desired: seq<Article>, movedId: int, normalize: bool): (ps: seq<int>)
    ensures |ps| == |desired|
  {
    var m := IndexOf(desired, movedId);
    if normalize then seq(|desired|, i => i)
    else if m == -1 then Positions(desired)
    else
      var placed := MovedPosition(desired, m);
      Positions(desired[..m]) + [placed] + Cascade(desired[m + 1..], placed)
  }

  /** The write one article needs, if any. */
  function WriteFor(a: Article, p: int): seq<Write> {
    if a.position != p then [Write(a.id, p)] else []
  }

  /** One write for each article whose position changes, left to right. */
  function Differences(order: seq<Article>, ps: seq<int>): seq<Write>
    requires |order| == |ps|
  {
    if order == [] then [] else WriteFor(order[0], ps[0]) + Differences(order[1..], ps[1..])
  }

  /** Growing the prefix by one article appends at most its own write. */
  lemma {:induction false} DifferencesNext(order: seq<Article>, ps: seq<int>, i: nat)
    requires |order| == |ps| && i < |order|
    ensures Differences(order[..i + 1], ps[..i + 1])
         == Differences(order[..i], ps[..i])
            + WriteFor(order[i], ps[i])
  {
    DifferencesConcat(order[..i], [order[i]], ps[..i], [ps[i]]);
    assert order[..i + 1] == order[..i] + [order[i]] && ps[..i + 1] == ps[..i] + [ps[i]];
    assert Differences([order[i]], [ps[i]]) == WriteFor(order[i], ps[i]) + [];
  }

  lemma {:induction false} DifferencesOfNone()
    ensures Differences([], []) == []
  {
  }

  lemma {:induction false} DifferencesNone(order: seq<Article>)
    ensures Differences(order, Positions(order)) == []
  {
    if order != [] {
      DifferencesNone(order[1..]);
      assert Positions(order)[1..] == Positions(order[1..]);
    }
  }

  lemma {:induction false} DifferencesConcat(a: seq<Article>, b: seq<Article>, ps: seq<int>, qs: seq<int>)
    requires |a| == |ps| && |b| == |qs|
    ensures Differences(a + b, ps + qs) == Differences(a, ps) + Differences(b, qs)
  {
    if a == [] {
      assert a + b == b && ps + qs == qs;
    } else {
      Sequences.TailOfConcat(a, b);
      Sequences.TailOfConcat(ps, qs);
      DifferencesConcat(a[1..], b, ps[1..], qs);
      Sequences.Associative(WriteFor(a[0], ps[0]), Differences(a[1..], ps[1..]), Differences(b, qs));
    }
  }

  lemma {:induction false} CascadeNext(desired: seq<Article>, ps: seq<int>, i: nat, running: int)
    requires i < |desired| == |ps| && desired[i].position <= running
    requires ps[i..] == Cascade(desired[i..], running)
    ensures ps[i] == running + 1
    ensures ps[i + 1..] == Cascade(desired[i + 1..], running + 1)
  {
    assert desired[i..][1..] == desired[i + 1..] && ps[i..][1..] == ps[i + 1..];
    assert ps[i] == ps[i..][0];
  }

  lemma {:induction false} CascadeStops(desired: seq<Article>, ps: seq<int>, i: nat, running: int)
    requires i <= |desired| == |ps|
    requires ps[i..] == Cascade(desired[i..], running)
    requires i < |desired| ==> desired[i].position > running
    ensures Differences(desired, ps) == Differences(desired[..i], ps[..i])
  {
    assert ps[i..] == Positions(desired[i..]);
    DifferencesNone(desired[i..]);
    DifferencesConcat(desired[..i], desired[i..], ps[..i], ps[i..]);
    assert desired == desired[..i] + desired[i..] && ps == ps[..i] + ps[i..];
  }

  /** The pushes of the source's loops amount to one write per changed position. */
  method ComputePositionWrites(desired: seq<Article>, movedId: int, normalize: bool)
    returns (writes: seq<Write>)
    ensures writes == Differences(desired, NewPositions(desired, movedId, normalize))
  {
    hide Differences, Cascade, MaxPosition, IndexOf;
    writes := [];
    DifferencesOfNone();
    ghost var ps := NewPositions(desired, movedId, normalize);
    assert desired[..|desired|] == desired && ps[..|desired|] == ps;
    if normalize {
      for index := 0 to |desired|
        invariant writes == Differences(desired[..index], ps[..index])
      {
        DifferencesNext(desired, ps, index);
        if desired[index].position != index {
          writes := writes + [Write(desired[index].id, index)];
        }
      }
      return;
    }

    var m := IndexOf(desired, movedId);
    if m == -1 {
      DifferencesNone(desired);
      return;
    }
    assert ps[..m] == Positions(desired[..m]) && ps[m + 1..] == Cascade(desired[m + 1..], ps[m]);
    DifferencesNone(desired[..m]);

    if m == |desired| - 1 {
      var maxOthers := LargestPosition(desired[..m]);
      DifferencesNext(desired, ps, m);
      if desired[m].position > maxOthers { return; }
      writes := [Write(desired[m].id, maxOthers + 1)];
      return;
    }
    writes := CascadeWrites(desired, m, ps);
  }

  /** The running maximum of the bottom case, starting from -1. */
  method LargestPosition(others: seq<Article>) returns (max: int)
    ensures max == MaxPosition(others)
  {
    max := -1;
    for i := 0 to |others|
      invariant max == MaxPosition(others[..i])
    {
      assert others[..i + 1][..i] == others[..i];
      if others[i].position > max { max := others[i].position; }
    }
    assert others[..|others|] == others;
  }

  /** The cascade: rightwards from the moved article, to the first one already clear. */
  method CascadeWrites(desired: seq<Article>, m: nat, ghost ps: seq<int>) returns (writes: seq<Write>)
    requires m < |desired| == |ps|
    requires ps[..m] == Positions(desired[..m])
    requires ps[m] == Anchor(desired[..m]) + 1
    requires ps[m + 1..] == Cascade(desired[m + 1..], ps[m])
    ensures writes == Differences(desired, ps)
  {
    hide Differences, Cascade;
    writes := [];
    DifferencesNone(desired[..m]);
    var running := if m == 0 then -1 else desired[m - 1].position;
    var i: nat := m;
    while i < |desired|
      invariant m <= i <= |desired|
      invariant i == m ==> running == Anchor(desired[..m])
      invariant writes == Differences(desired[..i], ps[..i])
      invariant i > m ==> ps[i..] == Cascade(desired[i..], running)
    {
      var article := desired[i];
      if i != m && article.position > running { break; }
      var target := running + 1;
      if i > m { CascadeNext(desired, ps, i, running); }
      DifferencesNext(desired, ps, i);
      if article.position != target {
        writes := writes + [Write(article.id, target)];
      }
      running := target;
      i := i + 1;
    }
    CascadeStops(desired, ps, i, running);
  }
}
