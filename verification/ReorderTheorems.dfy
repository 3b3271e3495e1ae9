/**
 The guarantees of `reorder_article` over every listing, tie-break and
 interruption (`src/tools/help-center.ts`, `src/utils/article-order.ts`).
 */
module ReorderTheorems {
  import opened Options
  import opened ArticleOrder
  import opened Reorder

  // ----- What the writes do to the section --------------------------------

  /** `order` read off `positions`, whatever its order. */
  ghost predicate Snapshot(order: seq<Article>, positions: map<int, int>) {
    && Distinct(order)
    && Ids(order) == positions.Keys
    && forall i :: 0 <= i < |order| ==> order[i].id in positions && positions[order[i].id] == order[i].position
  }

  function Renumbered(order: seq<Article>, ps: seq<int>): (r: seq<Article>)
    requires |order| == |ps|
    ensures |r| == |order|
    ensures forall i :: 0 <= i < |r| ==> r[i] == Article(order[i].id, ps[i])
  {
    seq(|order|, i requires 0 <= i < |order| => Article(order[i].id, ps[i]))
  }

  lemma {:induction false} AppliedFirst(order: seq<Article>, ps: seq<int>, positions: map<int, int>)
    requires |order| == |ps| && order != []
    requires order[0].id in positions && positions[order[0].id] == order[0].position
    ensures Applied(positions, Differences(order, ps))
         == Applied(positions[order[0].id := ps[0]], Differences(order[1..], ps[1..]))
  {
    var writes := Differences(order, ps);
    if order[0].position == ps[0] {
      assert writes == Differences(order[1..], ps[1..]);
      assert positions[order[0].id := ps[0]] == positions;
    } else {
      assert writes[0] == Write(order[0].id, ps[0]) && writes[1..] == Differences(order[1..], ps[1..]);
    }
  }

  lemma {:induction false} WritesRealise(order: seq<Article>, ps: seq<int>, positions: map<int, int>)
    requires Distinct(order) && |order| == |ps|
    requires forall i :: 0 <= i < |order| ==> order[i].id in positions && positions[order[i].id] == order[i].position
    ensures var after := Applied(positions, Differences(order, ps));
            && after.Keys == positions.Keys
            && (forall i :: 0 <= i < |order| ==> after[order[i].id] == ps[i])
            && (forall id :: id in positions && id !in Ids(order) ==> after[id] == positions[id])
    decreases |order|
  {
    if order != [] {
      var next := positions[order[0].id := ps[0]];
      var rest := order[1..];
      assert forall i :: 0 <= i < |rest| ==> rest[i] == order[i + 1] && rest[i].id != order[0].id;
      WritesRealise(rest, ps[1..], next);
      AppliedFirst(order, ps, positions);
      var after := Applied(positions, Differences(order, ps));
      assert order[0].id !in Ids(rest);
      assert order[0] in order;
      forall i | 0 <= i < |order| ensures after[order[i].id] == ps[i] {
        if i > 0 { assert rest[i - 1] == order[i]; }
      }
      assert forall a :: a in rest ==> a in order;
    }
  }

  lemma {:induction false} RenumberedIds(order: seq<Article>, ps: seq<int>)
    requires |order| == |ps|
    ensures Ids(Renumbered(order, ps)) == Ids(order)
    ensures Distinct(order) ==> Distinct(Renumbered(order, ps))
  {
    var r := Renumbered(order, ps);
    forall id ensures id in Ids(r) <==> id in Ids(order) {
      var i := IndexOf(order, id);
      var j := IndexOf(r, id);
      if i != -1 { assert r[i] in r; }
      if j != -1 { assert order[j] in order; }
    }
  }

  /** The renumbered desired order is what the section holds after every write. */
  lemma {:induction false} RenumberedSnapshot(
    effective: seq<Article>, desired: seq<Article>, ps: seq<int>, positions: map<int, int>)
    requires Snapshot(effective, positions) && Distinct(desired) && |ps| == |desired|
    requires Ids(desired) == Ids(effective)
    requires forall a :: a in desired ==> a in effective
    ensures Snapshot(Renumbered(desired, ps), Applied(positions, Differences(desired, ps)))
  {
    forall i | 0 <= i < |desired|
      ensures desired[i].id in positions && positions[desired[i].id] == desired[i].position
    {
      assert desired[i] in effective;
    }
    WritesRealise(desired, ps, positions);
    RenumberedIds(desired, ps);
  }

  // ----- The cascade -------------------------------------------------------

  lemma {:induction false} CascadeAbove(right: seq<Article>, running: int)
    requires Sorted(right)
    ensures forall i :: 0 <= i < |right| ==> Cascade(right, running)[i] > running
    ensures forall i :: 0 <= i < |right| ==> Cascade(right, running)[i] >= right[i].position
  {
    if right != [] && right[0].position <= running {
      CascadeAbove(right[1..], running + 1);
    }
  }

  /** Non-decreasing, and strictly increasing over siblings that were. */
  ghost predicate KeepsOrder(order: seq<Article>, ps: seq<int>) {
    && |ps| == |order|
    && forall i, j :: 0 <= i < j < |ps| ==>
         ps[i] <= ps[j] && (order[i].position < order[j].position ==> ps[i] < ps[j])
  }

  lemma {:induction false} KeepsOrderCons(a: Article, rest: seq<Article>, p: int, qs: seq<int>)
    requires KeepsOrder(rest, qs) && forall i :: 0 <= i < |qs| ==> qs[i] > p
    ensures KeepsOrder([a] + rest, [p] + qs)
  {
    var order, ps := [a] + rest, [p] + qs;
    forall i, j | 0 <= i < j < |ps|
      ensures ps[i] <= ps[j] && (order[i].position < order[j].position ==> ps[i] < ps[j])
    {
      assert order[j] == rest[j - 1] && ps[j] == qs[j - 1];
      if i > 0 { assert order[i] == rest[i - 1] && ps[i] == qs[i - 1]; }
    }
  }

  lemma {:induction false} CascadeKeepsOrder(right: seq<Article>, running: int)
    requires Sorted(right)
    ensures KeepsOrder(right, Cascade(right, running))
  {
    if right != [] && right[0].position <= running {
      var rest := right[1..];
      CascadeAbove(rest, running + 1);
      CascadeKeepsOrder(rest, running + 1);
      hide KeepsOrder, Sorted;
      KeepsOrderCons(right[0], rest, running + 1, Cascade(rest, running + 1));
      assert right == [right[0]] + rest;
    }
  }

  lemma {:induction false} SidesSorted(desired: seq<Article>, m: nat)
    requires m < |desired| && Sorted(Removed(desired, m))
    ensures Sorted(desired[..m]) && Sorted(desired[m + 1..])
    ensures forall i, j :: 0 <= i < m < j < |desired| ==> desired[i].position <= desired[j].position
  {
    var rest := Removed(desired, m);
    assert forall i :: 0 <= i < m ==> rest[i] == desired[i];
    assert forall j :: m < j < |desired| ==> rest[j - 1] == desired[j];
  }

  lemma {:induction false} Parts(desired: seq<Article>, movedId: int, m: nat)
    requires m == IndexOf(desired, movedId)
    ensures var ps := NewPositions(desired, movedId, false);
            && ps[..m] == Positions(desired[..m])
            && ps[m] == MovedPosition(desired, m)
            && ps[m + 1..] == Cascade(desired[m + 1..], ps[m])
  {
  }

  lemma {:induction false} LeftStaysBelow(desired: seq<Article>, m: nat)
    requires m < |desired| && Sorted(desired[..m])
    ensures forall i :: 0 <= i < m ==> desired[i].position < MovedPosition(desired, m)
  {
    var left := desired[..m];
    forall i | 0 <= i < m ensures desired[i].position < MovedPosition(desired, m) {
      assert left[i] in left;
      assert left[i].position <= left[m - 1].position;
    }
  }

  lemma {:induction false} RightEndsAbove(desired: seq<Article>, m: nat, ps: seq<int>)
    requires m < |desired| == |ps| && Sorted(desired[m + 1..])
    requires ps[m + 1..] == Cascade(desired[m + 1..], ps[m])
    ensures forall i :: m < i < |ps| ==> ps[m] < ps[i] && desired[i].position <= ps[i]
    ensures forall i, j :: m < i < j < |ps| ==>
              ps[i] <= ps[j] && (desired[i].position < desired[j].position ==> ps[i] < ps[j])
  {
    var right, qs := desired[m + 1..], ps[m + 1..];
    CascadeAbove(right, ps[m]);
    CascadeKeepsOrder(right, ps[m]);
    hide Sorted, Cascade;
    assert forall i :: m < i < |ps| ==> ps[i] == qs[i - m - 1] && desired[i] == right[i - m - 1];
  }

  /**
   On a section without inversion the moved article ends strictly between the
   articles left and right of it, the positions are non-decreasing along the
   desired order, and siblings at strictly ordered positions stay so.
   */
  lemma {:induction false} NewPositionsSeparate(desired: seq<Article>, movedId: int, m: nat)
    requires m == IndexOf(desired, movedId)
    requires Sorted(Removed(desired, m))
    ensures var ps := NewPositions(desired, movedId, false);
            && Separated(ps, m)
            && (forall i :: 0 <= i < m ==> ps[i] == desired[i].position)
            && (forall i, j :: 0 <= i < j < |ps| && i != m && j != m && desired[i].position < desired[j].position
                  ==> ps[i] < ps[j])
  {
    hide Sorted, Cascade, MovedPosition, IndexOf, NewPositions, Removed;
    var ps := NewPositions(desired, movedId, false);
    Parts(desired, movedId, m);
    SidesSorted(desired, m);
    LeftStaysBelow(desired, m);
    RightEndsAbove(desired, m, ps);
    forall i | 0 <= i < m ensures ps[i] == desired[i].position {
      assert ps[i] == ps[..m][i];
    }
  }

  /** Non-decreasing, with the one at `m` tied with no other. */
  ghost predicate Separated(ps: seq<int>, m: nat) {
    && m < |ps|
    && (forall i :: 0 <= i < m ==> ps[i] < ps[m])
    && (forall i :: m < i < |ps| ==> ps[m] < ps[i])
    && (forall i, j :: 0 <= i < j < |ps| ==> ps[i] <= ps[j])
  }

  // ----- Placement ---------------------------------------------------------

  /** Every write of a move, and the positions once all of them are applied. */
  function MoveWrites(desired: seq<Article>, movedId: int, normalize: bool): seq<Write> {
    Differences(desired, NewPositions(desired, movedId, normalize))
  }

  lemma {:induction false} StrictlyBefore(order: seq<Article>, positions: map<int, int>, x: int, y: int)
    requires Listing(order, positions) && x in positions && y in positions && positions[x] < positions[y]
    ensures 0 <= IndexOf(order, x) < IndexOf(order, y)
  {
    var i, j := IndexOf(order, x), IndexOf(order, y);
    assert order[i].position == positions[x] && order[j].position == positions[y];
  }

  lemma {:induction false} InsertedWhere(rest: seq<Article>, slot: nat, a: Article, i: nat)
    requires slot <= |rest| && i < |rest|
    ensures Inserted(rest, slot, a)[if i < slot then i else i + 1] == rest[i]
  {
  }

  /** In a desired order, the reference stands right after or right before the moved article. */
  lemma {:induction false} ReferenceNextToMoved(
    effective: seq<Article>, movedId: int, target: Target, reference: Option<int>, desired: seq<Article>)
    requires Distinct(effective)
    requires ArrangeDesiredOrder(effective, movedId, target, reference) == Ok(desired)
    ensures var m := IndexOf(desired, movedId);
            match target
            case Top => m == 0
            case Bottom => m == |desired| - 1
            case Before => reference.Some? && m + 1 < |desired| && desired[m + 1].id == reference.value
            case After => reference.Some? && m >= 1 && desired[m - 1].id == reference.value
  {
    DesiredShape(effective, movedId, target, reference, desired);
    var at := IndexOf(effective, movedId);
    var rest := Removed(effective, at);
    var m := IndexOf(desired, movedId);
    match target
    case Before => InsertedWhere(rest, m, effective[at], m);
    case After => InsertedWhere(rest, m, effective[at], m - 1);
    case _ =>
  }

  /** In a listing where the moved article ties with none, it stands at its desired index. */
  lemma {:induction false} SeparatedIndex(
    desired: seq<Article>, m: nat, ps: seq<int>, final: map<int, int>, after: seq<Article>)
    requires |ps| == |desired| && Separated(ps, m)
    requires Snapshot(Renumbered(desired, ps), final)
    requires Listing(after, final)
    ensures |after| == |desired|
    ensures IndexOf(after, desired[m].id) == m
    ensures forall i :: 0 <= i < |desired| ==> desired[i].id in final && final[desired[i].id] == ps[i]
  {
    var renumbered := Renumbered(desired, ps);
    assert Listing(renumbered, final);
    forall id | id in final && id != desired[m].id ensures final[id] != ps[m] {
      var i := IndexOf(renumbered, id);
      assert renumbered[i].position == final[id];
    }
    SameIndex(renumbered, after, final, m);
    forall i | 0 <= i < |desired| ensures desired[i].id in final && final[desired[i].id] == ps[i] {
      assert renumbered[i].id == desired[i].id;
    }
  }

  lemma {:induction false} NeighboursKeepSides(
    desired: seq<Article>, movedId: int, m: nat, ps: seq<int>, final: map<int, int>, after: seq<Article>)
    requires m < |ps| == |desired| && Separated(ps, m) && desired[m].id == movedId
    requires Listing(after, final)
    requires forall i :: 0 <= i < |desired| ==> desired[i].id in final && final[desired[i].id] == ps[i]
    ensures m + 1 < |desired| ==> 0 <= IndexOf(after, movedId) < IndexOf(after, desired[m + 1].id)
    ensures m >= 1 ==> 0 <= IndexOf(after, desired[m - 1].id) < IndexOf(after, movedId)
  {
    if m + 1 < |desired| { StrictlyBefore(after, final, movedId, desired[m + 1].id); }
    if m >= 1 { StrictlyBefore(after, final, desired[m - 1].id, movedId); }
  }

  /** Placement follows: every listing of such positions shows the article as requested. */
  lemma {:induction false} SeparatedIsPlaced(
    effective: seq<Article>, movedId: int, target: Target, reference: Option<int>, desired: seq<Article>,
    ps: seq<int>, final: map<int, int>, after: seq<Article>)
    requires Distinct(effective)
    requires ArrangeDesiredOrder(effective, movedId, target, reference) == Ok(desired)
    requires IndexOf(desired, movedId) >= 0
    requires |ps| == |desired| && Separated(ps, IndexOf(desired, movedId))
    requires Snapshot(Renumbered(desired, ps), final)
    requires Listing(after, final)
    ensures |after| == |desired|
    ensures IndexOf(after, movedId) == IndexOf(desired, movedId)
    ensures IsPlacedAsRequested(after, movedId, target, reference)
  {
    hide Distinct, Snapshot, Separated, Sorted, ArrangeDesiredOrder, Listing, Renumbered;
    var m := IndexOf(desired, movedId);
    SeparatedIndex(desired, m, ps, final, after);
    ReferenceNextToMoved(effective, movedId, target, reference, desired);
    NeighboursKeepSides(desired, movedId, m, ps, final, after);
  }

  lemma {:induction false} DesiredFromEffective(
    effective: seq<Article>, movedId: int, target: Target, reference: Option<int>, desired: seq<Article>)
    requires Distinct(effective)
    requires ArrangeDesiredOrder(effective, movedId, target, reference) == Ok(desired)
    ensures forall a :: a in desired ==> a in effective
  {
    hide Distinct, Ids, IndexOf, ArrangeDesiredOrder, Slot;
    DesiredShape(effective, movedId, target, reference, desired);
  }

  lemma {:induction false} MoveSeparates(
    effective: seq<Article>, movedId: int, target: Target, reference: Option<int>, normalize: bool,
    desired: seq<Article>)
    requires Distinct(effective) && (normalize || Sorted(effective))
    requires ArrangeDesiredOrder(effective, movedId, target, reference) == Ok(desired)
    ensures IndexOf(desired, movedId) >= 0
    ensures Separated(NewPositions(desired, movedId, normalize), IndexOf(desired, movedId))
  {
    hide Distinct, Ids, IndexOf, ArrangeDesiredOrder, Slot, Sorted;
    DesiredShape(effective, movedId, target, reference, desired);
    if !normalize {
      RemovedKeeps(effective, IndexOf(effective, movedId));
      NewPositionsSeparate(desired, movedId, IndexOf(desired, movedId));
    }
  }

  lemma {:induction false} MoveSnapshot(
    effective: seq<Article>, positions: map<int, int>, movedId: int, target: Target, reference: Option<int>,
    normalize: bool, desired: seq<Article>)
    requires Snapshot(effective, positions)
    requires ArrangeDesiredOrder(effective, movedId, target, reference) == Ok(desired)
    ensures Snapshot(Renumbered(desired, NewPositions(desired, movedId, normalize)),
                     Applied(positions, MoveWrites(desired, movedId, normalize)))
  {
    DesiredShape(effective, movedId, target, reference, desired);
    DesiredFromEffective(effective, movedId, target, reference, desired);
    RenumberedSnapshot(effective, desired, NewPositions(desired, movedId, normalize), positions);
  }

  /**
   One complete run places the article: from any listing without inversion (from
   any listing at all with normalize), whatever order tied siblings then show in.
   */
  lemma {:induction false} RunPlacesArticle(
    effective: seq<Article>, positions: map<int, int>, movedId: int, target: Target, reference: Option<int>,
    normalize: bool, desired: seq<Article>, after: seq<Article>)
    requires Snapshot(effective, positions) && (normalize || Sorted(effective))
    requires ArrangeDesiredOrder(effective, movedId, target, reference) == Ok(desired)
    requires Listing(after, Applied(positions, MoveWrites(desired, movedId, normalize)))
    ensures |after| == |desired|
    ensures IndexOf(after, movedId) == IndexOf(desired, movedId)
    ensures IsPlacedAsRequested(after, movedId, target, reference)
  {
    MoveSeparates(effective, movedId, target, reference, normalize, desired);
    MoveSnapshot(effective, positions, movedId, target, reference, normalize, desired);
    SeparatedIsPlaced(effective, movedId, target, reference, desired, NewPositions(desired, movedId, normalize),
                      Applied(positions, MoveWrites(desired, movedId, normalize)), after);
  }

  lemma {:induction false} UpwardsSeparated(n: nat, k: nat)
    requires k < n
    ensures Separated(seq(n, i => i), k)
  {
  }

  /** With normalize the section can afterwards be listed in one way only: the desired order, numbered from 0. */
  lemma {:induction false} NormalizeFixesTheOrder(
    effective: seq<Article>, positions: map<int, int>, movedId: int, target: Target, reference: Option<int>,
    desired: seq<Article>, after: seq<Article>)
    requires Snapshot(effective, positions)
    requires ArrangeDesiredOrder(effective, movedId, target, reference) == Ok(desired)
    requires Listing(after, Applied(positions, MoveWrites(desired, movedId, true)))
    ensures |after| == |desired|
    ensures forall k :: 0 <= k < |after| ==> after[k] == Article(desired[k].id, k)
  {
    hide Distinct, Ids, IndexOf, ArrangeDesiredOrder, Separated;
    MoveSeparates(effective, movedId, target, reference, true, desired);
    MoveSnapshot(effective, positions, movedId, target, reference, true, desired);
    var ps := NewPositions(desired, movedId, true);
    var final := Applied(positions, MoveWrites(desired, movedId, true));
    SeparatedIndex(desired, IndexOf(desired, movedId), ps, final, after);
    forall k | 0 <= k < |after| ensures after[k] == Article(desired[k].id, k) {
      UpwardsSeparated(|desired|, k);
      SeparatedIndex(desired, k, ps, final, after);
    }
  }

  // ----- No writes, repeated runs ------------------------------------------

  lemma {:induction false} PutBack(order: seq<Article>, at: nat)
    requires at < |order|
    ensures Inserted(Removed(order, at), at, order[at]) == order
  {
  }

  lemma {:induction false} BackInItsSlot(
    effective: seq<Article>, movedId: int, target: Target, reference: Option<int>, desired: seq<Article>)
    requires Distinct(effective)
    requires ArrangeDesiredOrder(effective, movedId, target, reference) == Ok(desired)
    requires IndexOf(effective, movedId) == IndexOf(desired, movedId)
    ensures desired == effective
  {
    DesiredShape(effective, movedId, target, reference, desired);
    PutBack(effective, IndexOf(effective, movedId));
  }

  /** On a section without inversion, no writes means the article is where it was asked to be. */
  lemma {:induction false} NoWritesMeansInPlace(
    effective: seq<Article>, positions: map<int, int>, movedId: int, target: Target, reference: Option<int>,
    normalize: bool, desired: seq<Article>)
    requires Listing(effective, positions)
    requires ArrangeDesiredOrder(effective, movedId, target, reference) == Ok(desired)
    requires MoveWrites(desired, movedId, normalize) == []
    ensures desired == effective
    ensures IsPlacedAsRequested(effective, movedId, target, reference)
  {
    RunPlacesArticle(effective, positions, movedId, target, reference, normalize, desired, effective);
    BackInItsSlot(effective, movedId, target, reference, desired);
  }

  /** Without that guard the reply can be wrong: an inverted section, nothing to write, article at the top. */
  lemma {:induction false} InvertedSectionFoolsTheReply()
    ensures exists effective: seq<Article>, desired, movedId ::
      && Distinct(effective) && !Sorted(effective)
      && ArrangeDesiredOrder(effective, movedId, Bottom, None) == Ok(desired)
      && MoveWrites(desired, movedId, false) == []
      && !IsPlacedAsRequested(effective, movedId, Bottom, None)
  {
    var a, b := Article(1, 7), Article(2, 3);
    hide IndexOf, Without, Differences;
    TwoArticles(a, b);
    TwoArticles(b, a);
    assert ArrangeDesiredOrder([a, b], 1, Bottom, None) == Ok([b, a]) by {
      assert [b][..1] + [a] + [b][1..] == [b, a];
    }
    NothingToRaise(a, b);
    DifferencesNone([b, a]);
    assert MoveWrites([b, a], 1, false) == [] && !IsPlacedAsRequested([a, b], 1, Bottom, None);
  }

  lemma {:induction false} NothingToRaise(a: Article, b: Article)
    requires a == Article(1, 7) && b == Article(2, 3)
    ensures NewPositions([b, a], 1, false) == Positions([b, a])
  {
    TwoArticles(b, a);
    assert [b, a][..1] == [b] && Positions([b]) == [3];
    assert MaxPosition([b]) == 3 by { assert [b][..0] == []; }
    assert Cascade([b, a][2..], 7) == [];
    assert Positions([b, a]) == [3] + [7] + [];
  }

  lemma {:induction false} TwoArticles(a: Article, b: Article)
    requires a.id != b.id
    ensures IndexOf([a, b], a.id) == 0 && IndexOf([a, b], b.id) == 1
    ensures Without([a, b], a.id) == [b]
  {
    assert [a, b][1..] == [b] && IndexOf([b], b.id) == 0;
    WithoutAbsent([b], a.id);
  }

  lemma {:induction false} CascadeSettled(right: seq<Article>, running: int)
    ensures var ps := Cascade(right, running);
            Cascade(Renumbered(right, ps), running) == ps
  {
  }

  lemma {:induction false} IndexOfRenumbered(order: seq<Article>, ps: seq<int>, id: int)
    requires |order| == |ps|
    ensures IndexOf(Renumbered(order, ps), id) == IndexOf(order, id)
  {
    if order != [] {
      assert Renumbered(order, ps)[1..] == Renumbered(order[1..], ps[1..]);
      IndexOfRenumbered(order[1..], ps[1..], id);
    }
  }

  lemma {:induction false} MovedStays(desired: seq<Article>, settled: seq<Article>, m: nat)
    requires m < |desired| == |settled| && settled[..m] == desired[..m]
    requires settled[m].position == MovedPosition(desired, m)
    ensures MovedPosition(settled, m) == MovedPosition(desired, m)
  {
  }

  lemma {:induction false} RenumberedParts(desired: seq<Article>, ps: seq<int>, m: nat)
    requires m < |desired| == |ps| && ps[..m] == Positions(desired[..m])
    ensures var settled := Renumbered(desired, ps);
            settled[..m] == desired[..m] && settled[m + 1..] == Renumbered(desired[m + 1..], ps[m + 1..])
  {
    var settled := Renumbered(desired, ps);
    forall i | 0 <= i < m ensures settled[i] == desired[i] {
      assert ps[i] == ps[..m][i] == desired[..m][i].position;
    }
  }

  lemma {:induction false} SettledPositions(desired: seq<Article>, movedId: int)
    ensures var ps := NewPositions(desired, movedId, false);
            NewPositions(Renumbered(desired, ps), movedId, false) == ps
  {
    var ps := NewPositions(desired, movedId, false);
    var settled := Renumbered(desired, ps);
    IndexOfRenumbered(desired, ps, movedId);
    var m := IndexOf(desired, movedId);
    if m != -1 {
      Parts(desired, movedId, m);
      RenumberedParts(desired, ps, m);
      MovedStays(desired, settled, m);
      CascadeSettled(desired[m + 1..], ps[m]);
      var again := NewPositions(settled, movedId, false);
      Parts(settled, movedId, m);
      assert again[..m] == ps[..m] && again[m] == ps[m] && again[m + 1..] == ps[m + 1..];
      Reassembled(ps, m);
      Reassembled(again, m);
    }
  }

  lemma {:induction false} Reassembled(ps: seq<int>, m: nat)
    requires m < |ps|
    ensures ps == ps[..m] + [ps[m]] + ps[m + 1..]
  {
  }

  /** Repeating the request on the order it asked for writes nothing. */
  lemma {:induction false} RepeatWritesNothing(desired: seq<Article>, movedId: int, normalize: bool)
    ensures var ps := NewPositions(desired, movedId, normalize);
            MoveWrites(Renumbered(desired, ps), movedId, normalize) == []
  {
    var ps := NewPositions(desired, movedId, normalize);
    var settled := Renumbered(desired, ps);
    if !normalize { SettledPositions(desired, movedId); }
    assert Positions(settled) == ps;
    DifferencesNone(settled);
  }

  // ----- The cascade is a least solution -----------------------------------

  /** How many articles right of the moved one the cascade rewrites. */
  function RunLength(right: seq<Article>, running: int): (k: nat)
    ensures k <= |right|
  {
    if right == [] || right[0].position > running then 0
    else 1 + RunLength(right[1..], running + 1)
  }

  /**
   Another way to make room: the articles left of the moved one keep their
   positions, the moved one and the run right of it are strictly increasing,
   and no position from the moved one on is negative.
   */
  ghost predicate MakesRoom(desired: seq<Article>, m: nat, qs: seq<int>) {
    && m < |desired| == |qs|
    && (forall i :: 0 <= i < m ==> qs[i] == desired[i].position)
    && (forall i :: m <= i < |qs| ==> qs[i] >= 0)
    && (forall i :: 0 <= i < m ==> qs[i] < qs[m])
    && (forall i :: m < i <= m + RunLength(desired[m + 1..], MovedPosition(desired, m)) ==> qs[i - 1] < qs[i])
  }

  lemma {:induction false} CascadeIsLeast(right: seq<Article>, running: int, floor: int, qs: seq<int>)
    requires |qs| == |right| && running <= floor
    requires var k := RunLength(right, running);
             (k > 0 ==> floor < qs[0]) && forall i :: 0 < i < k ==> qs[i - 1] < qs[i]
    ensures var k, ps := RunLength(right, running), Cascade(right, running);
            && (forall i :: 0 <= i < k ==> right[i].position < ps[i] <= qs[i])
            && (forall i :: k <= i < |ps| ==> ps[i] == right[i].position)
  {
    if right != [] && right[0].position <= running {
      assert RunLength(right[1..], running + 1) == RunLength(right, running) - 1;
      assert forall i :: 0 <= i < |right[1..]| ==> qs[1..][i] == qs[i + 1];
      CascadeIsLeast(right[1..], running + 1, qs[0], qs[1..]);
    }
  }

  lemma {:induction false} WriteCount(order: seq<Article>, ps: seq<int>, k: nat)
    requires |order| == |ps| && k <= |order|
    requires forall i :: 0 <= i < k ==> ps[i] != order[i].position
    ensures |Differences(order, ps)| >= k
    ensures (forall i :: k <= i < |ps| ==> ps[i] == order[i].position) ==> |Differences(order, ps)| == k
  {
    if order != [] {
      WriteCount(order[1..], ps[1..], if k == 0 then 0 else k - 1);
    }
  }

  lemma {:induction false} WritesBySide(desired: seq<Article>, m: nat, ps: seq<int>)
    requires m < |desired| == |ps|
    requires forall i :: 0 <= i < m ==> ps[i] == desired[i].position
    ensures |Differences(desired, ps)| == (if ps[m] != desired[m].position then 1 else 0)
                                          + |Differences(desired[m + 1..], ps[m + 1..])|
  {
    var left, right := desired[..m + 1], desired[m + 1..];
    assert desired == left + right && ps == ps[..m + 1] + ps[m + 1..];
    DifferencesConcat(left, right, ps[..m + 1], ps[m + 1..]);
    DifferencesNext(desired, ps, m);
    assert ps[..m] == Positions(desired[..m]);
    DifferencesNone(desired[..m]);
  }

  /**
   On a section without inversion, whatever makes room for the moved article
   gives it and the run right of it at least the cascade's positions and rewrites
   every right-hand article the cascade rewrites, so the cascade is within one
   write of the best.
   */
  lemma {:induction false} CascadeWithinOneWrite(desired: seq<Article>, movedId: int, m: nat, qs: seq<int>)
    requires m == IndexOf(desired, movedId)
    requires Sorted(Removed(desired, m)) && MakesRoom(desired, m, qs)
    ensures var ps := NewPositions(desired, movedId, false);
            && (m < |desired| - 1 || ps[m] != desired[m].position ==> ps[m] <= qs[m])
            && (forall i :: m < i < |ps| && ps[i] != desired[i].position ==>
                  ps[i] <= qs[i] && qs[i] != desired[i].position)
            && |Differences(desired, ps)| <= |Differences(desired, qs)| + 1
  {
    hide Sorted, Differences, MovedPosition, Cascade, IndexOf, Removed, RunLength;
    var ps := NewPositions(desired, movedId, false);
    Parts(desired, movedId, m);
    SidesSorted(desired, m);
    MovedIsLeast(desired, m, qs);
    assert forall i :: 0 <= i < m ==> ps[i] == ps[..m][i];
    WritesBySide(desired, m, ps);
    WritesBySide(desired, m, qs);
    if m < |desired| - 1 {
      RunIsLeast(desired, m, ps, qs);
    } else {
      assert desired[m + 1..] == [] && ps[m + 1..] == [] && qs[m + 1..] == [];
      DifferencesOfNone();
    }
  }

  lemma {:induction false} MovedIsLeast(desired: seq<Article>, m: nat, qs: seq<int>)
    requires MakesRoom(desired, m, qs) && Sorted(desired[..m])
    ensures m < |desired| - 1 || MovedPosition(desired, m) != desired[m].position ==> MovedPosition(desired, m) <= qs[m]
  {
    var left := desired[..m];
    if MaxPosition(left) != -1 {
      var a :| a in left && a.position == MaxPosition(left);
      var i :| 0 <= i < m && left[i] == a;
      assert qs[i] == a.position;
    }
  }

  lemma {:induction false} RunIsLeast(desired: seq<Article>, m: nat, ps: seq<int>, qs: seq<int>)
    requires MakesRoom(desired, m, qs) && |ps| == |desired|
    requires ps[m] == MovedPosition(desired, m) <= qs[m]
    requires ps[m + 1..] == Cascade(desired[m + 1..], ps[m])
    ensures forall i :: m < i < |ps| && ps[i] != desired[i].position ==>
              ps[i] <= qs[i] && qs[i] != desired[i].position
    ensures |Differences(desired[m + 1..], ps[m + 1..])| <= |Differences(desired[m + 1..], qs[m + 1..])|
  {
    var right, rs := desired[m + 1..], qs[m + 1..];
    var k := RunLength(right, ps[m]);
    RunMakesRoom(desired, m, qs);
    CascadeIsLeast(right, ps[m], qs[m], rs);
    var cs := ps[m + 1..];
    hide MakesRoom, Cascade, Differences, RunLength;
    WriteCount(right, cs, k);
    WriteCount(right, rs, k);
    forall i | m < i < |ps| && ps[i] != desired[i].position ensures ps[i] <= qs[i] && qs[i] != desired[i].position {
      var j := i - m - 1;
      assert ps[i] == cs[j] && desired[i] == right[j] && qs[i] == rs[j];
    }
  }

  lemma {:induction false} RunMakesRoom(desired: seq<Article>, m: nat, qs: seq<int>)
    requires MakesRoom(desired, m, qs)
    ensures var k := RunLength(desired[m + 1..], MovedPosition(desired, m));
            var rs := qs[m + 1..];
            (k > 0 ==> qs[m] < rs[0]) && forall i :: 0 < i < k ==> rs[i - 1] < rs[i]
  {
    hide RunLength, MovedPosition;
    var k := RunLength(desired[m + 1..], MovedPosition(desired, m));
    var rs := qs[m + 1..];
    forall i | 0 < i < k ensures rs[i - 1] < rs[i] {
      assert rs[i] == qs[m + 1 + i] && rs[i - 1] == qs[m + 1 + i - 1];
      assert qs[m + 1 + i - 1] < qs[m + 1 + i];
    }
    assert k > 0 ==> qs[m] < qs[m + 1];
  }

  // ----- Interrupted runs ----------------------------------------------------

  /** One call of the tool: the listing it read, what it was asked, how its PUTs ended. */
  datatype Run = Run(effective: seq<Article>, request: Request, threshold: nat, puts: seq<Put>)

  /** The positions a call leaves: a landed prefix of its writes, or what was there. */
  ghost function AfterRun(positions: map<int, int>, run: Run): map<int, int>
    requires |run.puts| >= |run.effective|
  {
    match Decide(run.effective, run.request, run.threshold)
    case Proceed(writes) =>
      if |writes| <= |run.puts| then Applied(positions, writes[..Landed(run.puts, |writes|)]) else positions
    case _ => positions
  }

  /** `states` are the positions a manually sorted section goes through over `runs`. */
  ghost predicate History(states: seq<map<int, int>>, runs: seq<Run>) {
    && |states| == |runs| + 1
    && forall i :: 0 <= i < |runs| ==>
         |runs[i].puts| >= |runs[i].effective|
         && Listing(runs[i].effective, states[i])
         && states[i + 1] == AfterRun(states[i], runs[i])
  }

  lemma {:induction false} AppliedKeys(positions: map<int, int>, writes: seq<Write>)
    requires forall w :: w in writes ==> w.id in positions
    ensures Applied(positions, writes).Keys == positions.Keys
    decreases |writes|
  {
    if writes != [] {
      var next := positions[writes[0].id := writes[0].position];
      assert next.Keys == positions.Keys;
      AppliedKeys(next, writes[1..]);
    }
  }

  lemma {:induction false} DifferencesIds(order: seq<Article>, ps: seq<int>)
    requires |order| == |ps|
    ensures forall w :: w in Differences(order, ps) ==> w.id in Ids(order)
  {
    if order != [] {
      DifferencesIds(order[1..], ps[1..]);
      assert forall a :: a in order[1..] ==> a in order;
      assert order[0] in order;
    }
  }

  /** A run, whatever becomes of it, neither adds nor removes an article. */
  lemma {:induction false} RunKeepsArticles(positions: map<int, int>, run: Run)
    requires Listing(run.effective, positions) && |run.puts| >= |run.effective|
    ensures AfterRun(positions, run).Keys == positions.Keys
  {
    hide NewPositions, Differences, Applied, IndexOf, ArrangeDesiredOrder, Coherent, Landed, Sorted;
    var decision := Decide(run.effective, run.request, run.threshold);
    if decision.Proceed? {
      var request := run.request;
      var desired := ArrangeDesiredOrder(run.effective, request.movedId, request.target, request.reference).value;
      DesiredShape(run.effective, request.movedId, request.target, request.reference, desired);
      DifferencesIds(desired, NewPositions(desired, request.movedId, request.normalize));
      if |decision.writes| <= |run.puts| {
        AppliedKeys(positions, decision.writes[..Landed(run.puts, |decision.writes|)]);
      }
    }
  }

  lemma {:induction false} HistoryKeepsArticles(states: seq<map<int, int>>, runs: seq<Run>)
    requires History(states, runs)
    ensures states[|runs|].Keys == states[0].Keys
    decreases |runs|
  {
    if runs != [] {
      var n := |runs| - 1;
      HistoryKeepsArticles(states[..n + 1], runs[..n]);
      RunKeepsArticles(states[n], runs[n]);
    }
  }

  /** A coherent request about articles of the section is always arranged. */
  lemma {:induction false} CoherentIsArranged(effective: seq<Article>, request: Request)
    requires Distinct(effective) && Coherent(request)
    requires request.movedId in Ids(effective)
    requires request.reference.Some? ==> request.reference.value in Ids(effective)
    ensures ArrangeDesiredOrder(effective, request.movedId, request.target, request.reference).Ok?
  {
    var at := IndexOf(effective, request.movedId);
    WithoutIsRemoved(effective, request.movedId);
    RemovedKeeps(effective, at);
  }

  /**
   Re-running the identical call is safe: after any number of runs, each stopped
   after any prefix of its writes, one confirmed run whose PUTs are acknowledged
   neither refuses nor reports a sorted section, and every later listing shows the
   article where it was asked to be. The same holds when it finds nothing to write.
   */
  lemma {:induction false} RerunPlacesArticle(
    states: seq<map<int, int>>, runs: seq<Run>, last: Run, after: seq<Article>)
    requires History(states, runs)
    requires Listing(last.effective, states[|runs|]) && |last.puts| >= |last.effective|
    requires Coherent(last.request) && last.request.confirm
    requires last.request.movedId in states[0]
    requires last.request.reference.Some? ==> last.request.reference.value in states[0]
    requires forall p :: p in last.puts ==> p.Acknowledged?
    requires Listing(after, AfterRun(states[|runs|], last))
    ensures var decision := Decide(last.effective, last.request, last.threshold);
            decision.AlreadyPositioned? || decision.Proceed?
    ensures IsPlacedAsRequested(after, last.request.movedId, last.request.target, last.request.reference)
  {
    var positions := states[|runs|];
    HistoryKeepsArticles(states, runs);
    CoherentIsArranged(last.effective, last.request);
    var r := last.request;
    var desired := ArrangeDesiredOrder(last.effective, r.movedId, r.target, r.reference).value;
    CompleteRun(positions, last, desired);
    RunPlacesArticle(last.effective, positions, r.movedId, r.target, r.reference, r.normalize, desired, after);
  }

  lemma {:induction false} CompleteRun(positions: map<int, int>, run: Run, desired: seq<Article>)
    requires Listing(run.effective, positions) && |run.puts| >= |run.effective|
    requires Coherent(run.request) && run.request.confirm
    requires run.request.reference.Some? ==> run.request.reference.value in Ids(run.effective)
    requires ArrangeDesiredOrder(run.effective, run.request.movedId, run.request.target, run.request.reference) == Ok(desired)
    requires forall p :: p in run.puts ==> p.Acknowledged?
    ensures var decision := Decide(run.effective, run.request, run.threshold);
            decision.AlreadyPositioned? || decision.Proceed?
    ensures AfterRun(positions, run)
         == Applied(positions, MoveWrites(desired, run.request.movedId, run.request.normalize))
  {
    hide ArrangeDesiredOrder, NewPositions, Differences, IndexOf, Ids, Coherent;
    var writes := MoveWrites(desired, run.request.movedId, run.request.normalize);
    DifferencesBounded(desired, NewPositions(desired, run.request.movedId, run.request.normalize));
    ArrangedLength(run.effective, run.request.movedId, run.request.target, run.request.reference);
    AcknowledgementsAt(run.puts, |writes|, |writes|);
    assert writes[..|writes|] == writes;
  }
}
