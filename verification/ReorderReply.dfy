/**
 The replies of the reorder handler (`src/tools/help-center.ts`). "Already positioned"
 is given whenever there is nothing to write, before the handler asks whether the
 section ignores positions: when that is right, for every section. And what its other
 replies say: the verification by index, and each decision before it.
 */
module ReorderReply {
  import opened Options
  import opened ArticleOrder
  import opened Reorder
  import opened ReorderTheorems

  /** The listing shows these two against their positions. */
  predicate Inverted(order: seq<Article>, i: nat, j: nat)
    requires i < |order| && j < |order|
  {
    || (i < j && order[i].position > order[j].position)
    || (j < i && order[j].position > order[i].position)
  }

  lemma {:induction false} NoDifferences(order: seq<Article>, ps: seq<int>)
    requires |order| == |ps| && Differences(order, ps) == []
    ensures forall i :: 0 <= i < |ps| ==> order[i].position == ps[i]
  {
    if order != [] {
      NoDifferences(order[1..], ps[1..]);
      assert WriteFor(order[0], ps[0]) == [];
      forall i | 0 <= i < |ps| ensures order[i].position == ps[i] {
        if i > 0 { assert order[i] == order[1..][i - 1] && ps[i] == ps[1..][i - 1]; }
      }
    }
  }

  lemma {:induction false} CascadeClears(right: seq<Article>, running: int)
    requires right != []
    ensures Cascade(right, running)[0] > running
  {
  }

  /** With nothing to write, the moved article lies strictly between its neighbours to be. */
  lemma {:induction false} NeighboursApart(desired: seq<Article>, movedId: int, normalize: bool, m: nat)
    requires m == IndexOf(desired, movedId) && MoveWrites(desired, movedId, normalize) == []
    ensures m > 0 ==> desired[m - 1].position < desired[m].position
    ensures m + 1 < |desired| ==> desired[m].position < desired[m + 1].position
  {
    var ps := NewPositions(desired, movedId, normalize);
    NoDifferences(desired, ps);
    if !normalize {
      hide NewPositions, IndexOf, MoveWrites;
      Parts(desired, movedId, m);
      var left, right := desired[..m], desired[m + 1..];
      if m > 0 { assert left[m - 1] in left; }
      if right != [] {
        CascadeClears(right, ps[m]);
        assert ps[m + 1] == ps[m + 1..][0];
      }
    }
  }

  /** The article standing at the moved one's slot is one of its neighbours to be. */
  lemma {:induction false} StandsInTheWay(effective: seq<Article>, at: nat, m: nat)
    requires at < |effective| && m < |effective|
    ensures var desired := Inserted(Removed(effective, at), m, effective[at]);
            && |desired| == |effective| && desired[m] == effective[at]
            && (at < m ==> desired[m - 1] == effective[m])
            && (m < at ==> desired[m + 1] == effective[m])
  {
  }

  /**
   For every section, inverted or not: when there is nothing to write, the listing
   already is the desired order exactly when it does not show the moved article against
   the position of the one standing at its slot.
   */
  lemma {:induction false} InPlaceExactly(
    effective: seq<Article>, movedId: int, target: Target, reference: Option<int>, normalize: bool, desired: seq<Article>)
    requires Distinct(effective)
    requires ArrangeDesiredOrder(effective, movedId, target, reference) == Ok(desired)
    requires MoveWrites(desired, movedId, normalize) == []
    ensures var at, m := IndexOf(effective, movedId), IndexOf(desired, movedId);
            && at >= 0 && 0 <= m < |effective|
            && (desired == effective <==> !Inverted(effective, at, m))
  {
    hide Distinct, Ids, IndexOf, ArrangeDesiredOrder, Slot, MoveWrites, Removed, Inserted;
    DesiredShape(effective, movedId, target, reference, desired);
    var at, m := IndexOf(effective, movedId), IndexOf(desired, movedId);
    NeighboursApart(desired, movedId, normalize, m);
    StandsInTheWay(effective, at, m);
    if at == m { BackInItsSlot(effective, movedId, target, reference, desired); }
  }

  /** The new positions with nothing to write ascend, unless siblings are themselves inverted. */
  lemma {:induction false} SettledAscends(desired: seq<Article>, movedId: int, normalize: bool, m: nat)
    requires m == IndexOf(desired, movedId) && MoveWrites(desired, movedId, normalize) == []
    requires normalize || Sorted(Removed(desired, m))
    ensures Sorted(desired)
  {
    NoDifferences(desired, NewPositions(desired, movedId, normalize));
    if !normalize {
      hide NewPositions, IndexOf, MoveWrites, Removed;
      NewPositionsSeparate(desired, movedId, m);
    }
  }

  /**
   When the siblings are in order (or the section is renumbered), that is exactly when
   the section is: the inversion test the handler makes too late decides whether the
   reply is right.
   */
  lemma {:induction false} InPlaceExactlyWhenSorted(
    effective: seq<Article>, movedId: int, target: Target, reference: Option<int>, normalize: bool, desired: seq<Article>)
    requires Distinct(effective)
    requires ArrangeDesiredOrder(effective, movedId, target, reference) == Ok(desired)
    requires MoveWrites(desired, movedId, normalize) == []
    requires normalize || Sorted(Without(effective, movedId))
    ensures desired == effective <==> Sorted(effective)
  {
    hide Distinct, Ids, IndexOf, ArrangeDesiredOrder, Slot, MoveWrites, Removed, Inserted;
    DesiredShape(effective, movedId, target, reference, desired);
    WithoutIsRemoved(effective, movedId);
    InPlaceExactly(effective, movedId, target, reference, normalize, desired);
    SettledAscends(desired, movedId, normalize, IndexOf(desired, movedId));
  }

  /** An article of the desired order stands in the listing where its id says. */
  lemma {:induction false} ListedWhere(
    effective: seq<Article>, movedId: int, target: Target, reference: Option<int>, desired: seq<Article>, k: nat)
    requires Distinct(effective) && k < |desired|
    requires ArrangeDesiredOrder(effective, movedId, target, reference) == Ok(desired)
    ensures var at := IndexOf(effective, desired[k].id); at >= 0 && effective[at] == desired[k]
  {
    hide ArrangeDesiredOrder;
    DesiredFromEffective(effective, movedId, target, reference, desired);
    var a := desired[k];
    assert a in effective && a.id in Ids(effective);
    var i :| 0 <= i < |effective| && effective[i] == a;
    var at := IndexOf(effective, a.id);
    assert effective[at].id == effective[i].id;
  }

  /**
   And when the reply is true as it is worded: at the top or the bottom, exactly when
   the listing is the desired order; before or after a reference, exactly when the
   listing does not show the two against their positions.
   */
  lemma {:induction false} ReplyIsTrueExactly(
    effective: seq<Article>, movedId: int, target: Target, reference: Option<int>, normalize: bool, desired: seq<Article>)
    requires Distinct(effective)
    requires ArrangeDesiredOrder(effective, movedId, target, reference) == Ok(desired)
    requires MoveWrites(desired, movedId, normalize) == []
    ensures IsPlacedAsRequested(effective, movedId, target, reference) <==>
            match target
            case Top => desired == effective
            case Bottom => desired == effective
            case _ =>
              var at, other := IndexOf(effective, movedId), if reference.Some? then IndexOf(effective, reference.value) else -1;
              at >= 0 && other >= 0 && !Inverted(effective, at, other)
  {
    hide Distinct, Ids, IndexOf, ArrangeDesiredOrder, Slot, MoveWrites, Removed, Inserted;
    DesiredShape(effective, movedId, target, reference, desired);
    ReferenceNextToMoved(effective, movedId, target, reference, desired);
    var at, m := IndexOf(effective, movedId), IndexOf(desired, movedId);
    NeighboursApart(desired, movedId, normalize, m);
    if at == m { BackInItsSlot(effective, movedId, target, reference, desired); }
    match target
    case Before => ListedWhere(effective, movedId, target, reference, desired, m + 1);
    case After => ListedWhere(effective, movedId, target, reference, desired, m - 1);
    case _ =>
  }

  // ----- The verification ------------------------------------------------------------

  /** What the caller asked for, read off a listing by indices alone. */
  ghost predicate Shown(after: seq<Article>, movedId: int, target: Target, reference: Option<int>) {
    match target
    case Top => after != [] && after[0].id == movedId
    case Bottom => after != [] && after[|after| - 1].id == movedId
    case Before => exists i, j :: 0 <= i < j < |after| && after[i].id == movedId && reference == Some(after[j].id)
    case After => exists i, j :: 0 <= i < j < |after| && reference == Some(after[i].id) && after[j].id == movedId
  }

  /** The placement test answers what the listing shows; positions, tied or not, play no part. */
  lemma {:induction false} PlacedExactly(after: seq<Article>, movedId: int, target: Target, reference: Option<int>)
    requires Distinct(after)
    ensures IsPlacedAsRequested(after, movedId, target, reference) <==> Shown(after, movedId, target, reference)
  {
    hide IndexOf, Ids, Distinct;
    var m := IndexOf(after, movedId);
    var r := if reference.Some? then IndexOf(after, reference.value) else -1;
    IndexIsThere(after, movedId);
    if reference.Some? { IndexIsThere(after, reference.value); }
    if IsPlacedAsRequested(after, movedId, target, reference) {
      assert after[m].id == movedId;
      if target.Before? || target.After? { assert after[r].id == reference.value; }
    }
    if Shown(after, movedId, target, reference) {
      match target
      case Top => IndexIs(after, 0);
      case Bottom => IndexIs(after, |after| - 1);
      case Before =>
        var i, j :| 0 <= i < j < |after| && after[i].id == movedId && reference == Some(after[j].id);
        IndexIs(after, i);
        IndexIs(after, j);
      case After =>
        var i, j :| 0 <= i < j < |after| && reference == Some(after[i].id) && after[j].id == movedId;
        IndexIs(after, i);
        IndexIs(after, j);
    }
  }

  lemma {:induction false} IndexIsThere(order: seq<Article>, id: int)
    ensures IndexOf(order, id) >= 0 ==> order[IndexOf(order, id)].id == id
  {
  }

  lemma {:induction false} IndexIs(order: seq<Article>, k: nat)
    requires Distinct(order) && k < |order|
    ensures IndexOf(order, order[k].id) == k
  {
    hide IndexOf;
    var i := IndexOf(order, order[k].id);
    assert order[k] in order && order[k].id in Ids(order);
    assert order[i].id == order[k].id;
  }

  /** The caller is told the article moved exactly when every write was acknowledged and the new listing shows it. */
  lemma {:induction false} MovedExactly(
    effective: seq<Article>, request: Request, threshold: nat, puts: seq<Put>, after: seq<Article>)
    requires |puts| >= |effective| && Distinct(after)
    ensures var decision := Decide(effective, request, threshold);
            ReplyTo(effective, request, threshold, puts, after).Moved? <==>
              && decision.Proceed?
              && (forall i :: 0 <= i < |decision.writes| ==> i < |puts| && puts[i].Acknowledged?)
              && Shown(after, request.movedId, request.target, request.reference)
  {
    hide Shown, IsPlacedAsRequested;
    PlacedExactly(after, request.movedId, request.target, request.reference);
    var decision := Decide(effective, request, threshold);
    if decision.Proceed? {
      ProceedIsBounded(effective, request, threshold);
      var k := Acknowledgements(puts, |decision.writes|);
      assert k < |decision.writes| ==> puts[k].Failed?;
    }
  }

  lemma {:induction false} ProceedIsBounded(effective: seq<Article>, request: Request, threshold: nat)
    requires Decide(effective, request, threshold).Proceed?
    ensures |Decide(effective, request, threshold).writes| <= |effective|
  {
    hide Coherent, Sorted, ArrangeDesiredOrder, NewPositions, Ids, Differences;
    var desired := ArrangeDesiredOrder(effective, request.movedId, request.target, request.reference).value;
    DifferencesBounded(desired, NewPositions(desired, request.movedId, request.normalize));
    ArrangedLength(effective, request.movedId, request.target, request.reference);
  }

  /**
   A section that acknowledges every write and goes on showing its articles in the old
   order is reported as sorted on its own, unless that order already shows what was asked.
   */
  lemma {:induction false} IgnoredWritesAreReported(
    effective: seq<Article>, request: Request, threshold: nat, puts: seq<Put>, after: seq<Article>)
    requires |puts| >= |effective| && Distinct(effective) && Decide(effective, request, threshold).Proceed?
    requires forall p :: p in puts ==> p.Acknowledged?
    requires |after| == |effective| && forall i :: 0 <= i < |after| ==> after[i].id == effective[i].id
    ensures var total := |Decide(effective, request, threshold).writes|;
            ReplyTo(effective, request, threshold, puts, after)
            == if Shown(effective, request.movedId, request.target, request.reference) then Moved(total) else AutoSorted(total)
  {
    hide IsPlacedAsRequested, Decide;
    assert Distinct(after);
    assert Shown(after, request.movedId, request.target, request.reference)
      <==> Shown(effective, request.movedId, request.target, request.reference);
    PlacedExactly(after, request.movedId, request.target, request.reference);
    ProceedIsBounded(effective, request, threshold);
    var total := |Decide(effective, request, threshold).writes|;
    AcknowledgementsAt(puts, total, total);
  }

  // ----- The decisions ------------------------------------------------------------------

  /** How many articles are to get another position. */
  ghost function Changed(desired: seq<Article>, ps: seq<int>): nat
    requires |desired| == |ps|
  {
    |ChangedAt(desired, ps)|
  }

  ghost function ChangedAt(desired: seq<Article>, ps: seq<int>): set<int>
    requires |desired| == |ps|
  {
    set i | 0 <= i < |desired| && desired[i].position != ps[i]
  }

  lemma {:induction false} WritesAreTheChanges(desired: seq<Article>, ps: seq<int>)
    requires |desired| == |ps|
    ensures |Differences(desired, ps)| == Changed(desired, ps)
    decreases |desired|
  {
    if desired == [] {
      assert ChangedAt(desired, ps) == {};
    } else {
      var k := |desired| - 1;
      DifferencesNext(desired, ps, k);
      WritesAreTheChanges(desired[..k], ps[..k]);
      assert desired[..k + 1] == desired && ps[..k + 1] == ps;
      assert ChangedAt(desired, ps)
        == ChangedAt(desired[..k], ps[..k]) + if desired[k].position != ps[k] then {k} else {};
    }
  }

  /** A request is turned down exactly when it contradicts itself or names an article that is not listed. */
  lemma {:induction false} RefusedExactly(effective: seq<Article>, request: Request, threshold: nat)
    requires Distinct(effective)
    ensures Decide(effective, request, threshold).Refused? <==>
            || (request.reference.Some? <==> request.target.Top? || request.target.Bottom?)
            || request.reference == Some(request.movedId)
            || request.movedId !in Ids(effective)
            || (request.reference.Some? && request.reference.value !in Ids(effective))
  {
    hide Sorted, NewPositions, Differences, Distinct;
    if Coherent(request) && request.movedId in Ids(effective)
       && (request.reference.Some? ==> request.reference.value in Ids(effective)) {
      CoherentIsArranged(effective, request);
    }
  }

  /**
   What is not turned down is answered by what would change: nothing changes, or the
   listing has an inversion, or more articles change than the threshold allows
   unconfirmed, or the writes go ahead, one for each article that changes.
   */
  lemma {:induction false} DecidesExactly(effective: seq<Article>, request: Request, threshold: nat, desired: seq<Article>)
    requires !Decide(effective, request, threshold).Refused?
    requires ArrangeDesiredOrder(effective, request.movedId, request.target, request.reference) == Ok(desired)
    ensures var decision := Decide(effective, request, threshold);
            var changed := Changed(desired, NewPositions(desired, request.movedId, request.normalize));
            var inverted := exists i, j :: 0 <= i < j < |effective| && effective[i].position > effective[j].position;
            && (decision == AlreadyPositioned <==> changed == 0)
            && (decision == LooksAutoSorted <==> changed > 0 && inverted)
            && (decision == NeedsConfirmation(changed) <==>
                  changed > 0 && !inverted && changed > threshold && !request.confirm)
            && (decision.Proceed? <==> changed > 0 && !inverted && (changed <= threshold || request.confirm))
            && (decision.Proceed? ==> |decision.writes| == changed)
  {
    hide Coherent, Ids, NewPositions, Differences, ArrangeDesiredOrder, Changed;
    var ps := NewPositions(desired, request.movedId, request.normalize);
    WritesAreTheChanges(desired, ps);
    assert Sorted(effective) <==> !(exists i, j :: 0 <= i < j < |effective| && effective[i].position > effective[j].position);
  }
}
