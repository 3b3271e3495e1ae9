/**
 What `reorder_article` promises (`src/tools/help-center.ts`, over the ordering
 logic of `src/utils/article-order.ts`): the moved article lands where it was
 asked to, whatever ties the listing breaks and wherever earlier runs died.
 */
module Reorder {
  import opened Options
  import opened ArticleOrder

  // ----- The remote section ----------------------------------------------

  /**
   `order` is one way Zendesk may list a manually sorted section holding
   `positions`: every article once, by position, ties in any order.
   */
  ghost predicate Listing(order: seq<Article>, positions: map<int, int>) {
    && Distinct(order)
    && Ids(order) == positions.Keys
    && (forall i :: 0 <= i < |order| ==> order[i].id in positions && positions[order[i].id] == order[i].position)
    && Sorted(order)
  }

  function Applied(positions: map<int, int>, writes: seq<Write>): map<int, int>
    decreases |writes|
  {
    if writes == [] then positions
    else Applied(positions[writes[0].id := writes[0].position], writes[1..])
  }

  lemma {:induction false} AppliedSnoc(positions: map<int, int>, writes: seq<Write>)
    requires writes != []
    ensures var n := |writes| - 1;
            Applied(positions, writes) == Applied(positions, writes[..n])[writes[n].id := writes[n].position]
    decreases |writes|
  {
    var n := |writes| - 1;
    if n > 0 {
      AppliedSnoc(positions[writes[0].id := writes[0].position], writes[1..]);
      assert writes[1..][..n - 1] == writes[..n][1..];
    }
  }

  /** How one PUT ends: acknowledged, or failed with the write landed or not. */
  datatype Put = Acknowledged | Failed(landed: bool)

  /** The number of writes that reach Zendesk, and how many of them the loop counted. */
  function Acknowledgements(puts: seq<Put>, total: nat): (k: nat)
    requires |puts| >= total
    ensures k <= total
    ensures forall i :: 0 <= i < k ==> puts[i].Acknowledged?
    ensures k < total ==> puts[k].Failed?
  {
    if total == 0 || puts[0].Failed? then 0 else 1 + Acknowledgements(puts[1..], total - 1)
  }

  function Landed(puts: seq<Put>, total: nat): (k: nat)
    requires |puts| >= total
    ensures k <= total
  {
    var k := Acknowledgements(puts, total);
    if k < total && puts[k].landed then k + 1 else k
  }

  // ----- The handler's decisions ------------------------------------------

  datatype Request = Request(
    movedId: int, target: Target, reference: Option<int>, normalize: bool, confirm: bool)

  datatype Refusal = Incoherent | ReferenceNotInSection | MovedNotInSection

  datatype Decision =
    | Refused(reason: Refusal)
    | AlreadyPositioned
    | LooksAutoSorted
    | NeedsConfirmation(count: nat)
    | Proceed(writes: seq<Write>)

  predicate Coherent(request: Request) {
    && (request.target.Before? || request.target.After? <==> request.reference.Some?)
    && request.reference != Some(request.movedId)
  }

  /** What the handler decides before it writes anything, in the order it decides it. */
  ghost function Decide(effective: seq<Article>, request: Request, threshold: nat): Decision {
    if !Coherent(request) then Refused(Incoherent)
    else if request.reference.Some? && request.reference.value !in Ids(effective) then Refused(ReferenceNotInSection)
    else
      match ArrangeDesiredOrder(effective, request.movedId, request.target, request.reference)
      case Err(_) => Refused(MovedNotInSection)
      case Ok(desired) =>
        var writes := Differences(desired, NewPositions(desired, request.movedId, request.normalize));
        if writes == [] then AlreadyPositioned
        else if !Sorted(effective) then LooksAutoSorted
        else if |writes| > threshold && !request.confirm then NeedsConfirmation(|writes|)
        else Proceed(writes)
  }

  /** What the caller is told; a section taken for auto-sorted comes with the number of writes it ignored. */
  datatype Reply =
    | Rejected(reason: Refusal)
    | AlreadyThere
    | AutoSorted(applied: nat)
    | Confirm(count: nat)
    | Stopped(applied: nat, total: nat)
    | Moved(applied: nat)

  /** The reply, once the writes are made and the section is listed again as `after`. */
  ghost function ReplyTo(effective: seq<Article>, request: Request, threshold: nat, puts: seq<Put>, after: seq<Article>): Reply
    requires |puts| >= |effective|
  {
    match Decide(effective, request, threshold)
    case Refused(reason) => Rejected(reason)
    case AlreadyPositioned => AlreadyThere
    case LooksAutoSorted => AutoSorted(0)
    case NeedsConfirmation(count) => Confirm(count)
    case Proceed(writes) =>
      var total := |writes|;
      if total > |puts| then Stopped(0, total)
      else if Acknowledgements(puts, total) < total then Stopped(Acknowledgements(puts, total), total)
      else if IsPlacedAsRequested(after, request.movedId, request.target, request.reference) then Moved(total)
      else AutoSorted(total)
  }

  /** A section as Zendesk holds it: `position` per article id. */
  class Section {
    var positions: map<int, int>

    constructor (initial: map<int, int>)
      ensures positions == initial
    {
      positions := initial;
    }

    /**
     The PUT loop. It stops at the first failure, so what reached Zendesk is a
     prefix of the writes: the acknowledged ones, and the failed one if it landed.
     */
    method ApplyPositionWrites(writes: seq<Write>, puts: seq<Put>) returns (applied: nat, failed: bool)
      requires |puts| >= |writes|
      modifies this
      ensures applied == Acknowledgements(puts, |writes|)
      ensures failed <==> applied < |writes|
      ensures positions == Applied(old(positions), writes[..Landed(puts, |writes|)])
    {
      applied := 0;
      AcknowledgementsAt(puts, |writes|, 0);
      while applied < |writes|
        invariant applied <= |writes|
        invariant forall i :: 0 <= i < applied ==> puts[i].Acknowledged?
        invariant positions == Applied(old(positions), writes[..applied])
      {
        var write := writes[applied];
        AppliedSnoc(old(positions), writes[..applied + 1]);
        assert writes[..applied + 1][..applied] == writes[..applied];
        match puts[applied]
        case Acknowledged =>
          positions := positions[write.id := write.position];
          applied := applied + 1;
        case Failed(landed) =>
          if landed { positions := positions[write.id := write.position]; }
          AcknowledgementsAt(puts, |writes|, applied);
          return applied, true;
      }
      AcknowledgementsAt(puts, |writes|, applied);
      return applied, false;
    }

    /**
     The handler: `effective` is the listing it read, `puts` how the PUTs it may issue
     end, and `after` the listing it reads to verify. Nothing is written unless it
     decides to.
     */
    method ReorderArticle(
        effective: seq<Article>, request: Request, threshold: nat, puts: seq<Put>, after: seq<Article>)
      returns (reply: Reply)
      requires |puts| >= |effective|
      modifies this
      ensures reply == ReplyTo(effective, request, threshold, puts, after)
      ensures match Decide(effective, request, threshold)
              case Proceed(writes) =>
                && |writes| <= |effective|
                && positions == Applied(old(positions), writes[..Landed(puts, |writes|)])
              case _ => positions == old(positions)
    {
      hide Coherent, Sorted, ArrangeDesiredOrder, NewPositions, Differences, IsPlacedAsRequested, Applied, Acknowledgements, Landed;
      if !Coherent(request) { return Rejected(Incoherent); }
      if request.reference.Some? && request.reference.value !in Ids(effective) { return Rejected(ReferenceNotInSection); }
      var arranged := ArrangeDesiredOrder(effective, request.movedId, request.target, request.reference);
      if arranged.Err? { return Rejected(MovedNotInSection); }
      var desired := arranged.value;
      var writes := ComputePositionWrites(desired, request.movedId, request.normalize);
      if writes == [] { return AlreadyThere; }
      var inverted := HasPositionInversion(effective);
      if inverted { return AutoSorted(0); }
      if |writes| > threshold && !request.confirm { return Confirm(|writes|); }
      DifferencesBounded(desired, NewPositions(desired, request.movedId, request.normalize));
      ArrangedLength(effective, request.movedId, request.target, request.reference);
      var applied, failed := ApplyPositionWrites(writes, puts);
      if failed { return Stopped(applied, |writes|); }
      if !IsPlacedAsRequested(after, request.movedId, request.target, request.reference) { return AutoSorted(applied); }
      return Moved(applied);
    }
  }

  lemma {:induction false} DifferencesBounded(order: seq<Article>, ps: seq<int>)
    requires |order| == |ps|
    ensures |Differences(order, ps)| <= |order|
  {
    if order != [] { DifferencesBounded(order[1..], ps[1..]); }
  }

  lemma {:induction false} WithoutShorter(order: seq<Article>, id: int)
    ensures |Without(order, id)| <= |order|
    ensures id in Ids(order) ==> |Without(order, id)| < |order|
  {
    if order != [] {
      WithoutShorter(order[1..], id);
      assert order == [order[0]] + order[1..];
      IdsConcat([order[0]], order[1..]);
    }
  }

  lemma {:induction false} ArrangedLength(
    effective: seq<Article>, movedId: int, target: Target, reference: Option<int>)
    ensures var arranged := ArrangeDesiredOrder(effective, movedId, target, reference);
            arranged.Ok? ==> |arranged.value| <= |effective|
  {
    WithoutShorter(effective, movedId);
  }

  lemma {:induction false} AcknowledgementsAt(puts: seq<Put>, total: nat, k: nat)
    requires |puts| >= total >= k
    requires forall i :: 0 <= i < k ==> puts[i].Acknowledged?
    ensures k < total && puts[k].Failed? ==> Acknowledgements(puts, total) == k
    ensures k == total ==> Acknowledgements(puts, total) == k
  {
    if k > 0 {
      assert puts[0].Acknowledged?;
      AcknowledgementsAt(puts[1..], total - 1, k - 1);
    }
  }

  // ----- Counting: where an article stands in any listing -----------------

  function Below(positions: map<int, int>, p: int): set<int> {
    set id | id in positions && positions[id] < p
  }

  lemma {:induction false} IdsCount(order: seq<Article>)
    requires Distinct(order)
    ensures |Ids(order)| == |order|
  {
    if order != [] {
      var n := |order| - 1;
      var front := order[..n];
      IdsCount(front);
      assert order == front + [order[n]];
      assert Ids(order) == Ids(front) + {order[n].id};
      assert order[n].id !in Ids(front);
    }
  }

  /** An article no other one ties with stands at its rank in every listing. */
  lemma {:induction false} RankInListing(order: seq<Article>, positions: map<int, int>, k: nat)
    requires Listing(order, positions) && k < |order|
    requires forall id :: id in positions && id != order[k].id ==> positions[id] != order[k].position
    ensures k == |Below(positions, order[k].position)|
  {
    var front := order[..k];
    IdsCount(front);
    var p := order[k].position;
    forall id ensures id in Ids(front) <==> id in Below(positions, p) {
      var f := IndexOf(front, id);
      var i := IndexOf(order, id);
      if f != -1 {
        assert front[f] == order[f];
        assert order[f].id != order[k].id;
        assert order[f] in order;
      }
    }
    assert Ids(front) == Below(positions, p);
  }

  lemma {:induction false} IndexInDistinct(order: seq<Article>, k: nat)
    requires Distinct(order) && k < |order|
    ensures IndexOf(order, order[k].id) == k
  {
    var i := IndexOf(order, order[k].id);
    assert order[k] in order;
    assert order[k] in order[..k + 1];
  }

  /** Two listings of the same positions agree on an untied article's index, and on their length. */
  lemma {:induction false} SameIndex(a: seq<Article>, b: seq<Article>, positions: map<int, int>, k: nat)
    requires Listing(a, positions) && Listing(b, positions) && k < |a|
    requires forall id :: id in positions && id != a[k].id ==> positions[id] != a[k].position
    ensures |a| == |b|
    ensures IndexOf(b, a[k].id) == k
  {
    IdsCount(a);
    IdsCount(b);
    assert a[k] in a;
    assert a[k].id in Ids(b);
    var i := IndexOf(b, a[k].id);
    assert b[i].position == a[k].position;
    RankInListing(a, positions, k);
    RankInListing(b, positions, i);
  }

  // ----- The desired order ------------------------------------------------

  function Removed(order: seq<Article>, at: nat): seq<Article>
    requires at < |order|
  {
    order[..at] + order[at + 1..]
  }

  function Inserted(rest: seq<Article>, slot: nat, a: Article): seq<Article>
    requires slot <= |rest|
  {
    rest[..slot] + [a] + rest[slot..]
  }

  lemma {:induction false} IdsConcat(a: seq<Article>, b: seq<Article>)
    ensures Ids(a + b) == Ids(a) + Ids(b)
  {
  }

  lemma {:induction false} RemovedKeeps(order: seq<Article>, at: nat)
    requires Distinct(order) && at < |order|
    ensures Distinct(Removed(order, at))
    ensures Ids(Removed(order, at)) == Ids(order) - {order[at].id}
    ensures Sorted(order) ==> Sorted(Removed(order, at))
  {
    assert order == order[..at] + ([order[at]] + order[at + 1..]);
    IdsConcat(order[..at], [order[at]] + order[at + 1..]);
    IdsConcat([order[at]], order[at + 1..]);
    IdsConcat(order[..at], order[at + 1..]);
  }

  lemma {:induction false} InsertedDistinct(rest: seq<Article>, slot: nat, a: Article)
    requires Distinct(rest) && slot <= |rest| && a.id !in Ids(rest)
    ensures Distinct(Inserted(rest, slot, a))
  {
    var order := Inserted(rest, slot, a);
    forall i, j | 0 <= i < j < |order| ensures order[i].id != order[j].id {
      if i == slot {
        assert order[j] == rest[j - 1] && rest[j - 1] in rest;
      } else if j == slot {
        assert order[i] == rest[i] && rest[i] in rest;
      }
    }
  }

  lemma {:induction false} InsertedKeeps(rest: seq<Article>, slot: nat, a: Article)
    requires Distinct(rest) && slot <= |rest| && a.id !in Ids(rest)
    ensures var order := Inserted(rest, slot, a);
            Distinct(order) && Ids(order) == Ids(rest) + {a.id}
            && IndexOf(order, a.id) == slot && Removed(order, slot) == rest
  {
    var order := Inserted(rest, slot, a);
    InsertedDistinct(rest, slot, a);
    IndexInDistinct(order, slot);
    assert Removed(order, slot) == rest;
    RemovedKeeps(order, slot);
    assert order[slot] in order;
  }

  lemma {:induction false} WithoutAbsent(order: seq<Article>, id: int)
    requires id !in Ids(order)
    ensures Without(order, id) == order
  {
    if order != [] {
      assert order[0] in order;
      assert forall a :: a in order[1..] ==> a in order;
      WithoutAbsent(order[1..], id);
      assert order == [order[0]] + order[1..];
    }
  }

  lemma {:induction false} WithoutIsRemoved(order: seq<Article>, id: int)
    requires Distinct(order)
    ensures var at := IndexOf(order, id);
            Without(order, id) == if at == -1 then order else Removed(order, at)
  {
    var at := IndexOf(order, id);
    if at == -1 {
      WithoutAbsent(order, id);
    } else {
      WithoutAt(order, at);
    }
  }

  lemma {:induction false} WithoutAt(order: seq<Article>, at: nat)
    requires Distinct(order) && at < |order|
    ensures Without(order, order[at].id) == Removed(order, at)
  {
    hide Ids;
    var rest := order[1..];
    if at == 0 {
      FirstIsAlone(order);
      WithoutAbsent(rest, order[0].id);
      assert Removed(order, 0) == rest;
    } else {
      assert rest[at - 1] == order[at] && order[0].id != order[at].id;
      WithoutAt(rest, at - 1);
      assert Removed(order, at) == [order[0]] + Removed(rest, at - 1);
    }
  }

  lemma {:induction false} FirstIsAlone(order: seq<Article>)
    requires Distinct(order) && order != []
    ensures order[0].id !in Ids(order[1..])
  {
    forall a | a in order[1..] ensures a.id != order[0].id {
      var i :| 0 <= i < |order[1..]| && order[1..][i] == a;
      assert order[i + 1] == a;
    }
  }

  /**
   The desired order is the listing with the moved article taken out and put
   back at the requested slot; the others keep their order.
   */
  lemma {:induction false} DesiredShape(
    effective: seq<Article>, movedId: int, target: Target, reference: Option<int>, desired: seq<Article>)
    requires Distinct(effective)
    requires ArrangeDesiredOrder(effective, movedId, target, reference) == Ok(desired)
    ensures Distinct(desired) && Ids(desired) == Ids(effective) && |desired| == |effective|
    ensures var at := IndexOf(effective, movedId);
            var m := IndexOf(desired, movedId);
            && at != -1 && m != -1 && desired[m] == effective[at]
            && Removed(desired, m) == Removed(effective, at)
            && desired == Inserted(Removed(effective, at), m, effective[at])
            && m == Slot(Removed(effective, at), target, reference)
  {
    hide IndexOf, Without, Distinct, Ids, Sorted;
    var at := IndexOf(effective, movedId);
    var rest := Without(effective, movedId);
    WithoutIsRemoved(effective, movedId);
    RemovedKeeps(effective, at);
    InsertedKeeps(rest, Slot(rest, target, reference), effective[at]);
  }
}
