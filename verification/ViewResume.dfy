/**
 Reading a view (`src/tools/tickets.ts`): execute rows become tickets through one
 batched fetch that drops some, and a cut page is resumed by re-reading the rows
 behind the tickets it showed.
 */
module ViewResume {
  /** A cell of an execute row, of interest only when it holds a number. */
  datatype Cell = Number(value: int) | Other

  /** The places a row may carry its ticket's id in. */
  datatype Row = Row(ticketId: Cell, id: Cell, ticketIdColumn: Cell)

  /** What a row yields: its ticket's id, or nothing usable. */
  datatype RowId = Missing | Id(n: int)

  datatype Ticket = Ticket(id: int, fields: string)

  function ExtractRowTicketId(row: Row): RowId {
    match row
    case Row(Number(n), _, _) => Id(n)
    case Row(_, Number(n), _) => Id(n)
    case Row(_, _, Number(n)) => Id(n)
    case _ => Missing
  }

  /** A row is known by the first of its three places that holds a number, if any does. */
  lemma {:induction false} RowIdExactly(row: Row, n: int)
    ensures ExtractRowTicketId(row) == Id(n) <==>
            || row.ticketId == Number(n)
            || (row.ticketId == Other && row.id == Number(n))
            || (row.ticketId == row.id == Other && row.ticketIdColumn == Number(n))
  {
  }

  function RowIds(rows: seq<Row>): (ids: seq<RowId>)
    ensures |ids| == |rows|
  {
    seq(|rows|, i requires 0 <= i < |rows| => ExtractRowTicketId(rows[i]))
  }

  // ----- Hydration ----------------------------------------------------------------------

  /** The ids the rows carry, in row order. */
  function Known(rowIds: seq<RowId>): seq<int> {
    if rowIds == [] then []
    else (if rowIds[0].Id? then [rowIds[0].n] else []) + Known(rowIds[1..])
  }

  /** The batch by id, a later ticket winning. */
  function ById(batch: seq<Ticket>): map<int, Ticket> {
    if batch == [] then map[]
    else ById(batch[..|batch| - 1])[batch[|batch| - 1].id := batch[|batch| - 1]]
  }

  function Pick(ids: seq<int>, byId: map<int, Ticket>): seq<Ticket> {
    if ids == [] then []
    else (if ids[0] in byId then [byId[ids[0]]] else []) + Pick(ids[1..], byId)
  }

  /** `hydrateViewTickets`: the fetched batch put back in the order of the ids. */
  function HydrateViewTickets(ids: seq<int>, batch: seq<Ticket>): seq<Ticket> { Pick(ids, ById(batch)) }

  /** A batch that answers a request for `ids`: the tickets Zendesk has and shows, in any order. */
  ghost predicate Answers(batch: seq<Ticket>, ids: seq<int>, zendesk: map<int, Ticket>) {
    && (forall t :: t in batch ==> t.id in ids && t.id in zendesk && zendesk[t.id] == t)
    && (forall id :: id in ids && id in zendesk ==> zendesk[id] in batch)
  }

  /** Every ticket is stored under its own id. */
  ghost predicate Filed(zendesk: map<int, Ticket>) {
    forall id :: id in zendesk ==> zendesk[id].id == id
  }

  /** The tickets behind these rows, in row order: what hydration is for. */
  function TicketsBehind(rowIds: seq<RowId>, zendesk: map<int, Ticket>): seq<Ticket> {
    if rowIds == [] then []
    else
      (if rowIds[0].Id? && rowIds[0].n in zendesk then [zendesk[rowIds[0].n]] else [])
      + TicketsBehind(rowIds[1..], zendesk)
  }

  lemma {:induction false} ByIdHolds(batch: seq<Ticket>, ids: seq<int>, zendesk: map<int, Ticket>)
    requires forall t :: t in batch ==> t.id in zendesk && zendesk[t.id] == t
    ensures forall id :: id in ById(batch) ==> id in zendesk && ById(batch)[id] == zendesk[id]
    ensures forall t :: t in batch ==> t.id in ById(batch)
  {
    if batch != [] {
      var front, last := batch[..|batch| - 1], batch[|batch| - 1];
      assert last in batch;
      ByIdHolds(front, ids, zendesk);
      assert batch == front + [last];
    }
  }

  lemma {:induction false} PickIsBehind(rowIds: seq<RowId>, byId: map<int, Ticket>, zendesk: map<int, Ticket>)
    requires forall id :: id in Known(rowIds) ==> (id in byId <==> id in zendesk)
    requires forall id :: id in byId && id in zendesk ==> byId[id] == zendesk[id]
    ensures Pick(Known(rowIds), byId) == TicketsBehind(rowIds, zendesk)
  {
    if rowIds != [] {
      var rest := Known(rowIds[1..]);
      PickIsBehind(rowIds[1..], byId, zendesk);
      if rowIds[0].Id? {
        assert Known(rowIds) == [rowIds[0].n] + rest;
        assert Known(rowIds)[1..] == rest && Known(rowIds)[0] in Known(rowIds);
        assert rowIds[0].n in byId <==> rowIds[0].n in zendesk;
      } else {
        assert Known(rowIds) == rest;
      }
    }
  }

  lemma {:induction false} HydrationOfIds(rowIds: seq<RowId>, batch: seq<Ticket>, zendesk: map<int, Ticket>)
    requires Filed(zendesk) && Answers(batch, Known(rowIds), zendesk)
    ensures HydrateViewTickets(Known(rowIds), batch) == TicketsBehind(rowIds, zendesk)
  {
    hide Known;
    var ids := Known(rowIds);
    ByIdHolds(batch, ids, zendesk);
    forall id | id in ids ensures id in ById(batch) <==> id in zendesk {
      if id in zendesk { assert zendesk[id] in batch && zendesk[id].id == id; }
    }
    PickIsBehind(rowIds, ById(batch), zendesk);
  }

  /**
   Whatever order the batch comes in, hydration restores the view's: each row in turn
   gives the ticket its id names, if it has an id and Zendesk shows that ticket.
   */
  lemma {:induction false} HydrationKeepsViewOrder(rows: seq<Row>, batch: seq<Ticket>, zendesk: map<int, Ticket>)
    requires Filed(zendesk) && Answers(batch, Known(RowIds(rows)), zendesk)
    ensures HydrateViewTickets(Known(RowIds(rows)), batch) == RowTickets(rows, zendesk)
  {
    HydrationOfIds(RowIds(rows), batch, zendesk);
    BehindRows(rows, zendesk);
  }

  /** The tickets the rows stand for, one row after the other. */
  function RowTickets(rows: seq<Row>, zendesk: map<int, Ticket>): seq<Ticket> {
    if rows == [] then []
    else
      var id := ExtractRowTicketId(rows[0]);
      (if id.Id? && id.n in zendesk then [zendesk[id.n]] else []) + RowTickets(rows[1..], zendesk)
  }

  lemma {:induction false} BehindRows(rows: seq<Row>, zendesk: map<int, Ticket>)
    ensures TicketsBehind(RowIds(rows), zendesk) == RowTickets(rows, zendesk)
  {
    hide ExtractRowTicketId;
    if rows != [] {
      assert RowIds(rows)[1..] == RowIds(rows[1..]);
      BehindRows(rows[1..], zendesk);
    }
  }

  // ----- Resuming a cut page ---------------------------------------------------------------

  /** `Array.prototype.indexOf`: the first place `id` is at, or -1. */
  function IndexOf(rowIds: seq<RowId>, id: int): (i: int)
    ensures -1 <= i < |rowIds|
    ensures i >= 0 ==> rowIds[i] == Id(id) && Id(id) !in rowIds[..i]
    ensures i < 0 ==> Id(id) !in rowIds
  {
    if rowIds == [] then -1
    else if rowIds[0] == Id(id) then 0
    else
      var rest := IndexOf(rowIds[1..], id);
      assert rowIds == [rowIds[0]] + rowIds[1..];
      assert rest >= 0 ==> rowIds[..rest + 1] == [rowIds[0]] + rowIds[1..][..rest];
      if rest < 0 then -1 else rest + 1
  }

  /** The `page_size` a cut page advises: the rows up to the last ticket shown. */
  function PageSizeFor(rowIds: seq<RowId>, tickets: seq<Ticket>, shown: nat): int
    requires 1 <= shown <= |tickets|
  {
    IndexOf(rowIds, tickets[shown - 1].id) + 1
  }

  lemma {:induction false} BehindConcat(a: seq<RowId>, b: seq<RowId>, zendesk: map<int, Ticket>)
    ensures TicketsBehind(a + b, zendesk) == TicketsBehind(a, zendesk) + TicketsBehind(b, zendesk)
  {
    if a == [] {
      assert a + b == b;
    } else {
      assert (a + b)[1..] == a[1..] + b && (a + b)[0] == a[0];
      BehindConcat(a[1..], b, zendesk);
    }
  }

  lemma {:induction false} BehindHoldsRowIds(rowIds: seq<RowId>, zendesk: map<int, Ticket>, t: Ticket)
    requires Filed(zendesk)
    ensures t in TicketsBehind(rowIds, zendesk) ==> Id(t.id) in rowIds && t.id in zendesk && zendesk[t.id] == t
  {
    if rowIds != [] && t in TicketsBehind(rowIds, zendesk) {
      BehindHoldsRowIds(rowIds[1..], zendesk, t);
      if t !in TicketsBehind(rowIds[1..], zendesk) { assert rowIds[0] in rowIds && zendesk[rowIds[0].n] == t; }
    }
  }

  /** The first row carrying an id splits the tickets at that ticket: nothing before it, all up to it. */
  lemma {:induction false} SplitAtFirstRow(rowIds: seq<RowId>, zendesk: map<int, Ticket>, t: Ticket)
    requires Filed(zendesk) && t in TicketsBehind(rowIds, zendesk)
    ensures var m := IndexOf(rowIds, t.id);
            && m >= 0
            && t !in TicketsBehind(rowIds[..m], zendesk)
            && TicketsBehind(rowIds[..m + 1], zendesk) == TicketsBehind(rowIds[..m], zendesk) + [t]
            && TicketsBehind(rowIds, zendesk)
               == TicketsBehind(rowIds[..m + 1], zendesk) + TicketsBehind(rowIds[m + 1..], zendesk)
  {
    hide TicketsBehind;
    BehindHoldsRowIds(rowIds, zendesk, t);
    var m := IndexOf(rowIds, t.id);
    BehindHoldsRowIds(rowIds[..m], zendesk, t);
    assert rowIds[..m + 1] == rowIds[..m] + [rowIds[m]];
    BehindConcat(rowIds[..m], [rowIds[m]], zendesk);
    SingleBehind(rowIds[m], zendesk);
    assert rowIds == rowIds[..m + 1] + rowIds[m + 1..];
    BehindConcat(rowIds[..m + 1], rowIds[m + 1..], zendesk);
  }

  lemma {:induction false} SingleBehind(id: RowId, zendesk: map<int, Ticket>)
    requires id.Id? && id.n in zendesk
    ensures TicketsBehind([id], zendesk) == [zendesk[id.n]]
  {
    assert [id][1..] == [];
    assert TicketsBehind([id][1..], zendesk) == [];
  }

  /**
   The advised page size re-reads exactly what was shown, and its cursor resumes right
   after it, if and only if the last ticket shown was not already shown higher up.
   Missing ids and dropped rows do not matter.
   */
  lemma {:induction false} ResumeIsExact(rowIds: seq<RowId>, zendesk: map<int, Ticket>, shown: nat)
    requires Filed(zendesk)
    requires 1 <= shown <= |TicketsBehind(rowIds, zendesk)|
    ensures var tickets := TicketsBehind(rowIds, zendesk);
            var size := PageSizeFor(rowIds, tickets, shown);
            && 1 <= size <= |rowIds|
            && (tickets[shown - 1] !in tickets[..shown - 1] <==>
                  TicketsBehind(rowIds[..size], zendesk) == tickets[..shown]
                  && TicketsBehind(rowIds[size..], zendesk) == tickets[shown..])
  {
    hide TicketsBehind, IndexOf;
    var tickets := TicketsBehind(rowIds, zendesk);
    var t := tickets[shown - 1];
    SplitAtFirstRow(rowIds, zendesk, t);
    var size := PageSizeFor(rowIds, tickets, shown);
    var before := TicketsBehind(rowIds[..size - 1], zendesk);
    var read, rest := TicketsBehind(rowIds[..size], zendesk), TicketsBehind(rowIds[size..], zendesk);
    FirstOccurrence(before, t, rest, tickets, shown);
  }

  lemma {:induction false} FirstOccurrence(before: seq<Ticket>, t: Ticket, rest: seq<Ticket>, tickets: seq<Ticket>, shown: nat)
    requires tickets == before + [t] + rest && t !in before
    requires 1 <= shown <= |tickets| && tickets[shown - 1] == t
    ensures t !in tickets[..shown - 1] <==> before + [t] == tickets[..shown] && rest == tickets[shown..]
  {
    var j := |before|;
    assert tickets[j] == t && tickets[..j] == before;
    assert forall k :: 0 <= k < j ==> tickets[k] == before[k];
    if shown - 1 > j {
      assert tickets[..shown - 1][j] == t;
      assert |before + [t]| != |tickets[..shown]|;
    } else {
      assert tickets[..shown] == before + [t] && tickets[shown..] == rest;
    }
  }

  /**
   The whole resume, from rows to rows: the page hydrated in one batch, the advised
   number of its rows executed and hydrated again, then the rows the new cursor leads
   to. Whatever the batches' order, the second page is what was shown and the third all
   the rest, if and only if the last ticket shown was not already shown higher up.
   */
  lemma {:induction false} ViewResumesExactly(
    rows: seq<Row>, zendesk: map<int, Ticket>, batch: seq<Ticket>, shown: nat, again: seq<Ticket>, later: seq<Ticket>)
    requires Filed(zendesk) && Answers(batch, Known(RowIds(rows)), zendesk)
    requires 1 <= shown <= |HydrateViewTickets(Known(RowIds(rows)), batch)|
    requires var size := PageSizeFor(RowIds(rows), HydrateViewTickets(Known(RowIds(rows)), batch), shown);
             && Answers(again, Known(RowIds(rows[..size])), zendesk)
             && Answers(later, Known(RowIds(rows[size..])), zendesk)
    ensures var tickets := HydrateViewTickets(Known(RowIds(rows)), batch);
            var size := PageSizeFor(RowIds(rows), tickets, shown);
            && 1 <= size <= |rows|
            && (tickets[shown - 1] !in tickets[..shown - 1] <==>
                  HydrateViewTickets(Known(RowIds(rows[..size])), again) == tickets[..shown]
                  && HydrateViewTickets(Known(RowIds(rows[size..])), later) == tickets[shown..])
  {
    hide HydrateViewTickets, Known, TicketsBehind, Answers, ExtractRowTicketId;
    HydrationOfIds(RowIds(rows), batch, zendesk);
    var size := PageSizeFor(RowIds(rows), TicketsBehind(RowIds(rows), zendesk), shown);
    assert RowIds(rows[..size]) == RowIds(rows)[..size] && RowIds(rows[size..]) == RowIds(rows)[size..];
    HydrationOfIds(RowIds(rows[..size]), again, zendesk);
    HydrationOfIds(RowIds(rows[size..]), later, zendesk);
    ResumeIsExact(RowIds(rows), zendesk, shown);
  }

  ghost predicate NoRepeats(tickets: seq<Ticket>) {
    forall i, j :: 0 <= i < j < |tickets| ==> tickets[i] != tickets[j]
  }

  /** Rows with distinct ids give distinct tickets, so on them the resume is always exact. */
  lemma {:induction false} DistinctRowsResume(rowIds: seq<RowId>, zendesk: map<int, Ticket>, shown: nat)
    requires Filed(zendesk)
    requires forall i, j :: 0 <= i < j < |rowIds| && rowIds[i].Id? ==> rowIds[i] != rowIds[j]
    requires 1 <= shown <= |TicketsBehind(rowIds, zendesk)|
    ensures var tickets := TicketsBehind(rowIds, zendesk);
            var size := PageSizeFor(rowIds, tickets, shown);
            && 1 <= size <= |rowIds|
            && TicketsBehind(rowIds[..size], zendesk) == tickets[..shown]
            && TicketsBehind(rowIds[size..], zendesk) == tickets[shown..]
  {
    hide TicketsBehind, PageSizeFor;
    DistinctTickets(rowIds, zendesk);
    var tickets := TicketsBehind(rowIds, zendesk);
    forall k | 0 <= k < shown - 1 ensures tickets[k] != tickets[shown - 1] {}
    ResumeIsExact(rowIds, zendesk, shown);
  }

  lemma {:induction false} DistinctTickets(rowIds: seq<RowId>, zendesk: map<int, Ticket>)
    requires Filed(zendesk)
    requires forall i, j :: 0 <= i < j < |rowIds| && rowIds[i].Id? ==> rowIds[i] != rowIds[j]
    ensures NoRepeats(TicketsBehind(rowIds, zendesk))
  {
    if rowIds != [] {
      var rest := rowIds[1..];
      DistinctTickets(rest, zendesk);
      var tickets := TicketsBehind(rest, zendesk);
      if rowIds[0].Id? && rowIds[0].n in zendesk {
        var t := zendesk[rowIds[0].n];
        assert forall j :: 0 <= j < |rest| ==> rest[j] == rowIds[j + 1];
        BehindHoldsRowIds(rest, zendesk, t);
        assert rowIds[0] == Id(t.id) && Id(t.id) !in rest;
        Prepended(t, tickets);
        assert TicketsBehind(rowIds, zendesk) == [t] + tickets;
      } else {
        assert TicketsBehind(rowIds, zendesk) == tickets;
      }
    }
  }

  lemma {:induction false} Prepended(t: Ticket, tickets: seq<Ticket>)
    requires t !in tickets
    requires NoRepeats(tickets)
    ensures NoRepeats([t] + tickets)
  {
    var all := [t] + tickets;
    forall i, j | 0 <= i < j < |all| ensures all[i] != all[j] {
      assert all[j] == tickets[j - 1];
      if i > 0 { assert all[i] == tickets[i - 1]; }
    }
  }
}
