/**
 * The request inbox (src/pages/Admin/RequestManager.tsx): `messages` rows
 * listed newest first as requests, the serve action and deletion.
 */
module RequestManagerPage {
  import opened Common
  import opened Seqs
  import opened NotificationService

  /** A request as the inbox shows it. */
  datatype Request = Request(id: string, userName: string, songTitle: string, artistName: string,
                             createdAt: int, status: string)

  /** The row-to-request mapping: name and status defaults, the message as the title, no artist. */
  function ToRequest(m: MessageRow): (r: Request)
    ensures r.id == m.id && r.createdAt == m.createdAt && r.songTitle == m.message && r.artistName == ""
    ensures r.userName == (if Truthy(m.userName) then m.userName.value else AnonymousName)
    ensures r.status == (if Truthy(m.status) then m.status.value else "pending")
  {
    Request(m.id, OrElse(m.userName, AnonymousName), m.message, "", m.createdAt, OrElse(m.status, "pending"))
  }

  function NewestFirst(m: MessageRow): int
  {
    -m.createdAt
  }

  /** `update({status: 'played'}).eq('id', id)`. */
  function MarkPlayedRows(rows: seq<MessageRow>, id: string): (r: seq<MessageRow>)
    ensures |r| == |rows|
    ensures forall i :: 0 <= i < |rows| ==> r[i] == (if rows[i].id == id then rows[i].(status := Some("played")) else rows[i])
  {
    if rows == [] then []
    else [if rows[0].id == id then rows[0].(status := Some("played")) else rows[0]] + MarkPlayedRows(rows[1..], id)
  }

  function PendingWithId(id: string): MessageRow -> bool
  {
    (row: MessageRow) => row.id == id && IsPending(row)
  }

  /** Serving a request removes exactly the pending rows with its id from the pending count. */
  lemma {:induction false} MarkPlayedLowersPending(rows: seq<MessageRow>, id: string)
    ensures PendingCount(MarkPlayedRows(rows, id), false) + Count(rows, PendingWithId(id)) == PendingCount(rows, false)
  {
    if rows != [] {
      MarkPlayedLowersPending(rows[1..], id);
      assert MarkPlayedRows(rows, id)[1..] == MarkPlayedRows(rows[1..], id);
    }
  }

  /** The serve button is offered for every request not yet played. */
  predicate ShowsServeButton(r: Request): (b: bool)
    ensures r.status == "pending" ==> b
    ensures r.status == "played" ==> !b
  {
    r.status != "played"
  }

  /** `fetchRequests()`: every message, newest first, mapped; none when the query returns no data. */
  function FetchRequests(rows: seq<MessageRow>, fails: bool): (r: seq<Request>)
    ensures fails ==> r == []
    ensures !fails ==> |r| == |rows|
    ensures !fails ==> forall i, j :: 0 <= i < j < |r| ==> r[i].createdAt >= r[j].createdAt
  {
    if fails then []
    else
      var sorted := SortBy(rows, NewestFirst);
      var r := seq(|sorted|, i requires 0 <= i < |sorted| => ToRequest(sorted[i]));
      assert forall i, j :: 0 <= i < j < |r| ==> NewestFirst(sorted[i]) <= NewestFirst(sorted[j]);
      r
  }

  /** The `i`-th listed request maps the `i`-th row in newest-first order. */
  lemma FetchRequestsAt(rows: seq<MessageRow>, i: int)
    requires 0 <= i < |rows|
    ensures |SortBy(rows, NewestFirst)| == |rows|
    ensures FetchRequests(rows, false)[i] == ToRequest(SortBy(rows, NewestFirst)[i])
  {
  }

  /** Every listed request is the mapping of some message row. */
  lemma RequestsComeFromRows(rows: seq<MessageRow>, i: int)
    requires 0 <= i < |FetchRequests(rows, false)|
    ensures exists m :: m in rows && FetchRequests(rows, false)[i] == ToRequest(m)
  {
    var sorted := SortBy(rows, NewestFirst);
    FetchRequestsAt(rows, i);
    assert sorted[i] in multiset(rows);
  }

  /** Once a request is served, the refetched inbox offers no serve button for it. */
  lemma ServedRequestHidden(rows: seq<MessageRow>, id: string, fetchFails: bool, i: int)
    requires 0 <= i < |FetchRequests(MarkPlayedRows(rows, id), fetchFails)|
    requires FetchRequests(MarkPlayedRows(rows, id), fetchFails)[i].id == id
    ensures !ShowsServeButton(FetchRequests(MarkPlayedRows(rows, id), fetchFails)[i])
  {
    var after := MarkPlayedRows(rows, id);
    assert !fetchFails;
    var sorted := SortBy(after, NewestFirst);
    FetchRequestsAt(after, i);
    var m := sorted[i];
    assert m in multiset(after);
    MarkedRowIsPlayed(rows, id, m);
  }

  /** After marking, every row carrying the id has status `played`. */
  lemma MarkedRowIsPlayed(rows: seq<MessageRow>, id: string, m: MessageRow)
    requires m in MarkPlayedRows(rows, id) && m.id == id
    ensures m.status == Some("played")
  {
    var after := MarkPlayedRows(rows, id);
    var k :| 0 <= k < |after| && after[k] == m;
  }

  /** Every message appears in the inbox. */
  lemma EveryMessageListed(rows: seq<MessageRow>, m: MessageRow)
    requires m in rows
    ensures ToRequest(m) in FetchRequests(rows, false)
  {
    var sorted := SortBy(rows, NewestFirst);
    assert m in multiset(sorted);
    var i :| 0 <= i < |sorted| && sorted[i] == m;
    assert FetchRequests(rows, false)[i] == ToRequest(m);
  }

  /** A row the pending count includes is shown with the serve button. */
  lemma CountedPendingIsServable(m: MessageRow)
    requires IsPending(m)
    ensures ShowsServeButton(ToRequest(m))
  {
  }

  /**
   * The converse fails: a row whose status is the empty string is shown as
   * pending, with the serve button, yet the pending count leaves it out.
   */
  lemma EmptyStatusShownButNotCounted(m: MessageRow)
    requires m.status == Some("")
    ensures ToRequest(m).status == "pending" && ShowsServeButton(ToRequest(m)) && !IsPending(m)
  {
  }

  /** The `messages` table. */
  class MessageTable {
    var rows: seq<MessageRow>

    constructor (rows0: seq<MessageRow>)
      ensures rows == rows0
    {
      rows := rows0;
    }
  }

  class RequestManager {
    const table: MessageTable
    var requests: seq<Request>

    constructor (table: MessageTable)
      ensures this.table == table && requests == []
    {
      this.table := table;
      requests := [];
    }

    /** `fetchRequests()`; also what each realtime INSERT on `messages` triggers. */
    method Fetch(fails: bool)
      modifies this`requests
      ensures requests == FetchRequests(table.rows, fails)
    {
      requests := FetchRequests(table.rows, fails);
    }

    /**
     * `markPlayed(id)`: sets `status` to `played` on the row with that id (an
     * update error, `fails`, is ignored) and refetches either way.
     */
    method MarkPlayed(id: string, fails: bool, fetchFails: bool)
      modifies this`requests, table
      ensures table.rows == (if fails then old(table.rows) else MarkPlayedRows(old(table.rows), id))
      ensures requests == FetchRequests(table.rows, fetchFails)
    {
      if !fails {
        table.rows := MarkPlayedRows(table.rows, id);
      }
      Fetch(fetchFails);
    }

    /** `deleteRequest(id)`: only after confirmation; the delete's error is ignored; then a refetch. */
    method DeleteRequest(id: string, confirmed: bool, fails: bool, fetchFails: bool)
      modifies this`requests, table
      ensures !confirmed ==> table.rows == old(table.rows) && requests == old(requests)
      ensures confirmed ==> requests == FetchRequests(table.rows, fetchFails)
      ensures confirmed ==> table.rows == (if fails then old(table.rows) else Filter(old(table.rows), IdIsNot(id)))
    {
      if confirmed {
        if !fails {
          table.rows := Filter(table.rows, IdIsNot(id));
        }
        Fetch(fetchFails);
      }
    }
  }

  function IdIsNot(id: string): MessageRow -> bool
  {
    (m: MessageRow) => m.id != id
  }
}
