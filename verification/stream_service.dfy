/**
 * Radio streams (src/services/streamService.ts): the `radio_streams` table,
 * its two ordered queries and the four writes.
 */
module StreamService {
  import opened Common
  import opened Seqs

  /** A row of `radio_streams`; `streamLabel` is its `label` column. */
  datatype RadioStream = RadioStream(
    id: string, streamLabel: string, streamUrl: string, isActive: bool,
    displayOrder: int, createdAt: string, updatedAt: string)

  /** `Partial<RadioStream>` as given to `updateStream`: only present fields are written. */
  datatype StreamPatch = StreamPatch(
    streamLabel: Option<string>, streamUrl: Option<string>,
    isActive: Option<bool>, displayOrder: Option<int>)

  function DisplayOrder(s: RadioStream): int
  {
    s.displayOrder
  }

  predicate IsActive(s: RadioStream)
  {
    s.isActive
  }

  /** `getAllStreams()`: every row, by ascending `display_order`; none when the query fails. */
  function GetAllStreams(table: seq<RadioStream>, fails: bool): (r: seq<RadioStream>)
    ensures fails ==> r == []
    ensures !fails ==> SortedBy(r, DisplayOrder) && multiset(r) == multiset(table)
  {
    if fails then [] else SortBy(table, DisplayOrder)
  }

  /** `getActiveStreams()`: the active rows only, by ascending `display_order`; none on failure. */
  function GetActiveStreams(table: seq<RadioStream>, fails: bool): (r: seq<RadioStream>)
    ensures fails ==> r == []
    ensures !fails ==> SortedBy(r, DisplayOrder) && multiset(r) == multiset(Filter(table, IsActive))
  {
    if fails then [] else SortBy(Filter(table, IsActive), DisplayOrder)
  }

  /** The active list holds exactly the active rows of the table. */
  lemma ActiveStreamsAreActiveRows(table: seq<RadioStream>, s: RadioStream)
    ensures s in GetActiveStreams(table, false) <==> s in table && s.isActive
  {
    var f := Filter(table, IsActive);
    assert s in GetActiveStreams(table, false) <==> s in multiset(f);
    assert s in f <==> s in table && IsActive(s);
  }

  /** The head of the active list has the lowest display order of all active rows. */
  lemma FirstActiveHasLowestOrder(table: seq<RadioStream>, s: RadioStream)
    requires s in table && s.isActive
    ensures var r := GetActiveStreams(table, false);
            r != [] && r[0].isActive && r[0].displayOrder <= s.displayOrder
  {
    ActiveStreamsAreActiveRows(table, s);
    var r := GetActiveStreams(table, false);
    HeadIsMinimum(r, DisplayOrder, s);
    ActiveStreamsAreActiveRows(table, r[0]);
  }

  /** The fields a patch sets, plus the fresh `updated_at`; all other fields are kept. */
  function ApplyPatch(s: RadioStream, patch: StreamPatch, now: string): (t: RadioStream)
    ensures t.id == s.id && t.createdAt == s.createdAt && t.updatedAt == now
    ensures t.streamLabel == patch.streamLabel.GetOr(s.streamLabel)
    ensures t.streamUrl == patch.streamUrl.GetOr(s.streamUrl)
    ensures t.isActive == patch.isActive.GetOr(s.isActive)
    ensures t.displayOrder == patch.displayOrder.GetOr(s.displayOrder)
  {
    s.(streamLabel := patch.streamLabel.GetOr(s.streamLabel),
       streamUrl := patch.streamUrl.GetOr(s.streamUrl),
       isActive := patch.isActive.GetOr(s.isActive),
       displayOrder := patch.displayOrder.GetOr(s.displayOrder),
       updatedAt := now)
  }

  /** `update(...).eq('id', id)`: the patch is applied to the rows with that id and no other. */
  function UpdateWhere(rows: seq<RadioStream>, id: string, patch: StreamPatch, now: string): (r: seq<RadioStream>)
    ensures |r| == |rows|
    ensures forall i :: 0 <= i < |rows| && rows[i].id != id ==> r[i] == rows[i]
    ensures forall i :: 0 <= i < |rows| && rows[i].id == id ==> r[i] == ApplyPatch(rows[i], patch, now)
  {
    if rows == [] then []
    else [if rows[0].id == id then ApplyPatch(rows[0], patch, now) else rows[0]]
         + UpdateWhere(rows[1..], id, patch, now)
  }

  /** The patch `toggleStreamActive` sends: `is_active` only. */
  function TogglePatch(isActive: bool): StreamPatch
  {
    StreamPatch(None, None, Some(isActive), None)
  }

  ghost predicate UniqueIds(rows: seq<RadioStream>)
  {
    forall i, j :: 0 <= i < j < |rows| ==> rows[i].id != rows[j].id
  }

  function IdIsNot(id: string): RadioStream -> bool
  {
    (s: RadioStream) => s.id != id
  }

  /** The backend's `radio_streams` table. */
  class StreamTable {
    var rows: seq<RadioStream>

    ghost predicate Valid()
      reads this
    {
      UniqueIds(rows)
    }

    constructor (rows0: seq<RadioStream>)
      requires UniqueIds(rows0)
      ensures Valid() && rows == rows0
    {
      rows := rows0;
    }

    /**
     * `createStream(stream)`: inserts one row; `newId` and `now` stand for the
     * table's generated id and timestamps. A backend error becomes a thrown
     * `Error` with a prefixed message.
     */
    method CreateStream(streamLabel: string, streamUrl: string, isActive: bool, displayOrder: int,
                        newId: string, now: string, err: Option<string>) returns (outcome: Outcome)
      requires Valid() && forall s :: s in rows ==> s.id != newId
      modifies this
      ensures Valid()
      ensures err.None? ==> outcome == Ok && rows == old(rows) + [RadioStream(newId, streamLabel, streamUrl, isActive, displayOrder, now, now)]
      ensures err.Some? ==> outcome == Fail("Erro ao criar stream: " + err.value) && rows == old(rows)
    {
      if err.Some? {
        return Fail("Erro ao criar stream: " + err.value);
      }
      rows := rows + [RadioStream(newId, streamLabel, streamUrl, isActive, displayOrder, now, now)];
      outcome := Ok;
    }

    /** `updateStream(id, updates)`: writes the given fields plus a fresh `updated_at`. */
    method UpdateStream(id: string, patch: StreamPatch, now: string, err: Option<string>) returns (outcome: Outcome)
      requires Valid()
      modifies this
      ensures Valid()
      ensures err.None? ==> outcome == Ok && rows == UpdateWhere(old(rows), id, patch, now)
      ensures err.Some? ==> outcome == Fail("Erro ao atualizar stream: " + err.value) && rows == old(rows)
    {
      if err.Some? {
        return Fail("Erro ao atualizar stream: " + err.value);
      }
      rows := UpdateWhere(rows, id, patch, now);
      outcome := Ok;
    }

    /** `deleteStream(id)`: removes the row with that id. */
    method DeleteStream(id: string, err: Option<string>) returns (outcome: Outcome)
      requires Valid()
      modifies this
      ensures Valid()
      ensures err.None? ==> outcome == Ok && rows == Filter(old(rows), IdIsNot(id))
      ensures err.Some? ==> outcome == Fail("Erro ao deletar stream: " + err.value) && rows == old(rows)
    {
      if err.Some? {
        return Fail("Erro ao deletar stream: " + err.value);
      }
      FilterKeepsUniqueIds(rows, IdIsNot(id));
      rows := Filter(rows, IdIsNot(id));
      outcome := Ok;
    }

    /** `toggleStreamActive(id, isActive)`: an update of `is_active` alone. */
    method ToggleStreamActive(id: string, isActive: bool, now: string, err: Option<string>) returns (outcome: Outcome)
      requires Valid()
      modifies this
      ensures Valid()
      ensures err.None? ==> outcome == Ok && rows == UpdateWhere(old(rows), id, TogglePatch(isActive), now)
      ensures err.Some? ==> outcome == Fail("Erro ao atualizar stream: " + err.value) && rows == old(rows)
    {
      outcome := UpdateStream(id, TogglePatch(isActive), now, err);
    }
  }

  lemma TailUniqueIds(rows: seq<RadioStream>)
    requires rows != [] && UniqueIds(rows)
    ensures UniqueIds(rows[1..])
    ensures forall x :: x in rows[1..] ==> x.id != rows[0].id
  {
    forall i, j | 0 <= i < j < |rows[1..]| ensures rows[1..][i].id != rows[1..][j].id {
      assert rows[1..][i] == rows[i + 1] && rows[1..][j] == rows[j + 1];
    }
  }

  lemma ConsUniqueIds(x: RadioStream, t: seq<RadioStream>)
    requires UniqueIds(t) && forall y :: y in t ==> y.id != x.id
    ensures UniqueIds([x] + t)
  {
    var r := [x] + t;
    forall i, j | 0 <= i < j < |r| ensures r[i].id != r[j].id {
      assert r[j] == t[j - 1];
      if i > 0 {
        assert r[i] == t[i - 1];
      }
    }
  }

  lemma {:induction false} FilterKeepsUniqueIds(rows: seq<RadioStream>, p: RadioStream -> bool)
    requires UniqueIds(rows)
    ensures UniqueIds(Filter(rows, p))
  {
    if rows != [] {
      TailUniqueIds(rows);
      FilterKeepsUniqueIds(rows[1..], p);
      var t := Filter(rows[1..], p);
      assert Filter(rows, p) == (if p(rows[0]) then [rows[0]] else []) + t;
      if p(rows[0]) {
        ConsUniqueIds(rows[0], t);
      } else {
        assert Filter(rows, p) == t;
      }
    }
  }
}
