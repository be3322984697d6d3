/**
 * The stream administration page (src/pages/Admin/StreamManager.tsx): the
 * listing, the edit form's save with its required-field check, and deletion.
 */
module StreamManagerPage {
  import opened Common
  import opened StreamService

  /** The form state `Partial<RadioStream>`: every field may be missing. */
  datatype StreamDraft = StreamDraft(
    id: Option<string>, streamLabel: Option<string>, streamUrl: Option<string>,
    isActive: Option<bool>, displayOrder: Option<int>)

  /** What `handleSave` ends with: the alert it raised, or a completed save. */
  datatype SaveResult = Alerted(message: string) | Saved

  const RequiredFieldsMessage: string := "Preencha todos os campos obrigatórios"

  /** The blank form opened by "Nova Stream". */
  function NewDraft(): (d: StreamDraft)
    ensures d.id.None? && d.isActive == Some(true) && d.displayOrder == Some(0)
    ensures !IsComplete(d)
  {
    StreamDraft(None, Some(""), Some(""), Some(true), Some(0))
  }

  /** The form for an existing row: every field of the row. */
  function EditDraft(s: RadioStream): (d: StreamDraft)
    ensures Truthy(d.id) <==> s.id != ""
    ensures IsComplete(d) <==> s.streamLabel != "" && s.streamUrl != ""
  {
    StreamDraft(Some(s.id), Some(s.streamLabel), Some(s.streamUrl), Some(s.isActive), Some(s.displayOrder))
  }

  /** The check before saving: a label and a stream URL are both present and non-empty. */
  predicate IsComplete(d: StreamDraft)
  {
    Truthy(d.streamLabel) && Truthy(d.streamUrl)
  }

  /** The fields an update of an existing row writes: those present in the form. */
  function DraftPatch(d: StreamDraft): (p: StreamPatch)
    ensures p.streamLabel == d.streamLabel && p.streamUrl == d.streamUrl
    ensures p.isActive == d.isActive && p.displayOrder == d.displayOrder
  {
    StreamPatch(d.streamLabel, d.streamUrl, d.isActive, d.displayOrder)
  }

  class StreamManager {
    const table: StreamTable
    var streams: seq<RadioStream>
    var editing: Option<StreamDraft>

    ghost predicate Valid()
      reads this, table
    {
      table.Valid()
    }

    constructor (table: StreamTable)
      ensures this.table == table && streams == [] && editing == None
    {
      this.table := table;
      streams := [];
      editing := None;
    }

    /** `loadStreams()`: the listing shows every row in display order. */
    method LoadStreams(fails: bool)
      modifies this`streams
      ensures streams == GetAllStreams(table.rows, fails)
    {
      streams := GetAllStreams(table.rows, fails);
    }

    /** "Nova Stream": the form opens blank, with nothing else touched. */
    method OpenNew()
      modifies this`editing
      ensures editing == Some(NewDraft()) && !IsComplete(editing.value)
    {
      editing := Some(NewDraft());
    }

    /** "Editar" on a listed stream: the form opens holding that row. */
    method OpenEdit(s: RadioStream)
      modifies this`editing
      ensures editing == Some(EditDraft(s))
      ensures Truthy(editing.value.id) <==> s.id != ""
    {
      editing := Some(EditDraft(s));
    }

    /** "Cancelar": the form closes without a backend call. */
    method Cancel()
      modifies this`editing
      ensures editing == None
    {
      editing := None;
    }

    /**
     * `handleSave`: an incomplete form is refused with an alert; a form with an
     * id updates that row, one without creates a row (active and at order 0
     * unless set). On success the form closes and the listing reloads; on a
     * backend error the error's message is alerted and the form stays open.
     */
    method HandleSave(newId: string, now: string, err: Option<string>, listFails: bool) returns (result: SaveResult)
      requires Valid() && forall s :: s in table.rows ==> s.id != newId
      modifies this, table
      ensures Valid()
      ensures (old(editing).None? || !IsComplete(old(editing).value)) ==>
                result == Alerted(RequiredFieldsMessage) && table.rows == old(table.rows)
                && editing == old(editing) && streams == old(streams)
      ensures old(editing).Some? && IsComplete(old(editing).value) ==>
                var d := old(editing).value;
                (err.None? ==> result == Saved && editing == None && streams == GetAllStreams(table.rows, listFails))
                && (err.Some? ==> table.rows == old(table.rows) && editing == old(editing) && streams == old(streams))
                && (err.Some? && Truthy(d.id) ==> result == Alerted("Erro ao atualizar stream: " + err.value))
                && (err.Some? && !Truthy(d.id) ==> result == Alerted("Erro ao criar stream: " + err.value))
                && (err.None? && Truthy(d.id) ==> table.rows == UpdateWhere(old(table.rows), d.id.value, DraftPatch(d), now))
                && (err.None? && !Truthy(d.id) ==>
                      table.rows == old(table.rows) + [RadioStream(newId, d.streamLabel.value, d.streamUrl.value,
                                                                   d.isActive.GetOr(true), d.displayOrder.GetOr(0), now, now)])
    {
      if editing.None? || !IsComplete(editing.value) {
        return Alerted(RequiredFieldsMessage);
      }
      var d := editing.value;
      var outcome;
      if Truthy(d.id) {
        outcome := table.UpdateStream(d.id.value, DraftPatch(d), now, err);
      } else {
        outcome := table.CreateStream(d.streamLabel.value, d.streamUrl.value, d.isActive.GetOr(true),
                                      d.displayOrder.GetOr(0), newId, now, err);
      }
      if outcome.Fail? {
        return Alerted(outcome.message);
      }
      editing := None;
      LoadStreams(listFails);
      result := Saved;
    }

    /** `handleDelete(id)`: only after the confirmation is accepted; the listing reloads on success. */
    method HandleDelete(id: string, confirmed: bool, err: Option<string>, listFails: bool) returns (alert: Option<string>)
      requires Valid()
      modifies this, table
      ensures Valid() && editing == old(editing)
      ensures !confirmed ==> alert == None && table.rows == old(table.rows) && streams == old(streams)
      ensures confirmed && err.None? ==>
                alert == None && table.rows == Seqs.Filter(old(table.rows), IdIsNot(id))
                && streams == GetAllStreams(table.rows, listFails)
      ensures confirmed && err.Some? ==>
                alert == Some("Erro ao deletar stream: " + err.value)
                && table.rows == old(table.rows) && streams == old(streams)
    {
      alert := None;
      if confirmed {
        var outcome := table.DeleteStream(id, err);
        if outcome.Fail? {
          return Some(outcome.message);
        }
        LoadStreams(listFails);
      }
    }
  }

  /** A stream created through the form shows up in the reloaded listing. */
  lemma CreatedStreamIsListed(rows: seq<RadioStream>, s: RadioStream)
    ensures s in GetAllStreams(rows + [s], false)
  {
    assert s in multiset(rows + [s]);
  }

  /** A deleted stream is gone from the reloaded listing, and every other row remains. */
  lemma DeletedStreamIsUnlisted(rows: seq<RadioStream>, id: string, s: RadioStream)
    requires s in rows
    ensures var listed := GetAllStreams(Seqs.Filter(rows, IdIsNot(id)), false);
            s in listed <==> s.id != id
  {
    var f := Seqs.Filter(rows, IdIsNot(id));
    assert s in f <==> IdIsNot(id)(s);
    assert s in GetAllStreams(f, false) <==> s in multiset(f);
  }
}
