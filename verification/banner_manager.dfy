/**
 * The banner administration page (src/pages/Admin/BannerManager.tsx): the
 * position filter of the listing, the checks on a chosen image file, the edit
 * form's save and deletion.
 */
module BannerManagerPage {
  import opened Common
  import opened BannerService

  /** The chosen file as the browser describes it. */
  datatype FileInfo = FileInfo(name: string, mimeType: string, size: nat)

  /** The verdict of the checks in `handleFileChange`. */
  datatype FileCheck = NoFile | WrongType | TooLarge | Acceptable

  /** The form state `Partial<Banner>`. */
  datatype BannerDraft = BannerDraft(
    id: Option<string>, name: Option<string>, imageUrl: Option<string>, linkUrl: Option<string>,
    position: Option<string>, width: Option<int>, height: Option<int>, active: Option<bool>)

  datatype SaveResult = Alerted(message: string) | Saved

  const ImageTypes: seq<string> := ["image/jpeg", "image/png", "image/gif", "image/webp"]
  const MaxImageBytes: nat := 2 * 1024 * 1024
  const WrongTypeMessage: string := "Tipo de arquivo inválido. Use JPG, PNG, GIF ou WebP."
  const TooLargeMessage: string := "Arquivo muito grande. Máximo: 2MB"
  const RequiredFieldsMessage: string := "Preencha todos os campos obrigatórios"

  /** The type check comes first, then the size limit of 2 MiB inclusive. */
  function CheckFile(file: Option<FileInfo>): (c: FileCheck)
    ensures c == NoFile <==> file.None?
    ensures c == WrongType <==> file.Some? && file.value.mimeType !in ImageTypes
    ensures c == TooLarge <==> file.Some? && file.value.mimeType in ImageTypes && file.value.size > MaxImageBytes
    ensures c == Acceptable <==> file.Some? && file.value.mimeType in ImageTypes && file.value.size <= 2097152
  {
    match file
    case None => NoFile
    case Some(f) =>
      if f.mimeType !in ImageTypes then WrongType
      else if f.size > MaxImageBytes then TooLarge
      else Acceptable
  }

  /** The alert each verdict raises, if any. */
  function CheckAlert(c: FileCheck): (alert: Option<string>)
    ensures alert.None? <==> c == NoFile || c == Acceptable
  {
    match c
    case WrongType => Some(WrongTypeMessage)
    case TooLarge => Some(TooLargeMessage)
    case _ => None
  }

  /** `filterPosition === 'all' ? undefined : filterPosition`. */
  function PositionFilter(filter: string): (position: Option<string>)
    ensures filter == "all" <==> position.None?
    ensures position.Some? ==> position.value == filter
  {
    if filter == "all" then None else Some(filter)
  }

  /** The blank form opened by "Novo Banner". */
  function NewDraft(): (d: BannerDraft)
    ensures d.id.None? && d.imageUrl.None? && d.position == Some("sidebar") && d.active == Some(true)
    ensures !IsComplete(d)
  {
    BannerDraft(None, Some(""), None, None, Some("sidebar"), None, None, Some(true))
  }

  /** The form for a listed banner: every field of the row. */
  function EditDraft(b: Banner): (d: BannerDraft)
    ensures Truthy(d.id) <==> b.id != ""
    ensures IsComplete(d) <==> b.name != "" && b.imageUrl != "" && b.position != ""
    ensures DraftPatch(d) == BannerPatch(Some(b.name), Some(b.imageUrl), b.linkUrl, Some(b.position), Some(b.active))
  {
    BannerDraft(Some(b.id), Some(b.name), Some(b.imageUrl), b.linkUrl, Some(b.position), b.width, b.height, Some(b.active))
  }

  /** The check before saving: a name, an image URL and a position, all non-empty. */
  predicate IsComplete(d: BannerDraft)
  {
    Truthy(d.name) && Truthy(d.imageUrl) && Truthy(d.position)
  }

  function DraftPatch(d: BannerDraft): (p: BannerPatch)
    ensures p.name == d.name && p.imageUrl == d.imageUrl && p.linkUrl == d.linkUrl
    ensures p.position == d.position && p.active == d.active
  {
    BannerPatch(d.name, d.imageUrl, d.linkUrl, d.position, d.active)
  }

  class BannerManager {
    const backend: BannerBackend
    var banners: seq<Banner>
    var editing: Option<BannerDraft>
    var filterPosition: string

    constructor (backend: BannerBackend)
      ensures this.backend == backend && banners == [] && editing == None && filterPosition == "all"
    {
      this.backend := backend;
      banners := [];
      editing := None;
      filterPosition := "all";
    }

    /** "Novo Banner": the form opens blank, placed in `sidebar` and active. */
    method OpenNew()
      modifies this`editing
      ensures editing == Some(NewDraft()) && !IsComplete(editing.value)
    {
      editing := Some(NewDraft());
    }

    /** The edit button of a listed banner: the form opens holding that row. */
    method OpenEdit(b: Banner)
      modifies this`editing
      ensures editing == Some(EditDraft(b))
      ensures Truthy(editing.value.id) <==> b.id != ""
    {
      editing := Some(EditDraft(b));
    }

    /** "Cancelar": the form closes without a backend call. */
    method Cancel()
      modifies this`editing
      ensures editing == None
    {
      editing := None;
    }

    /** `loadBanners()`: every banner, or those of the chosen position, active or not. */
    method LoadBanners(fails: bool)
      modifies this`banners
      ensures banners == GetBanners(backend.rows, PositionFilter(filterPosition), false, fails)
    {
      banners := GetBanners(backend.rows, PositionFilter(filterPosition), false, fails);
    }

    /** Choosing a position tab reloads the listing under the new filter. */
    method SetFilter(filter: string, fails: bool)
      modifies this`filterPosition, this`banners
      ensures filterPosition == filter
      ensures banners == GetBanners(backend.rows, PositionFilter(filter), false, fails)
    {
      filterPosition := filter;
      LoadBanners(fails);
    }

    /**
     * `handleFileChange`: a missing file does nothing; a file of the wrong type
     * or over the size limit is refused with an alert and never uploaded; an
     * accepted file is uploaded and its public URL put in the open form.
     */
    method HandleFileChange(file: Option<FileInfo>, random: string, timestamp: nat, err: Option<string>)
      returns (alert: Option<string>)
      modifies this`editing, backend`bucket
      ensures CheckFile(file) != Acceptable ==>
                alert == CheckAlert(CheckFile(file)) && editing == old(editing) && backend.bucket == old(backend.bucket)
      ensures CheckFile(file) == Acceptable && err.Some? ==>
                alert == Some("Erro ao fazer upload: " + err.value)
                && editing == old(editing) && backend.bucket == old(backend.bucket)
      ensures CheckFile(file) == Acceptable && err.None? ==>
                var name := StorageName(random, timestamp, FileExtension(file.value.name));
                alert == None && backend.bucket == old(backend.bucket) + {name}
                && editing == (if old(editing).Some?
                               then Some(old(editing).value.(imageUrl := Some(PublicUrl(backend.publicBase, name))))
                               else None)
    {
      var check := CheckFile(file);
      if check != Acceptable {
        return CheckAlert(check);
      }
      var outcome, url := backend.UploadBannerImage(file.value.name, random, timestamp, err);
      if outcome.Fail? {
        return Some(outcome.message);
      }
      if editing.Some? {
        editing := Some(editing.value.(imageUrl := Some(url)));
      }
      alert := None;
    }

    /**
     * `handleSave`: an incomplete form is refused; a form with an id updates
     * that row, one without creates a banner (active unless set). On success
     * the form closes and the listing reloads; on error it stays open.
     */
    method HandleSave(newId: string, now: int, err: Option<string>, listFails: bool) returns (result: SaveResult)
      modifies this, backend`rows
      ensures filterPosition == old(filterPosition)
      ensures (old(editing).None? || !IsComplete(old(editing).value)) ==>
                result == Alerted(RequiredFieldsMessage) && backend.rows == old(backend.rows)
                && editing == old(editing) && banners == old(banners)
      ensures old(editing).Some? && IsComplete(old(editing).value) ==>
                var d := old(editing).value;
                (err.None? ==> result == Saved && editing == None
                               && banners == GetBanners(backend.rows, PositionFilter(filterPosition), false, listFails))
                && (err.Some? ==> backend.rows == old(backend.rows) && editing == old(editing) && banners == old(banners))
                && (err.Some? && Truthy(d.id) ==> result == Alerted("Erro ao atualizar banner: " + err.value))
                && (err.Some? && !Truthy(d.id) ==> result == Alerted("Erro ao criar banner: " + err.value))
                && (err.None? && Truthy(d.id) ==> backend.rows == UpdateWhere(old(backend.rows), d.id.value, DraftPatch(d)))
                && (err.None? && !Truthy(d.id) ==>
                      backend.rows == old(backend.rows) + [Banner(newId, d.name.value, d.imageUrl.value, d.linkUrl,
                                                                  d.position.value, d.width, d.height,
                                                                  d.active.GetOr(true), now)])
    {
      if editing.None? || !IsComplete(editing.value) {
        return Alerted(RequiredFieldsMessage);
      }
      var d := editing.value;
      var outcome;
      if Truthy(d.id) {
        outcome := backend.UpdateBanner(d.id.value, DraftPatch(d), err);
      } else {
        outcome := backend.CreateBanner(d.name.value, d.imageUrl.value, d.linkUrl, d.position.value,
                                        d.width, d.height, d.active.GetOr(true), newId, now, err);
      }
      if outcome.Fail? {
        return Alerted(outcome.message);
      }
      editing := None;
      LoadBanners(listFails);
      result := Saved;
    }

    /** `handleDelete(banner)`: only after confirmation; the listing reloads on success. */
    method HandleDelete(b: Banner, confirmed: bool, removeFails: bool, err: Option<string>, listFails: bool)
      returns (alert: Option<string>)
      modifies this`banners, backend
      ensures !confirmed ==> alert == None && backend.rows == old(backend.rows)
                             && backend.bucket == old(backend.bucket) && banners == old(banners)
      ensures confirmed && err.None? ==>
                alert == None && backend.rows == Seqs.Filter(old(backend.rows), IdIsNot(b.id))
                && banners == GetBanners(backend.rows, PositionFilter(filterPosition), false, listFails)
      ensures confirmed && err.Some? ==>
                alert == Some("Erro ao deletar banner: " + err.value)
                && backend.rows == old(backend.rows) && banners == old(banners)
      ensures confirmed ==>
                var name := StoredFileName(b.imageUrl);
                backend.bucket == (if name != "" && !removeFails then old(backend.bucket) - {name} else old(backend.bucket))
    {
      alert := None;
      if confirmed {
        var outcome := backend.DeleteBanner(b.id, b.imageUrl, removeFails, err);
        if outcome.Fail? {
          return Some(outcome.message);
        }
        LoadBanners(listFails);
      }
    }
  }

  /** The "all" tab lists every banner in the table. */
  lemma AllTabListsEverything(table: seq<Banner>, b: Banner)
    ensures b in GetBanners(table, PositionFilter("all"), false, false) <==> b in table
  {
    ListedBanners(table, None, false, b);
  }

  /** A position tab lists exactly the banners placed there, active or not. */
  lemma PositionTabListsPlaced(table: seq<Banner>, filter: string, b: Banner)
    requires filter != "all" && filter != ""
    ensures b in GetBanners(table, PositionFilter(filter), false, false) <==> b in table && b.position == filter
  {
    ListedBanners(table, Some(filter), false, b);
  }
}
