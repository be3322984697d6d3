/**
 * Banners (src/services/bannerService.ts): the `banners` table, the `banners`
 * storage bucket, the storage name an upload is given, and the name a delete
 * recovers from the image URL.
 */
module BannerService {
  import opened Common
  import opened Seqs
  import opened Text

  /**
   * A row of `banners`. `createdAt` is the row's creation instant; the
   * timestamp strings the table returns order the same way.
   */
  datatype Banner = Banner(
    id: string, name: string, imageUrl: string, linkUrl: Option<string>,
    position: string, width: Option<int>, height: Option<int>,
    active: bool, createdAt: int)

  /** `Partial<Banner>` as the edit form sends it: only present fields are written. */
  datatype BannerPatch = BannerPatch(
    name: Option<string>, imageUrl: Option<string>, linkUrl: Option<string>,
    position: Option<string>, active: Option<bool>)

  /** `file.name.split('.').pop()`: the text after the last dot, or the whole name. */
  function FileExtension(fileName: string): (ext: string)
    ensures '.' !in ext
    ensures '.' !in fileName ==> ext == fileName
    ensures |ext| < |fileName| ==> fileName == fileName[..|fileName| - |ext| - 1] + "." + ext
  {
    var ext := LastSegment(fileName, '.');
    assert |ext| < |fileName| ==> fileName == fileName[..|fileName| - |ext| - 1] + "." + ext by {
      if |ext| < |fileName| {
        var k := |fileName| - |ext| - 1;
        assert fileName == fileName[..k] + [fileName[k]] + fileName[k + 1..];
      }
    }
    ext
  }

  /** `<random>-<timestamp>.<ext>`, the upload's storage path. */
  function StorageName(random: string, timestamp: nat, ext: string): (name: string)
    ensures |name| > |random| + |ext| && name[..|random|] == random
    ensures name[|name| - |ext|..] == ext
  {
    random + "-" + Decimal(timestamp) + "." + ext
  }

  /** The storage name carries the uploaded file's extension after its last dot. */
  lemma StorageNameKeepsExtension(random: string, timestamp: nat, fileName: string)
    ensures FileExtension(StorageName(random, timestamp, FileExtension(fileName))) == FileExtension(fileName)
  {
    var ext := FileExtension(fileName);
    LastSegmentAfter(random + "-" + Decimal(timestamp), '.', ext);
  }

  /** A storage name is a single path segment: it holds no slash. */
  lemma StorageNameHasNoSlash(random: string, timestamp: nat, fileName: string)
    requires '/' !in random && '/' !in fileName
    ensures '/' !in StorageName(random, timestamp, FileExtension(fileName))
  {
    var ext := FileExtension(fileName);
    var digits := Decimal(timestamp);
    assert '/' !in digits by {
      assert !IsDigit('/');
    }
    assert StorageName(random, timestamp, ext) == random + "-" + digits + "." + ext;
  }

  /** `getPublicUrl(path)`: the bucket's public base followed by the path. */
  function PublicUrl(base: string, path: string): (url: string)
    ensures |url| > |path| && url[|url| - |path|..] == path
  {
    base + "/" + path
  }

  /** The name `deleteBanner` removes from storage: the image URL's last path segment. */
  function StoredFileName(imageUrl: string): (name: string)
    ensures '/' !in name
    ensures |name| <= |imageUrl| && name == imageUrl[|imageUrl| - |name|..]
  {
    LastSegment(imageUrl, '/')
  }

  /** Deleting a banner removes exactly the file its upload created. */
  lemma UploadDeleteRoundTrip(base: string, random: string, timestamp: nat, fileName: string)
    requires '/' !in random && '/' !in fileName
    ensures var name := StorageName(random, timestamp, FileExtension(fileName));
            StoredFileName(PublicUrl(base, name)) == name && name != ""
  {
    var name := StorageName(random, timestamp, FileExtension(fileName));
    StorageNameHasNoSlash(random, timestamp, fileName);
    LastSegmentAfter(base, '/', name);
  }

  /** The query filters of `getBanners`: a position only when one is given, `active` only when asked. */
  function Selects(position: Option<string>, activeOnly: bool): Banner -> bool
  {
    (b: Banner) => (!Truthy(position) || b.position == position.value) && (!activeOnly || b.active)
  }

  /** Sort key for `created_at` descending. */
  function NewestFirst(b: Banner): int
  {
    -b.createdAt
  }

  /** `getBanners(position, activeOnly)`: the selected rows, newest first; none on error. */
  function GetBanners(table: seq<Banner>, position: Option<string>, activeOnly: bool, fails: bool): (r: seq<Banner>)
    ensures fails ==> r == []
    ensures !fails ==> SortedBy(r, NewestFirst) && multiset(r) == multiset(Filter(table, Selects(position, activeOnly)))
  {
    if fails then [] else SortBy(Filter(table, Selects(position, activeOnly)), NewestFirst)
  }

  /** A row is listed exactly when it passes both optional filters. */
  lemma ListedBanners(table: seq<Banner>, position: Option<string>, activeOnly: bool, b: Banner)
    ensures b in GetBanners(table, position, activeOnly, false) <==>
            b in table && (!Truthy(position) || b.position == position.value) && (!activeOnly || b.active)
  {
    var f := Filter(table, Selects(position, activeOnly));
    assert b in f <==> b in table && Selects(position, activeOnly)(b);
    assert b in GetBanners(table, position, activeOnly, false) <==> b in multiset(f);
  }

  /** Newest first: an earlier entry of the listing was never created after a later one. */
  lemma ListedNewestFirst(table: seq<Banner>, position: Option<string>, activeOnly: bool, i: int, j: int)
    requires 0 <= i < j < |GetBanners(table, position, activeOnly, false)|
    ensures var r := GetBanners(table, position, activeOnly, false);
            r[i].createdAt >= r[j].createdAt
  {
    var r := GetBanners(table, position, activeOnly, false);
    assert NewestFirst(r[i]) <= NewestFirst(r[j]);
  }

  function ApplyPatch(b: Banner, p: BannerPatch): (c: Banner)
    ensures c.id == b.id && c.createdAt == b.createdAt && c.width == b.width && c.height == b.height
    ensures c.name == p.name.GetOr(b.name) && c.imageUrl == p.imageUrl.GetOr(b.imageUrl)
    ensures c.position == p.position.GetOr(b.position) && c.active == p.active.GetOr(b.active)
    ensures c.linkUrl == (if p.linkUrl.Some? then p.linkUrl else b.linkUrl)
  {
    b.(name := p.name.GetOr(b.name), imageUrl := p.imageUrl.GetOr(b.imageUrl),
       linkUrl := if p.linkUrl.Some? then p.linkUrl else b.linkUrl,
       position := p.position.GetOr(b.position), active := p.active.GetOr(b.active))
  }

  /** `update(updates).eq('id', id)`. */
  function UpdateWhere(rows: seq<Banner>, id: string, p: BannerPatch): (r: seq<Banner>)
    ensures |r| == |rows|
    ensures forall i :: 0 <= i < |rows| && rows[i].id != id ==> r[i] == rows[i]
    ensures forall i :: 0 <= i < |rows| && rows[i].id == id ==> r[i] == ApplyPatch(rows[i], p)
  {
    if rows == [] then []
    else [if rows[0].id == id then ApplyPatch(rows[0], p) else rows[0]] + UpdateWhere(rows[1..], id, p)
  }

  function IdIsNot(id: string): Banner -> bool
  {
    (b: Banner) => b.id != id
  }

  /** The backend side of banners: the table and the set of paths in the storage bucket. */
  class BannerBackend {
    var rows: seq<Banner>
    var bucket: set<string>
    /** The bucket's public URL base, as `getPublicUrl` reports it. */
    const publicBase: string

    constructor (rows0: seq<Banner>, bucket0: set<string>, publicBase: string)
      ensures rows == rows0 && bucket == bucket0 && this.publicBase == publicBase
    {
      rows := rows0;
      bucket := bucket0;
      this.publicBase := publicBase;
    }

    /**
     * `uploadBannerImage(file)`: stores the file under a fresh storage name and
     * returns its public URL. `random` and `timestamp` stand for the random
     * base-36 digits and `Date.now()`; `err` is the storage error, if any
     * (including a name that is already taken, since uploads never overwrite).
     */
    method UploadBannerImage(fileName: string, random: string, timestamp: nat, err: Option<string>)
      returns (outcome: Outcome, url: string)
      modifies this`bucket
      ensures var name := StorageName(random, timestamp, FileExtension(fileName));
              (err.None? ==> outcome == Ok && bucket == old(bucket) + {name} && url == PublicUrl(publicBase, name))
              && (err.Some? ==> outcome == Fail("Erro ao fazer upload: " + err.value) && bucket == old(bucket) && url == "")
    {
      var ext := FileExtension(fileName);
      var name := StorageName(random, timestamp, ext);
      if err.Some? {
        return Fail("Erro ao fazer upload: " + err.value), "";
      }
      bucket := bucket + {name};
      outcome, url := Ok, PublicUrl(publicBase, name);
    }

    /** `createBanner(banner)`: `newId` and `now` stand for the generated id and creation time. */
    method CreateBanner(name: string, imageUrl: string, linkUrl: Option<string>, position: string,
                        width: Option<int>, height: Option<int>, active: bool,
                        newId: string, now: int, err: Option<string>) returns (outcome: Outcome)
      modifies this`rows
      ensures err.None? ==> outcome == Ok && rows == old(rows) + [Banner(newId, name, imageUrl, linkUrl, position, width, height, active, now)]
      ensures err.Some? ==> outcome == Fail("Erro ao criar banner: " + err.value) && rows == old(rows)
    {
      if err.Some? {
        return Fail("Erro ao criar banner: " + err.value);
      }
      rows := rows + [Banner(newId, name, imageUrl, linkUrl, position, width, height, active, now)];
      outcome := Ok;
    }

    /** `updateBanner(id, updates)`: unlike streams, no timestamp is touched. */
    method UpdateBanner(id: string, p: BannerPatch, err: Option<string>) returns (outcome: Outcome)
      modifies this`rows
      ensures err.None? ==> outcome == Ok && rows == UpdateWhere(old(rows), id, p)
      ensures err.Some? ==> outcome == Fail("Erro ao atualizar banner: " + err.value) && rows == old(rows)
    {
      if err.Some? {
        return Fail("Erro ao atualizar banner: " + err.value);
      }
      rows := UpdateWhere(rows, id, p);
      outcome := Ok;
    }

    /**
     * `deleteBanner(id, imageUrl)`: first removes the image's file from storage
     * (skipped when the URL ends in a slash; a storage failure, `removeFails`,
     * is ignored), then deletes the row. Only a table error `err` is reported,
     * and by then the file is already gone.
     */
    method DeleteBanner(id: string, imageUrl: string, removeFails: bool, err: Option<string>)
      returns (outcome: Outcome)
      modifies this
      ensures var name := StoredFileName(imageUrl);
              bucket == (if name != "" && !removeFails then old(bucket) - {name} else old(bucket))
      ensures err.None? ==> outcome == Ok && rows == Filter(old(rows), IdIsNot(id))
      ensures err.Some? ==> outcome == Fail("Erro ao deletar banner: " + err.value) && rows == old(rows)
    {
      var fileName := StoredFileName(imageUrl);
      if fileName != "" && !removeFails {
        bucket := bucket - {fileName};
      }
      if err.Some? {
        return Fail("Erro ao deletar banner: " + err.value);
      }
      rows := Filter(rows, IdIsNot(id));
      outcome := Ok;
    }
  }
}
