/**
 * Application settings (src/services/settingsService.ts): key/value rows of
 * the `settings` table laid over compiled-in defaults, and upserts into it.
 */
module SettingsService {
  import opened Common

  /** A row of the `settings` table. */
  datatype SettingRow = SettingRow(key: string, value: string)

  /** The `stream_url` default when the build sets no VITE_RADIO_STREAM_URL. */
  const FallbackStreamUrl: string := "https://s1.sonic.radio.br/8124/stream"

  const StationName: string := "Rádio Studio"

  /** The field names declared by the AppSettings interface. */
  const AppSettingsKeys: set<string> := {
    "stream_url", "site_name", "site_description", "site_slogan", "site_address",
    "site_phone", "site_whatsapp", "site_email", "logo_url", "meta_description",
    "meta_keywords", "meta_author", "google_analytics_id", "facebook_pixel_id",
    "custom_header_scripts", "custom_footer_scripts", "social_facebook",
    "social_instagram", "social_twitter", "social_youtube", "social_tiktok"
  }

  /**
   * DEFAULT_SETTINGS; `env` is the build-time VITE_RADIO_STREAM_URL, "" when
   * it is not set.
   */
  function DefaultSettings(env: string): (d: map<string, string>)
    ensures d.Keys == {"stream_url", "site_name", "meta_author"} <= AppSettingsKeys
    ensures d["stream_url"] == (if env != "" then env else FallbackStreamUrl)
    ensures d["stream_url"] != ""
    ensures d["site_name"] == d["meta_author"] == StationName
  {
    map["stream_url" := if env != "" then env else FallbackStreamUrl,
        "site_name" := StationName,
        "meta_author" := StationName]
  }

  /** The object built by the `forEach` over the rows: later rows overwrite earlier ones. */
  function RowsToMap(rows: seq<SettingRow>): (m: map<string, string>)
    ensures forall i :: 0 <= i < |rows| ==> rows[i].key in m
    ensures forall k :: k in m ==> exists i :: 0 <= i < |rows| && rows[i].key == k
  {
    if rows == [] then map[]
    else
      var last := rows[|rows| - 1];
      var init := rows[..|rows| - 1];
      var m := RowsToMap(init)[last.key := last.value];
      assert forall i :: 0 <= i < |rows| - 1 ==> rows[i] == init[i];
      m
  }

  /** Index `i` holds the last row of `rows` with key `k`. */
  ghost predicate IsLastWithKey(rows: seq<SettingRow>, k: string, i: int)
  {
    0 <= i < |rows| && rows[i].key == k && forall j :: i < j < |rows| ==> rows[j].key != k
  }

  /** When the rows repeat a key, the last row wins. */
  lemma {:induction false} LastRowWins(rows: seq<SettingRow>, k: string, i: int)
    requires IsLastWithKey(rows, k, i)
    ensures k in RowsToMap(rows) && RowsToMap(rows)[k] == rows[i].value
  {
    if i < |rows| - 1 {
      LastRowWins(rows[..|rows| - 1], k, i);
    }
  }

  /**
   * `getSettings()`: the rows are folded into a map (in a loop, as the
   * source's `forEach`) and spread over the defaults; on a fetch error the
   * defaults are returned as they are.
   */
  method GetSettings(rows: seq<SettingRow>, fails: bool, env: string) returns (settings: map<string, string>)
    ensures fails ==> settings == DefaultSettings(env)
    ensures !fails ==> settings == DefaultSettings(env) + RowsToMap(rows)
  {
    if fails {
      return DefaultSettings(env);
    }
    var settingsMap: map<string, string> := map[];
    var i := 0;
    while i < |rows|
      invariant 0 <= i <= |rows|
      invariant settingsMap == RowsToMap(rows[..i])
    {
      assert rows[..i + 1][..i] == rows[..i];
      settingsMap := settingsMap[rows[i].key := rows[i].value];
      i := i + 1;
    }
    assert rows[..i] == rows;
    settings := DefaultSettings(env) + settingsMap;
  }

  /**
   * The merge: every fetched key (declared or not) overrides its default
   * with its last row's value; defaults the rows do not mention are kept.
   */
  lemma MergedSettings(rows: seq<SettingRow>, env: string)
    ensures var s := DefaultSettings(env) + RowsToMap(rows);
            && (forall k, i :: IsLastWithKey(rows, k, i) ==> k in s && s[k] == rows[i].value)
            && (forall k :: k in DefaultSettings(env) && (forall i :: 0 <= i < |rows| ==> rows[i].key != k)
                  ==> s[k] == DefaultSettings(env)[k])
            && (forall i :: 0 <= i < |rows| ==> rows[i].key in s)
  {
    RowsOverride(DefaultSettings(env), rows);
    UnmentionedKept(DefaultSettings(env), rows);
  }

  /** Laid over any map, the folded rows set each key to its last row's value. */
  lemma RowsOverride(base: map<string, string>, rows: seq<SettingRow>)
    ensures forall k, i :: IsLastWithKey(rows, k, i) ==> k in base + RowsToMap(rows) && (base + RowsToMap(rows))[k] == rows[i].value
  {
    forall k, i | IsLastWithKey(rows, k, i) ensures k in RowsToMap(rows) && RowsToMap(rows)[k] == rows[i].value {
      LastRowWins(rows, k, i);
    }
  }

  /** Laid over any map, the folded rows leave the keys they never mention alone. */
  lemma UnmentionedKept(base: map<string, string>, rows: seq<SettingRow>)
    ensures forall k :: k in base && (forall i :: 0 <= i < |rows| ==> rows[i].key != k) ==> (base + RowsToMap(rows))[k] == base[k]
  {
  }

  /** The rows enumerate the table `m`: each row is an entry of `m` and every key appears. */
  ghost predicate Enumerates(rows: seq<SettingRow>, m: map<string, string>)
  {
    && (forall i :: 0 <= i < |rows| ==> rows[i].key in m && m[rows[i].key] == rows[i].value)
    && (forall k :: k in m ==> exists i :: 0 <= i < |rows| && rows[i].key == k)
  }

  /** Folding a full listing of a table gives back the table. */
  lemma {:induction false} FoldOfListing(rows: seq<SettingRow>, m: map<string, string>)
    requires Enumerates(rows, m)
    ensures RowsToMap(rows) == m
  {
    var f := RowsToMap(rows);
    assert f.Keys == m.Keys;
    forall k | k in f ensures f[k] == m[k] {
      var i := LastIndexOf(rows, k);
      LastRowWins(rows, k, i);
    }
  }

  lemma {:induction false} LastIndexExists(rows: seq<SettingRow>, k: string, i: int)
    requires 0 <= i < |rows| && rows[i].key == k
    ensures exists j :: IsLastWithKey(rows, k, j)
    decreases |rows| - i
  {
    if exists j :: i < j < |rows| && rows[j].key == k {
      var j :| i < j < |rows| && rows[j].key == k;
      LastIndexExists(rows, k, j);
    } else {
      assert IsLastWithKey(rows, k, i);
    }
  }

  ghost function LastIndexOf(rows: seq<SettingRow>, k: string): (i: int)
    requires k in RowsToMap(rows)
    ensures IsLastWithKey(rows, k, i)
  {
    var i0 :| 0 <= i0 < |rows| && rows[i0].key == k;
    LastIndexExists(rows, k, i0);
    var i :| IsLastWithKey(rows, k, i);
    i
  }

  /**
   * The rows `updateMultipleSettings` sends: one `{key, value}` per entry of
   * the partial record, in entry order, with a missing or empty value sent
   * as "".
   */
  function EntryRows(updates: seq<(string, Option<string>)>): (rows: seq<SettingRow>)
    ensures |rows| == |updates|
    ensures forall i :: 0 <= i < |rows| ==> rows[i].key == updates[i].0
    ensures forall i :: 0 <= i < |rows| ==> rows[i].value == OrElse(updates[i].1, "")
  {
    if updates == [] then []
    else [SettingRow(updates[0].0, OrElse(updates[0].1, ""))] + EntryRows(updates[1..])
  }

  /** The keys of a partial record's entries are distinct. */
  ghost predicate DistinctKeys(updates: seq<(string, Option<string>)>)
  {
    forall i, j :: 0 <= i < j < |updates| ==> updates[i].0 != updates[j].0
  }

  /** An upsert of rows into the table keyed by `key`. */
  function UpsertRows(table: map<string, string>, rows: seq<SettingRow>): (t: map<string, string>)
    ensures forall i :: 0 <= i < |rows| ==> rows[i].key in t
    ensures forall k :: k in table ==> k in t
  {
    table + RowsToMap(rows)
  }

  /**
   * After a batch update every entry's key holds its sent value, and every
   * other key of the table keeps its value.
   */
  lemma BatchUpdateEffect(table: map<string, string>, updates: seq<(string, Option<string>)>)
    requires DistinctKeys(updates)
    ensures var t := UpsertRows(table, EntryRows(updates));
            && (forall i :: 0 <= i < |updates| ==> t[updates[i].0] == OrElse(updates[i].1, ""))
            && (forall k :: k in table && (forall i :: 0 <= i < |updates| ==> updates[i].0 != k) ==> t[k] == table[k])
  {
    var rows := EntryRows(updates);
    forall i | 0 <= i < |updates| ensures RowsToMap(rows)[updates[i].0] == OrElse(updates[i].1, "") {
      assert IsLastWithKey(rows, updates[i].0, i);
      LastRowWins(rows, updates[i].0, i);
    }
    UnmentionedKept(table, rows);
  }

  /** The `settings` table on the backend, keyed by `key`. */
  class SettingsTable {
    var rows: map<string, string>

    constructor (rows0: map<string, string>)
      ensures rows == rows0
    {
      rows := rows0;
    }

    /** `updateSetting(key, value)`: one upsert; a backend error is rethrown. */
    method UpdateSetting(key: string, value: string, err: Option<string>) returns (outcome: Outcome)
      requires key in AppSettingsKeys
      modifies this
      ensures err.None? ==> outcome == Ok && rows == old(rows)[key := value]
      ensures err.Some? ==> outcome == Fail(err.value) && rows == old(rows)
    {
      if err.Some? {
        return Fail(err.value);
      }
      rows := UpsertRows(rows, [SettingRow(key, value)]);
      assert RowsToMap([SettingRow(key, value)]) == map[key := value];
      outcome := Ok;
    }

    /** `updateMultipleSettings(updates)`: one upsert of every entry; a backend error is rethrown. */
    method UpdateMultipleSettings(updates: seq<(string, Option<string>)>, err: Option<string>)
      returns (outcome: Outcome)
      requires DistinctKeys(updates)
      modifies this
      ensures err.None? ==> outcome == Ok && rows == UpsertRows(old(rows), EntryRows(updates))
      ensures err.Some? ==> outcome == Fail(err.value) && rows == old(rows)
    {
      if err.Some? {
        return Fail(err.value);
      }
      rows := UpsertRows(rows, EntryRows(updates));
      outcome := Ok;
    }
  }

  /** A value written with `updateSetting` is what the next `getSettings` of the table returns. */
  lemma ReadAfterWrite(table: map<string, string>, key: string, value: string, listing: seq<SettingRow>, env: string)
    requires Enumerates(listing, table[key := value])
    ensures var s := DefaultSettings(env) + RowsToMap(listing);
            key in s && s[key] == value
  {
    FoldOfListing(listing, table[key := value]);
  }
}
