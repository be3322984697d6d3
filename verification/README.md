# Rádio Studio in Dafny

This project is a Dafny model of the rules inside the Rádio Studio web front end: a
single-page radio site with an admin area over a hosted backend. Every backend table
(`votes`, `settings`, `radio_streams`, `banners` and its storage bucket, `messages`,
`now_playing`/`songs`, `schedule`) is a sequence or map. Every backend call is one
atomic step that either succeeds or fails, and the outcome is a parameter.

The model covers:

- anonymous voting, which keys one vote per browser fingerprint and song and tallies likes into an approval percentage, plus the vote button's optimistic state;
- the settings fold, which lays stored rows over compiled-in defaults, and the batch update;
- stream selection, the player's URL routing (mixed-content refusal, CORS proxy, HLS) and its five-state playback machine;
- stream and banner administration forms;
- banner upload names and the file a delete removes, and the banner carousel;
- the now-playing lookup, the request inbox, the pending-request count, and realtime insert mapping;
- the programme grid grouped by weekday;
- the YouTube id that a song link yields under the library page's regular expression.

One module per source file, plus three helper modules:

- `Common`: `Option` and the `Outcome` of a backend call;
- `Text`: prefixes, substring search, last path segment, decimal digits, `encodeURIComponent`;
- `Seqs`: filter, count, and a stable sort on an integer key for `ORDER BY`.

Pages and services that update state are classes. Their fields are the component state
or the table, and their methods mirror the handlers. Pure mappings are functions, and
the lemmas state what the handlers promise across calls.

Values the browser or backend supplies are parameters: generated ids and `uuidv4()`,
`Date.now()`, `Math.random()` digits, the page protocol, `confirm()` answers, what
`play()` returns, whether hls.js or native HLS is available, and the public URL base of
the storage bucket. Timestamps that only order rows are integers.

## Model

| member | source | states |
|---|---|---|
| VotingService.VotingClient.BrowserFingerprint | src/services/votingService.ts:8-15 | A stored fingerprint is returned and storage is untouched. Without one, the fresh id is stored under `user_fingerprint` and returned. |
| VotingService.FingerprintIsStable | src/services/votingService.ts:8-15 | Two successive calls return the same fingerprint, whatever fresh ids are offered. |
| VotingService.Upsert | src/services/votingService.ts:27-36 | Upsert on (song, fingerprint): the table grows by at most one row. |
| VotingService.UpsertSpec | src/services/votingService.ts:27-36 | After an upsert, keys stay unique and the table holds exactly one row for the key: the new one. Rows of every other key are unchanged. |
| VotingService.UpsertUnique | src/services/votingService.ts:34 | The conflict key stays unique under upserts. |
| VotingService.UpsertRowsForKey | src/services/votingService.ts:27-36 | After the upsert, the key's rows are exactly `[row]`. |
| VotingService.UpsertRowsForOther | src/services/votingService.ts:27-36 | Rows of any other key are untouched. |
| VotingService.UpsertKeys | src/services/votingService.ts:27-36 | Rows after an upsert are the new row or old rows. Every old row of another key survives. |
| VotingService.VotingClient.VoteSong | src/services/votingService.ts:22-44 | The fingerprint is settled first: the stored one is kept, or else `newId` is stored under its key with every other key kept. Success upserts `Vote(song, fp, type)` and keeps keys unique. A backend error is rethrown and leaves the table as it was. |
| VotingService.ApprovalPercent | src/services/votingService.ts:62 | `Math.round(100*likes/total)` as integer half-up rounding: the result lies in 0..100, is 0 when total is 0, and otherwise satisfies `2T·r <= 200L+T < 2T·(r+1)`. |
| VotingService.Tally | src/services/votingService.ts:59-62 | likes + dislikes = total = number of the song's rows, and approval is at most 100 (0 with no votes). |
| VotingService.TallySplit | src/services/votingService.ts:59-61 | Like rows and dislike rows together are all of the song's rows. |
| VotingService.GetSongVotes | src/services/votingService.ts:50-69 | A failed query gives `{0,0,0,0}`; otherwise the tally. |
| VotingService.UserVote | src/services/votingService.ts:75-92 | A non-null result comes from a successful query and is a stored vote of this song and fingerprint. |
| VotingService.UserVoteFound | src/services/votingService.ts:80-87 | With unique keys, a stored vote is found by a successful query. |
| VotingService.OneRowPerKey | src/services/votingService.ts:79-84 | With unique keys, at most one row matches the `.single()` lookup. |
| VotingService.VoteIsReadBack | src/services/votingService.ts:27-87 | After `voteSong`, `getUserVote` reads back the type just voted. |
| VotingService.FirstWithKey | src/services/votingService.ts:34 | It finds the row an upsert replaces, or shows that no row carries the key. |
| VotingService.CountAfterUpsert | src/services/votingService.ts:27-61 | Any count over the table changes by the replaced row leaving and the new row entering. |
| VotingService.UserVoteIsFirst | src/services/votingService.ts:80-87 | With unique keys, `getUserVote` reads exactly the row an upsert would replace. |
| VotingService.TallyAfterVote | src/services/votingService.ts:27-61 | After a vote, likes and dislikes lose the voter's previous vote (if any) and gain the new one. Switching moves one vote; repeating changes nothing. |
| VotingService.ApprovalMonotone | src/services/votingService.ts:62 | One more like, with or without one more vote in total, never lowers the rounded approval. |
| VotingService.LikeNeverLowersApproval | src/services/votingService.ts:22-62 | A like never lowers a song's approval. |
| VotingService.GetTopSongs | src/services/votingService.ts:97-108 | An error is swallowed into `[]`, and null data gives `[]`; otherwise the RPC's rows. |
| VotingService.VotingClient.GetUserVote | src/services/votingService.ts:75-92 | It settles the fingerprint the same way (the stored one, or `newId` written under its key with other keys kept), then reads that fingerprint's vote. |
| VoteButtonComponent.VoteButton.constructor | src/components/VoteButton.tsx:9-10 | The initial state is zero stats and no vote. |
| VoteButtonComponent.VoteButton.Load | src/components/VoteButton.tsx:12-25 | On a `songId` change, the stats and the user's vote are reloaded for the new song, and the votes table is not written. The vote is read under the stored fingerprint, or under `newId`, which is then stored under the fingerprint key with every other key kept. |
| VoteButtonComponent.VoteButton.HandleVote | src/components/VoteButton.tsx:27-34 | Repeating the held vote changes nothing, and no call is made. Any other vote is shown at once and is cast under the stored fingerprint, or under `newId` stored under the fingerprint key with every other key kept. On success the table is upserted, the stats reload, and the shown vote equals what the backend holds. On failure the new vote stays shown, the stats stay stale, and nothing is rolled back. |
| SettingsService.DefaultSettings | src/services/settingsService.ts:35-39 | Exactly `stream_url`, `site_name`, `meta_author` (all declared keys). `stream_url` is the build variable or the fixed fallback and is never empty. |
| SettingsService.RowsToMap | src/services/settingsService.ts:53-56 | Every row's key, declared or not, is in the folded map, and every key of the map comes from a row. |
| SettingsService.LastRowWins | src/services/settingsService.ts:54-56 | When rows repeat a key, the last row's value is kept. |
| SettingsService.GetSettings | src/services/settingsService.ts:44-66 | A fetch error returns `DEFAULT_SETTINGS` exactly. Otherwise the `forEach` loop folds the rows and the result is the defaults overlaid by that fold. |
| SettingsService.MergedSettings | src/services/settingsService.ts:53-61 | Each fetched key holds its last row's value. Defaults the rows never mention keep their value. Every row key is present. |
| SettingsService.RowsOverride | src/services/settingsService.ts:58-61 | Laid over any base, the fold sets each mentioned key to its last row's value. |
| SettingsService.FoldOfListing | src/services/settingsService.ts:53-56 | Folding a complete listing of a table gives back the table. |
| SettingsService.EntryRows | src/services/settingsService.ts:91-94 | One `{key, value}` row per entry, with the same keys in the same order. A missing or empty value is sent as `""`. |
| SettingsService.UpsertRows | src/services/settingsService.ts:96-99 | After the upsert, every sent key is present and no existing key is lost. |
| SettingsService.BatchUpdateEffect | src/services/settingsService.ts:89-107 | After a batch update, each entry's key holds its sent value, and other keys keep theirs. |
| SettingsService.SettingsTable.UpdateSetting | src/services/settingsService.ts:71-84 | Success sets the key to the value. An error is rethrown and leaves the table unchanged. |
| SettingsService.SettingsTable.UpdateMultipleSettings | src/services/settingsService.ts:89-107 | Success upserts the entry rows. An error is rethrown and leaves the table unchanged. |
| SettingsService.ReadAfterWrite | src/services/settingsService.ts:44-84 | A value written with `updateSetting` is what the next successful `getSettings` returns for that key. |
| StreamService.GetAllStreams | src/services/streamService.ts:16-28 | Every row, inactive ones included, sorted by ascending `display_order`. An error gives `[]`. |
| StreamService.GetActiveStreams | src/services/streamService.ts:33-46 | Exactly the active rows, sorted by ascending `display_order`. An error gives `[]`. |
| StreamService.ActiveStreamsAreActiveRows | src/services/streamService.ts:37 | A row is listed iff it is in the table and active. |
| StreamService.FirstActiveHasLowestOrder | src/services/streamService.ts:37-38 | When any row is active, the head of the list is active and has the lowest `display_order`. |
| StreamService.ApplyPatch | src/services/streamService.ts:64-73 | Only the fields the patch gives change, `updated_at` is refreshed, and id and `created_at` are kept. |
| StreamService.UpdateWhere | src/services/streamService.ts:64-73 | The patch applies to the rows with the id and to no other row. |
| StreamService.StreamTable.CreateStream | src/services/streamService.ts:51-59 | Success appends the new row with equal timestamps and keeps ids unique. An error gives a prefixed message and no change. |
| StreamService.StreamTable.UpdateStream | src/services/streamService.ts:64-73 | Success applies the patch to the id's row. An error gives a prefixed message and no change. |
| StreamService.StreamTable.DeleteStream | src/services/streamService.ts:78-87 | Success removes the id's rows and keeps ids unique. An error gives a prefixed message and no change. |
| StreamService.StreamTable.ToggleStreamActive | src/services/streamService.ts:92-94 | An update whose patch is `is_active` alone. |
| StreamService.FilterKeepsUniqueIds | src/services/streamService.ts:78-87 | Deleting rows keeps ids unique. |
| StreamManagerPage.NewDraft | src/pages/Admin/StreamManager.tsx:64 | The new form is active at order 0 with no id. Its empty label and URL would be refused. |
| StreamManagerPage.EditDraft | src/pages/Admin/StreamManager.tsx:22-28 | The form for a row passes the check iff the row has a label and a URL. It updates iff the row's id is non-empty. |
| StreamManagerPage.DraftPatch | src/pages/Admin/StreamManager.tsx:29 | An update sends the form's fields as they are. |
| StreamManagerPage.StreamManager.LoadStreams | src/pages/Admin/StreamManager.tsx:13-18 | The listing is `getAllStreams()`. |
| StreamManagerPage.StreamManager.OpenNew | src/pages/Admin/StreamManager.tsx:64 | "Nova Stream" opens the blank form, which the save would refuse as it stands. |
| StreamManagerPage.StreamManager.OpenEdit | src/pages/Admin/StreamManager.tsx:157 | The edit button opens the form holding the listed row, which saves as an update iff the row has an id. |
| StreamManagerPage.StreamManager.Cancel | src/pages/Admin/StreamManager.tsx:125 | "Cancelar" closes the form. |
| StreamManagerPage.StreamManager.HandleSave | src/pages/Admin/StreamManager.tsx:20-43 | Without a label or URL, the alert is raised and no call is made. An id updates the row; no id creates one with `is_active ?? true` and `display_order ?? 0`. Success closes the form and reloads. An error alerts the service's message, `Erro ao atualizar stream: …` or `Erro ao criar stream: …`, and the form stays open. |
| StreamManagerPage.StreamManager.HandleDelete | src/pages/Admin/StreamManager.tsx:45-54 | Nothing happens without confirmation. Success deletes and reloads; an error is alerted. |
| StreamManagerPage.CreatedStreamIsListed | src/pages/Admin/StreamManager.tsx:31-39 | A created stream appears in the reloaded listing. |
| StreamManagerPage.DeletedStreamIsUnlisted | src/pages/Admin/StreamManager.tsx:48-49 | After a delete, a former row is listed iff its id differs. |
| PlayerComponent.DefaultStreamUrl | src/components/Layout/Player.tsx:9 | The build variable, else the fixed fallback. It is never empty and equals the settings default. |
| PlayerComponent.IsM3U8 | src/components/Layout/Player.tsx:128 | A URL counts as HLS iff `.m3u8` or `playlist` occurs at some index. |
| PlayerComponent.IsMixedContent | src/components/Layout/Player.tsx:137 | It is refused only on an `https:` page, and only for an `http:` URL, so an `https:` URL never is. |
| PlayerComponent.SettingsStreamUrl | src/components/Layout/Player.tsx:38-39 | The `stream_url` that `getSettings` yields: a stored row wins, otherwise (or on error) the default. |
| PlayerComponent.Player.constructor | src/components/Layout/Player.tsx:14-22 | The player starts idle and live, with `DEFAULT_STREAM`, no error and no source. |
| PlayerComponent.Player.LoadStreamUrl | src/components/Layout/Player.tsx:25-48 | The first active stream wins. Otherwise a non-empty settings `stream_url` is used. Otherwise the URL stays as it was. With no active stream and failing settings, or no stored `stream_url`, the URL is the non-empty build-time default. |
| PlayerComponent.ChosenStreamHasLowestOrder | src/components/Layout/Player.tsx:29-33 | When any stream is active, the chosen one is active with the lowest `display_order`. |
| PlayerComponent.ProxyUrl | src/components/Layout/Player.tsx:145-148 | The rewrite starts with `https://api.allorigins.win/raw?url=`. |
| PlayerComponent.ProxyQueryIsEncoded | src/components/Layout/Player.tsx:147 | Everything after the proxy prefix is URI-safe: the URL travels as one encoded query value. |
| PlayerComponent.ProxyUrlNamesProxy | src/components/Layout/Player.tsx:147-153 | A proxied URL contains `allorigins`. |
| PlayerComponent.FinalStreamUrl | src/components/Layout/Player.tsx:150-156 | HLS URLs, and URLs already naming `allorigins`, pass unchanged. All other URLs are proxied. |
| PlayerComponent.ProxyAppliedOnce | src/components/Layout/Player.tsx:150-156 | Routing is idempotent: the proxy is never applied twice. |
| PlayerComponent.Player.ApplyStreamUrl | src/components/Layout/Player.tsx:124-217 | An empty URL does nothing. An `http:` URL on an `https:` page gives the error state with its message and no source. A plain URL gets the proxied source. An HLS URL goes to hls.js or to native `src` unproxied, or gives the "no HLS" error. The old hls.js instance is always torn down. |
| PlayerComponent.Player.TogglePlay | src/components/Layout/Player.tsx:244-280 | From playing it goes to paused. Otherwise it goes to loading with the error cleared, then to playing on success, stays loading when `play()` returns nothing, or goes to error with the mapped message on rejection. |
| PlayerComponent.PlayErrorMessage | src/components/Layout/Player.tsx:269-274 | Never empty. The generic message is used iff the error is neither `NotAllowedError` nor `NotSupportedError`. |
| PlayerComponent.Player.OnLoadStart | src/components/Layout/Player.tsx:60-64 | Loading, with the error cleared. |
| PlayerComponent.Player.OnPlaying | src/components/Layout/Player.tsx:70-74 | Playing and live. |
| PlayerComponent.Player.OnPause | src/components/Layout/Player.tsx:76-79 | Paused. |
| PlayerComponent.MediaErrorMessage | src/components/Layout/Player.tsx:83-100 | Never empty. The generic message is used iff there is no error or the code is outside 1..4. |
| PlayerComponent.Player.OnError | src/components/Layout/Player.tsx:81-104 | Error, with the mapped non-empty message. |
| PlayerComponent.Player.OnHlsError | src/components/Layout/Player.tsx:179-199 | Non-fatal errors, and fatal network and media errors, change no state (they recover in place). Any other fatal error gives the error state and destroys the instance. |
| BannerService.FileExtension | src/services/bannerService.ts:19 | The text after the last dot, or the whole name without a dot. It holds no dot and rebuilds the name. |
| BannerService.StorageName | src/services/bannerService.ts:20-21 | `<random>-<timestamp>.<ext>`: starts with the random part and ends with the extension. |
| BannerService.StorageNameKeepsExtension | src/services/bannerService.ts:19-20 | The storage name's extension is the uploaded file's extension. |
| BannerService.StorageNameHasNoSlash | src/services/bannerService.ts:20-21 | A storage name is one path segment. |
| BannerService.PublicUrl | src/services/bannerService.ts:35-39 | The public URL ends with the path, taking `getPublicUrl` to append it verbatim (see "Left out"). |
| BannerService.StoredFileName | src/services/bannerService.ts:101 | The last `/`-segment of the image URL, a suffix with no slash. |
| BannerService.UploadDeleteRoundTrip | src/services/bannerService.ts:20-101 | Deleting a banner removes exactly the non-empty name its upload created, under the verbatim public-URL assumption (see "Left out"). |
| BannerService.GetBanners | src/services/bannerService.ts:45-67 | The rows passing the optional filters, newest first. An error gives `[]`. |
| BannerService.ListedBanners | src/services/bannerService.ts:51-57 | A row is listed iff it is in the table, matches the position when one is given, and is active when `activeOnly` is set. |
| BannerService.ListedNewestFirst | src/services/bannerService.ts:49 | An earlier entry was never created after a later one. |
| BannerService.ApplyPatch | src/services/bannerService.ts:85-94 | Only the fields given change. No timestamp is touched. |
| BannerService.UpdateWhere | src/services/bannerService.ts:85-94 | The patch applies to the id's rows only. |
| BannerService.BannerBackend.UploadBannerImage | src/services/bannerService.ts:18-40 | Success stores the generated name in the bucket and returns its public URL. An error gives a prefixed message and no change. |
| BannerService.BannerBackend.CreateBanner | src/services/bannerService.ts:72-80 | Success appends the row. An error gives a prefixed message and no change. |
| BannerService.BannerBackend.UpdateBanner | src/services/bannerService.ts:85-94 | Success patches the id's row. An error gives a prefixed message and no change. |
| BannerService.BannerBackend.DeleteBanner | src/services/bannerService.ts:99-119 | The file is removed first, unless its name is empty or storage removal fails, which is ignored. The row is deleted unless the table errors. The error is thrown after the file is already gone. |
| BannerManagerPage.CheckFile | src/pages/Admin/BannerManager.tsx:27-36 | jpeg/png/gif/webp only. The type check comes first; then anything over 2·1024·1024 bytes is refused and exactly 2 MiB is accepted. |
| BannerManagerPage.CheckAlert | src/pages/Admin/BannerManager.tsx:28-35 | An alert is raised iff the file was refused. |
| BannerManagerPage.PositionFilter | src/pages/Admin/BannerManager.tsx:17 | `all` means no position filter. Any other value filters by itself. |
| BannerManagerPage.NewDraft | src/pages/Admin/BannerManager.tsx:97 | A new form is placed in `sidebar` and active, and is incomplete. |
| BannerManagerPage.EditDraft | src/pages/Admin/BannerManager.tsx:233 | The form for a listed banner passes the check iff the row has a name, an image URL and a position. It updates iff the id is non-empty, and its update sends the row's own editable fields. |
| BannerManagerPage.DraftPatch | src/pages/Admin/BannerManager.tsx:59 | An update sends the editable fields: name, image URL, link, position and active. The source also re-sends the row's own width, height, id and `created_at`, which the form cannot change. |
| BannerManagerPage.BannerManager.OpenNew | src/pages/Admin/BannerManager.tsx:97 | "Novo Banner" opens the blank form, which the save would refuse as it stands. |
| BannerManagerPage.BannerManager.OpenEdit | src/pages/Admin/BannerManager.tsx:233 | The edit button opens the form holding the listed banner, which saves as an update iff it has an id. |
| BannerManagerPage.BannerManager.Cancel | src/pages/Admin/BannerManager.tsx:207 | "Cancelar" closes the form. |
| BannerManagerPage.BannerManager.LoadBanners | src/pages/Admin/BannerManager.tsx:15-20 | Active and inactive banners, filtered by the tab. |
| BannerManagerPage.BannerManager.SetFilter | src/pages/Admin/BannerManager.tsx:11-13 | Choosing a tab reloads under that filter. |
| BannerManagerPage.BannerManager.HandleFileChange | src/pages/Admin/BannerManager.tsx:22-48 | No file does nothing. A refused file raises the alert and is never uploaded. An accepted file is uploaded and its URL put into the open form. An upload error is alerted. |
| BannerManagerPage.BannerManager.HandleSave | src/pages/Admin/BannerManager.tsx:50-76 | A form missing name, image URL or position is refused. An id updates the row; no id creates one with `active ?? true`. Success closes the form and reloads. An error alerts `Erro ao atualizar banner: …` or `Erro ao criar banner: …`, and the form stays open. |
| BannerManagerPage.BannerManager.HandleDelete | src/pages/Admin/BannerManager.tsx:78-87 | Only with confirmation. The effects are those of `deleteBanner`, and success reloads. |
| BannerManagerPage.AllTabListsEverything | src/pages/Admin/BannerManager.tsx:17 | The `all` tab lists every banner. |
| BannerManagerPage.PositionTabListsPlaced | src/pages/Admin/BannerManager.tsx:17 | A position tab lists exactly that position's banners, active or not. |
| BannerDisplayComponent.NextIndex | src/components/BannerDisplay.tsx:27 | `(i+1) mod len` lies in `[0,len)`: it advances by one and wraps after the last. |
| BannerDisplayComponent.Rotate | src/components/BannerDisplay.tsx:26-28 | After at least one tick, the index is in range. |
| BannerDisplayComponent.RotateWraps | src/components/BannerDisplay.tsx:27 | `k <= len` ticks advance by `k` and wrap once. |
| BannerDisplayComponent.FullCycleReturns | src/components/BannerDisplay.tsx:27 | `len` ticks return to the start. |
| BannerDisplayComponent.CycleVisitsEvery | src/components/BannerDisplay.tsx:27 | Within one cycle every banner is shown. |
| BannerDisplayComponent.CycleVisitsOnce | src/components/BannerDisplay.tsx:27 | Within one cycle no banner is shown twice. |
| BannerDisplayComponent.RenderOf | src/components/BannerDisplay.tsx:33-58 | Nothing renders for an empty list. An in-range index shows that banner, linked iff `link_url` is truthy. An out-of-range index fails. |
| BannerDisplayComponent.Carousel.constructor | src/components/BannerDisplay.tsx:10-11 | No banners, index 0. |
| BannerDisplayComponent.Carousel.Load | src/components/BannerDisplay.tsx:13-20 | The active banners of the position are loaded and the index is kept. |
| BannerDisplayComponent.Carousel.Tick | src/components/BannerDisplay.tsx:23-31 | It runs only with more than one banner and moves to the next index, in range. |
| BannerDisplayComponent.Carousel.Select | src/components/BannerDisplay.tsx:61-66 | The index becomes the clicked indicator's. |
| BannerDisplayComponent.Carousel.Render | src/components/BannerDisplay.tsx:33-58 | With an index in range, a banner from the list is shown. |
| BannerDisplayComponent.ShownBannerIsActiveHere | src/components/BannerDisplay.tsx:18 | A shown banner is active and belongs to the carousel's position. |
| BannerDisplayComponent.ShrinkingReloadOutrunsIndex | src/components/BannerDisplay.tsx:13-35 | A reload that shrinks the list to one banner leaves index 2 past the end, so the render fails. No timer or indicator is then there to repair it. |
| NowPlayingService.Single | src/services/nowPlayingService.ts:18-39 | `.single()` succeeds iff exactly one row matches and the query succeeds. |
| NowPlayingService.ToNowPlaying | src/services/nowPlayingService.ts:46-52 | Id, title and artist are copied. The cover falls back to the fixed image. Lyrics are empty. |
| NowPlayingService.GetNowPlaying | src/services/nowPlayingService.ts:15-58 | A result exists iff the singleton read succeeds, its row names a song, and the song lookup finds it. Otherwise the result is null. |
| NowPlayingService.NowPlayingIsNamedSong | src/services/nowPlayingService.ts:18-52 | A result describes the song that row 1 names, built from that song's row. |
| NowPlayingService.OnlySingletonRowRead | src/services/nowPlayingService.ts:18-22 | Only the row with id 1 matters. |
| NotificationService.ToNotification | src/services/notificationService.ts:24-31 | Id and `created_at` are kept. The name defaults to `Anônimo` and is never empty. The title is the message. |
| NotificationService.OnChange | src/services/notificationService.ts:13-36 | A notification is produced iff the event is an INSERT on `public.messages`. |
| NotificationService.PendingCount | src/services/notificationService.ts:41-48 | The number of rows whose status is null or `pending`. A missing count is 0. |
| RequestManagerPage.MarkPlayedRows | src/pages/Admin/RequestManager.tsx:48 | Only `status` of the id's rows becomes `played`. |
| RequestManagerPage.MarkPlayedLowersPending | src/pages/Admin/RequestManager.tsx:48 | Serving a request removes exactly its pending rows from the count. |
| RequestManagerPage.ToRequest | src/pages/Admin/RequestManager.tsx:36-43 | The defaults `Anônimo` and `pending` apply. The title is the message; the artist is empty. |
| RequestManagerPage.ShowsServeButton | src/pages/Admin/RequestManager.tsx:81 | A pending request shows the serve button; a played one does not. |
| RequestManagerPage.FetchRequests | src/pages/Admin/RequestManager.tsx:26-45 | One request per row, newest first. No data gives `[]`. |
| RequestManagerPage.FetchRequestsAt | src/pages/Admin/RequestManager.tsx:34-43 | The i-th request maps the i-th row in newest-first order. |
| RequestManagerPage.RequestsComeFromRows | src/pages/Admin/RequestManager.tsx:36-43 | Every request maps a stored message. |
| RequestManagerPage.EveryMessageListed | src/pages/Admin/RequestManager.tsx:34-43 | Every message is listed. |
| RequestManagerPage.ServedRequestHidden | src/pages/Admin/RequestManager.tsx:47-81 | After serving, the refetched request shows no serve button. |
| RequestManagerPage.MarkedRowIsPlayed | src/pages/Admin/RequestManager.tsx:48 | After marking, every row with the id is `played`. |
| RequestManagerPage.CountedPendingIsServable | src/pages/Admin/RequestManager.tsx:42-81 | A counted pending row shows the serve button. |
| RequestManagerPage.EmptyStatusShownButNotCounted | src/pages/Admin/RequestManager.tsx:42-81 | A `""` status is shown as pending with the button, but is left out of the pending count. |
| RequestManagerPage.RequestManager.Fetch | src/pages/Admin/RequestManager.tsx:18-24 | The inbox is the mapped listing; each realtime INSERT triggers this. |
| RequestManagerPage.RequestManager.MarkPlayed | src/pages/Admin/RequestManager.tsx:47-50 | The row is set to `played` (an update error is ignored), then refetched. |
| RequestManagerPage.RequestManager.DeleteRequest | src/pages/Admin/RequestManager.tsx:52-57 | Only with confirmation: delete (its error ignored), then refetch. |
| ScheduleManagerPage.DaySlots | src/pages/Admin/ScheduleManager.tsx:143 | That day's slots are exactly the slots of the listing whose day matches. |
| ScheduleManagerPage.DaySlotsIsFilter | src/pages/Admin/ScheduleManager.tsx:143 | That day's slots are `Filter` of the listing by weekday, so a sub-multiset of it in listing order. |
| ScheduleManagerPage.DayName | src/pages/Admin/ScheduleManager.tsx:14 | The `DAYS` entry: Sunday (0) is `Domingo`, and every name has five to seven characters. |
| ScheduleManagerPage.DayNamesDistinct | src/pages/Admin/ScheduleManager.tsx:14 | No two weekdays share a heading. |
| ScheduleManagerPage.NewItem | src/pages/Admin/ScheduleManager.tsx:67 | Day 1 (Segunda), 08:00 to 12:00, `Live`, no id. |
| ScheduleManagerPage.DisplayTime | src/pages/Admin/ScheduleManager.tsx:153-154 | The first five characters of the time, a prefix of it. |
| ScheduleManagerPage.FetchSchedule | src/pages/Admin/ScheduleManager.tsx:24-27 | The rows sorted by weekday. No data gives `[]`. |
| ScheduleManagerPage.SectionsFromAreDaySections | src/pages/Admin/ScheduleManager.tsx:142-144 | Each heading lists its own day's slots and is never empty. |
| ScheduleManagerPage.SectionsFromAscend | src/pages/Admin/ScheduleManager.tsx:142 | Headings follow weekday order. |
| ScheduleManagerPage.GroupByDay | src/pages/Admin/ScheduleManager.tsx:142-144 | Each heading is a weekday 0..6 with exactly its slots and none empty, in strictly ascending day order. |
| ScheduleManagerPage.DayWithSlotsHasSection | src/pages/Admin/ScheduleManager.tsx:142-144 | Every day with slots gets a heading. |
| ScheduleManagerPage.SlotInExactlyOneSection | src/pages/Admin/ScheduleManager.tsx:142-143 | A slot on day 0..6 is listed under its own day's heading and under no other. |
| ScheduleManagerPage.OutOfRangeSlotHidden | src/pages/Admin/ScheduleManager.tsx:142-143 | A slot whose day is outside 0..6 is never listed. |
| ScheduleManagerPage.ApplyPayload | src/pages/Admin/ScheduleManager.tsx:33-43 | The six fields are written as they are, and the row keeps its id. |
| ScheduleManagerPage.UpdateWhere | src/pages/Admin/ScheduleManager.tsx:43 | The payload goes only onto the id's rows. |
| ScheduleManagerPage.ScheduleManager.Fetch | src/pages/Admin/ScheduleManager.tsx:24-27 | The grid becomes `FetchSchedule` of the stored rows: all of them in weekday order, or none when no data comes back. |
| ScheduleManagerPage.ScheduleManager.OpenNew | src/pages/Admin/ScheduleManager.tsx:67 | "Novo Programa" opens the id-less template, which the save inserts. |
| ScheduleManagerPage.ScheduleManager.OpenEdit | src/pages/Admin/ScheduleManager.tsx:161 | The edit button opens the form holding the listed slot. |
| ScheduleManagerPage.ScheduleManager.Cancel | src/pages/Admin/ScheduleManager.tsx:132 | "Cancelar" closes the form. |
| ScheduleManagerPage.ScheduleManager.HandleSave | src/pages/Admin/ScheduleManager.tsx:29-50 | With no form, nothing happens. Otherwise the row is updated (with id) or inserted (without), with no start < end check and errors ignored. Then the form closes and the grid reloads. |
| ScheduleManagerPage.ScheduleManager.HandleDelete | src/pages/Admin/ScheduleManager.tsx:52-57 | Only with confirmation: delete (its error ignored), then reload. |
| YouTubeLinks.RunEnd | src/pages/Library.tsx:42 | `[^\/]+` stops at the first slash or at the end. |
| YouTubeLinks.SearchSlash | src/pages/Library.tsx:42 | Greedy `.+\/`: the last slash from which an id follows, or none. |
| YouTubeLinks.SearchQuery | src/pages/Library.tsx:42 | Greedy `.*[?&]v=`: the last viable position, or none. |
| YouTubeLinks.MatchAt | src/pages/Library.tsx:42 | A capture holds 11 id characters. |
| YouTubeLinks.MatchAtIff | src/pages/Library.tsx:42 | The attempt at a position succeeds iff some path through the expression starts there, and then it is one such path. |
| YouTubeLinks.MatchFromLeftmost | src/pages/Library.tsx:42-43 | The search succeeds iff the expression matches somewhere, and it takes the leftmost start. |
| YouTubeLinks.ExtractYouTubeId | src/pages/Library.tsx:41-44 | The result is `''` iff nothing matches. Otherwise it is 11 characters, none of `"&?/` or whitespace. |
| YouTubeLinks.EmptyIffNoMatch | src/pages/Library.tsx:43 | `''` iff the expression matches at no position. |
| YouTubeLinks.ShortLink | src/pages/Library.tsx:42 | `youtu.be/ID…` yields the 11 characters after the slash, whatever follows (no end anchor). |
| YouTubeLinks.EmbedLink | src/pages/Library.tsx:42 | `youtube.com/embed/ID…` yields ID (truncated to 11) when no slash follows. |
| YouTubeLinks.VideoPathLink | src/pages/Library.tsx:42 | `youtube.com/v/ID…` yields ID when no slash follows. |
| YouTubeLinks.WatchLink | src/pages/Library.tsx:42 | `youtube.com/watch?v=ID…` yields ID when no `/`, `?` or `&` follows. |
| YouTubeLinks.BareEmbedPath | src/pages/Library.tsx:42-43 | `youtube.com/embed/` with nothing after it yields `''`, when the text before the host holds no `y`. |
| YouTubeLinks.EmbedSrc | src/pages/Library.tsx:127 | The embed prefix followed by the extracted id. |
| YouTubeLinks.EmbedRoundTrip | src/pages/Library.tsx:42-127 | Extracting from the embed address gives back the link's own id (including `''`). |
| Text.LastSegment | src/services/bannerService.ts:101 | `split(sep).pop()`: the longest `sep`-free suffix, preceded by `sep` when shorter than the string. |
| Text.EncodeUriComponent | src/components/Layout/Player.tsx:147 | The output has only unreserved characters and `%`. Unreserved input is unchanged. |
| Text.ContainsIff | src/components/Layout/Player.tsx:128 | `includes` holds iff the piece occurs at some index. |
| Seqs.SortBy | src/services/streamService.ts:16-38 | `ORDER BY key ASC`: the result is sorted and is a permutation of the input. |
| Seqs.SortByIsStable | src/services/streamService.ts:20 | The elements sharing one key come out in their input order. |
| Seqs.Filter | src/services/streamService.ts:37 | The result keeps exactly the elements that pass, in a sub-multiset of the input. |

## Left out

- The media plumbing of the player is not modelled: the `Audio` element, the hls.js configuration, its `startLoad`/`recoverMediaError` calls and the MediaSession handlers. Only the state changes they cause are modelled, and the live hls.js instance is the `hlsSource` field.
- The volume slider and mute use floating point and are not modelled.
- `crossOrigin = 'anonymous'` on plain streams is not modelled.
- The `catch` of the player's stream-URL effect is not modelled. Both service calls it makes turn errors into values, so the model passes those errors as failure flags.
- The backend client is not modelled: the query builder, realtime channels, races between concurrent refetches, and the client's environment check. Each call is one atomic step that succeeds or fails.
- `playNotificationSound` (Web Audio), `geminiService.ts`, `supabaseService.ts`, the theme code, `NowPlayingManager.tsx` and the plain form pages are not part of this model.
- Loading and upload-progress flags only drive spinners and are not modelled.
- Seqs.SortBy: ties in `ORDER BY` keep their input order here (`Seqs.SortByIsStable`). The database leaves tie order unspecified.
- ScheduleManagerPage.FetchSchedule: the secondary `start_time` ordering is not modelled. The contract states only the weekday order.
- Timestamps (`created_at` of banners and messages) are integers that order rows the way their strings do.
- VotingService.ApprovalPercent: `Math.round` on a floating-point quotient is modelled as exact half-up rounding. A float artefact at an exact half is not modelled.
- BannerService.BannerBackend.UploadBannerImage: a storage error and a name collision (uploads never overwrite) are both the one `err` parameter.
- `Math.random().toString(36)` digits, `Date.now()` and `uuidv4()` are parameters and are not computed.
- YouTubeLinks.WatchLink: stated only for links with no `/`, `?` or `&` after the id. Other tails are covered by the general `MatchFromLeftmost`/`EmptyIffNoMatch` reading, not by a closed-form id.
- YouTubeLinks.ShortLink, YouTubeLinks.EmbedLink, YouTubeLinks.VideoPathLink, YouTubeLinks.WatchLink, YouTubeLinks.BareEmbedPath: these assume the text before the host holds no `y`, so that no earlier match can start there.
- NowPlayingService.GetNowPlaying: exceptions thrown inside the lookups are folded into the two failure flags. Its behaviour is stated by its own contract and by `NowPlayingIsNamedSong`.
- VoteButtonComponent.VoteButton.HandleVote: the vote button has no rollback on failure. The model follows the code: the new vote stays shown and the stats are not refreshed.
- Strings are sequences of Unicode code points, while JavaScript counts UTF-16 code units. The next three lines name the members this affects. Each differs from the source only on text outside the Basic Multilingual Plane, such as emoji.
- YouTubeLinks.ExtractYouTubeId: `IdLength` and `IdAt` count 11 code points. The source's expression has no `u` flag, so its `{11}` counts 11 code units and can split a surrogate pair. For example, `youtu.be/` followed by six emoji gives an 11-unit id in the source and `''` in the model.
- ScheduleManagerPage.DisplayTime: `substring(0, 5)` keeps five code units in the source and five code points here.
- Text.EncodeUriComponent: every code point is encoded here. `encodeURIComponent` throws `URIError` on a lone surrogate, which a code-point string cannot hold. The same holds for PlayerComponent.ProxyUrl, which uses it.
- StreamManagerPage.StreamManager.HandleSave: the order field stores `parseInt` of the input, which is NaN when the field is cleared. Here `displayOrder` is an integer or missing, so the NaN that `?? 0` lets through to the create or update is not represented. The source sends it as null, while the form shows 0.
- StreamManagerPage.DraftPatch: the same NaN `display_order` can reach the update and is not represented.
- BannerService.PublicUrl: `getPublicUrl` is taken to append the path verbatim. The storage client also applies `encodeURI` to the whole URL, and that is not modelled.
- BannerService.UploadDeleteRoundTrip: because of that assumption, the round trip holds in the source only for names that `encodeURI` leaves unchanged. Take an extension with a space or a non-ASCII character, such as `x.pñg`, or a dot-free name, which becomes its own extension. The last URL segment is then escaped, and `deleteBanner` removes nothing from storage.
- The form pages' per-field `onChange` handlers are not separate operations. `HandleSave` saves whatever draft the form holds, and the field edits that produce it are not modelled.
- The schedule form's weekday select stores `parseInt` of the option value, which is always an integer in 0..6 from the select. A NaN weekday is not represented.
- YouTubeLinks.BareEmbedPath: stated only when the text before the host holds no `y`. Otherwise an earlier link, such as `youtu.be/ABCDEFGHIJK ` before the bare embed path, yields its own id.
