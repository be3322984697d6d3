/**
 * The song on air (src/services/nowPlayingService.ts): the singleton
 * `now_playing` row names a song, and the song's row is turned into the
 * record the UI shows.
 */
module NowPlayingService {
  import opened Common
  import opened Seqs

  /** A row of `now_playing`; `songId` is nullable. */
  datatype NowPlayingRow = NowPlayingRow(id: int, songId: Option<string>)

  /** The columns of a `songs` row that are read. */
  datatype SongRow = SongRow(id: string, title: string, artist: string, albumArtUrl: Option<string>)

  /** The record handed to the UI. */
  datatype NowPlayingSong = NowPlayingSong(id: string, title: string, artist: string, coverUrl: string, lyrics: seq<string>)

  const FallbackCover: string := "https://images.unsplash.com/photo-1470225620780-dba8ba36b745?w=800&auto=format&fit=crop"

  /** `.single()`: exactly one matching row, else an error (here None). */
  function Single<T>(rows: seq<T>, fails: bool): (r: Option<T>)
    ensures r.Some? <==> !fails && |rows| == 1
    ensures r.Some? ==> r.value == rows[0]
  {
    if fails || |rows| != 1 then None else Some(rows[0])
  }

  predicate IsSingleton(row: NowPlayingRow)
  {
    row.id == 1
  }

  function HasSongId(id: string): SongRow -> bool
  {
    (s: SongRow) => s.id == id
  }

  /** The UI record for a song row: the cover falls back to a fixed image, and no lyrics. */
  function ToNowPlaying(s: SongRow): (n: NowPlayingSong)
    ensures n.id == s.id && n.title == s.title && n.artist == s.artist
    ensures n.coverUrl == (if Truthy(s.albumArtUrl) then s.albumArtUrl.value else FallbackCover)
    ensures n.coverUrl != "" && n.lyrics == []
  {
    NowPlayingSong(s.id, s.title, s.artist, OrElse(s.albumArtUrl, FallbackCover), [])
  }

  /**
   * `getNowPlaying()`: None when reading the singleton row fails, when it
   * names no song, or when the song lookup fails or finds nothing.
   * `nowPlayingFails` and `songFails` stand for any error of the two queries.
   */
  function GetNowPlaying(nowPlaying: seq<NowPlayingRow>, nowPlayingFails: bool,
                         songs: seq<SongRow>, songFails: bool): (r: Option<NowPlayingSong>)
    ensures r.Some? <==>
              !nowPlayingFails && |Filter(nowPlaying, IsSingleton)| == 1
              && Truthy(Filter(nowPlaying, IsSingleton)[0].songId) && !songFails
              && |Filter(songs, HasSongId(Filter(nowPlaying, IsSingleton)[0].songId.value))| == 1
  {
    match Single(Filter(nowPlaying, IsSingleton), nowPlayingFails)
    case None => None
    case Some(row) =>
      if !Truthy(row.songId) then None
      else
        match Single(Filter(songs, HasSongId(row.songId.value)), songFails)
        case None => None
        case Some(song) => Some(ToNowPlaying(song))
  }

  /** A result describes the song the singleton row names, copied from that song's row. */
  lemma NowPlayingIsNamedSong(nowPlaying: seq<NowPlayingRow>, nowPlayingFails: bool, songs: seq<SongRow>, songFails: bool)
    requires GetNowPlaying(nowPlaying, nowPlayingFails, songs, songFails).Some?
    ensures var n := GetNowPlaying(nowPlaying, nowPlayingFails, songs, songFails).value;
            (exists row :: row in nowPlaying && row.id == 1 && row.songId == Some(n.id))
            && (exists s :: s in songs && ToNowPlaying(s) == n)
  {
    var rows := Filter(nowPlaying, IsSingleton);
    var row := rows[0];
    assert row in rows;
    var matches := Filter(songs, HasSongId(row.songId.value));
    assert matches[0] in matches;
  }

  /** Only the row with id 1 is consulted: other `now_playing` rows never matter. */
  lemma OnlySingletonRowRead(nowPlaying: seq<NowPlayingRow>, nowPlayingFails: bool, songs: seq<SongRow>, songFails: bool)
    ensures GetNowPlaying(Filter(nowPlaying, IsSingleton), nowPlayingFails, songs, songFails)
         == GetNowPlaying(nowPlaying, nowPlayingFails, songs, songFails)
  {
    FilterAll(Filter(nowPlaying, IsSingleton), IsSingleton);
  }
}
