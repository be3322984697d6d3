/**
 * The audio player (src/components/Layout/Player.tsx): how it picks its stream
 * URL, how a URL is routed to the audio element (direct, through the CORS
 * proxy, through hls.js or native HLS), and the playback state machine driven
 * by the play button and the media events.
 */
module PlayerComponent {
  import opened Common
  import opened Text
  import opened StreamService
  import SettingsService

  datatype PlaybackState = Idle | Loading | Playing | Paused | Error

  /** What the browser offers for an `.m3u8` URL: `Hls.isSupported()`, else `canPlayType`. */
  datatype HlsSupport = HlsJs | NativeHls | NoHls

  /** The result of `audio.play()`: no promise, a resolved promise, or a rejection by error name. */
  datatype PlayResult = NoPromise | Resolved | Rejected(errorName: string)

  /** `Hls.ErrorTypes` as far as the error handler distinguishes them. */
  datatype HlsErrorType = NetworkError | MediaError | OtherHlsError

  const ProxyPrefix: string := "https://api.allorigins.win/raw?url="
  const MixedContentMessage: string := "Stream HTTP bloqueado. Use HTTPS ou configure um proxy."
  const HlsFatalMessage: string := "Erro ao carregar stream HLS"
  const NoHlsMessage: string := "Navegador não suporta HLS"

  /** `DEFAULT_STREAM`: the build-time stream URL, else the station's fallback. */
  function DefaultStreamUrl(env: string): (r: string)
    ensures r != ""
    ensures r == SettingsService.DefaultSettings(env)["stream_url"]
  {
    if env != "" then env else SettingsService.FallbackStreamUrl
  }

  /** The URL names an HLS playlist. */
  predicate IsM3U8(url: string): (b: bool)
    ensures b <==> (exists i :: HasAt(url, i, ".m3u8")) || (exists i :: HasAt(url, i, "playlist"))
  {
    ContainsIff(url, ".m3u8");
    ContainsIff(url, "playlist");
    Contains(url, ".m3u8") || Contains(url, "playlist")
  }

  /** `useCorsProxy(url)`. */
  function ProxyUrl(url: string): (r: string)
    ensures StartsWith(r, ProxyPrefix)
  {
    var r := ProxyPrefix + EncodeUriComponent(url);
    assert r[..|ProxyPrefix|] == ProxyPrefix;
    r
  }

  /** Everything after the proxy prefix is URI-safe: the original URL travels as one query value. */
  lemma ProxyQueryIsEncoded(url: string)
    ensures forall i :: |ProxyPrefix| <= i < |ProxyUrl(url)| ==> IsUriSafe(ProxyUrl(url)[i])
  {
    var e := EncodeUriComponent(url);
    assert forall i :: |ProxyPrefix| <= i < |ProxyPrefix + e| ==> (ProxyPrefix + e)[i] == e[i - |ProxyPrefix|];
  }

  /** A proxied URL names the proxy host, so it is never proxied again. */
  lemma ProxyUrlNamesProxy(url: string)
    ensures Contains(ProxyUrl(url), "allorigins")
  {
    var tail := ".win/raw?url=" + EncodeUriComponent(url);
    ProxyPrefixSplit(EncodeUriComponent(url));
    ContainsMiddle("https://api.", "allorigins", tail);
  }

  lemma ProxyPrefixSplit(x: string)
    ensures ProxyPrefix + x == "https://api." + "allorigins" + (".win/raw?url=" + x)
  {
  }

  /** `finalStreamUrl`: non-HLS URLs that are not already proxied go through the proxy. */
  function FinalStreamUrl(url: string): (r: string)
    ensures IsM3U8(url) || Contains(url, "allorigins") ==> r == url
    ensures !IsM3U8(url) && !Contains(url, "allorigins") ==> r == ProxyUrl(url)
  {
    if !IsM3U8(url) && !Contains(url, "allorigins") then ProxyUrl(url) else url
  }

  /** Routing a URL twice changes nothing: the proxy is never applied twice. */
  lemma ProxyAppliedOnce(url: string)
    ensures FinalStreamUrl(FinalStreamUrl(url)) == FinalStreamUrl(url)
  {
    ProxyUrlNamesProxy(url);
  }

  /** An HTTPS page refuses a plain `http:` stream before any proxying is considered. */
  predicate IsMixedContent(pageProtocol: string, url: string): (b: bool)
    ensures b ==> pageProtocol == "https:" && |url| >= 5 && url[4] == ':'
    ensures b ==> !StartsWith(url, "https:")
    ensures pageProtocol != "https:" ==> !b
  {
    pageProtocol == "https:" && StartsWith(url, "http:")
  }

  /** The `onerror` message for `audio.error.code` (None when `audio.error` is null). */
  function MediaErrorMessage(code: Option<int>): (r: string)
    ensures r != ""
    ensures r == "Erro ao reproduzir stream" <==> code.None? || !(1 <= code.value <= 4)
  {
    match code
    case Some(1) => "Reprodução abortada"
    case Some(2) => "Erro de rede ao carregar stream"
    case Some(3) => "Erro ao decodificar stream"
    case Some(4) => "Formato de stream não suportado"
    case _ => "Erro ao reproduzir stream"
  }

  /** The message shown when `audio.play()` rejects with an error of the given name. */
  function PlayErrorMessage(errorName: string): (r: string)
    ensures r != ""
    ensures r == "Erro ao reproduzir" <==> errorName != "NotAllowedError" && errorName != "NotSupportedError"
  {
    if errorName == "NotAllowedError" then "Navegador bloqueou o áudio. Clique novamente."
    else if errorName == "NotSupportedError" then "Formato não suportado"
    else "Erro ao reproduzir"
  }

  /** The `stream_url` that `getSettings()` yields: a stored row wins over the defaults. */
  function SettingsStreamUrl(rows: seq<SettingsService.SettingRow>, fails: bool, env: string): (r: string)
    ensures fails ==> r == DefaultStreamUrl(env)
    ensures !fails && "stream_url" in SettingsService.RowsToMap(rows) ==> r == SettingsService.RowsToMap(rows)["stream_url"]
    ensures !fails && "stream_url" !in SettingsService.RowsToMap(rows) ==> r == DefaultStreamUrl(env)
  {
    if fails then DefaultStreamUrl(env)
    else (SettingsService.DefaultSettings(env) + SettingsService.RowsToMap(rows))["stream_url"]
  }

  class Player {
    var playbackState: PlaybackState
    var isLive: bool
    var streamUrl: string
    var errorMessage: Option<string>
    /** `audio.src` as last assigned by the player. */
    var audioSrc: string
    /** The URL loaded into the live hls.js instance; None when there is none. */
    var hlsSource: Option<string>

    /** Every error state carries a message to show, and the player always reports live. */
    ghost predicate Valid()
      reads this
    {
      (playbackState == Error ==> errorMessage.Some? && errorMessage.value != "") && isLive
    }

    constructor (env: string)
      ensures Valid()
      ensures playbackState == Idle && isLive && streamUrl == DefaultStreamUrl(env)
      ensures errorMessage == None && audioSrc == "" && hlsSource == None
    {
      playbackState := Idle;
      isLive := true;
      streamUrl := DefaultStreamUrl(env);
      errorMessage := None;
      audioSrc := "";
      hlsSource := None;
    }

    /**
     * The mount effect: the first active stream wins; with none, a truthy
     * `stream_url` setting; otherwise the URL stays as it was.
     */
    method LoadStreamUrl(table: seq<RadioStream>, streamsFail: bool,
                         settingRows: seq<SettingsService.SettingRow>, settingsFail: bool, env: string)
      modifies this`streamUrl
      ensures var active := GetActiveStreams(table, streamsFail);
              active != [] ==> streamUrl == active[0].streamUrl
      ensures var url := SettingsStreamUrl(settingRows, settingsFail, env);
              GetActiveStreams(table, streamsFail) == [] ==> streamUrl == (if url != "" then url else old(streamUrl))
      ensures GetActiveStreams(table, streamsFail) == [] && (settingsFail || "stream_url" !in SettingsService.RowsToMap(settingRows)) ==>
                streamUrl == DefaultStreamUrl(env) != ""
    {
      var streams := GetActiveStreams(table, streamsFail);
      if |streams| > 0 {
        streamUrl := streams[0].streamUrl;
        return;
      }
      var settings := SettingsService.GetSettings(settingRows, settingsFail, env);
      if settings["stream_url"] != "" {
        streamUrl := settings["stream_url"];
      }
    }

    /** The effect on `[streamUrl]`: tear down hls.js, then route the URL to the audio element. */
    method ApplyStreamUrl(pageProtocol: string, support: HlsSupport)
      requires Valid()
      modifies this
      ensures Valid()
      ensures streamUrl == old(streamUrl) && isLive == old(isLive)
      ensures old(streamUrl) == "" ==> unchanged(this)
      ensures streamUrl != "" && IsMixedContent(pageProtocol, streamUrl) ==>
                playbackState == Error && errorMessage == Some(MixedContentMessage)
                && hlsSource == None && audioSrc == old(audioSrc)
      ensures streamUrl != "" && !IsMixedContent(pageProtocol, streamUrl) && !IsM3U8(streamUrl) ==>
                audioSrc == FinalStreamUrl(streamUrl) && hlsSource == None
                && playbackState == old(playbackState) && errorMessage == old(errorMessage)
      ensures streamUrl != "" && !IsMixedContent(pageProtocol, streamUrl) && IsM3U8(streamUrl) && support == HlsJs ==>
                hlsSource == Some(streamUrl) && audioSrc == old(audioSrc)
                && playbackState == old(playbackState) && errorMessage == old(errorMessage)
      ensures streamUrl != "" && !IsMixedContent(pageProtocol, streamUrl) && IsM3U8(streamUrl) && support == NativeHls ==>
                audioSrc == streamUrl && hlsSource == None
                && playbackState == old(playbackState) && errorMessage == old(errorMessage)
      ensures streamUrl != "" && !IsMixedContent(pageProtocol, streamUrl) && IsM3U8(streamUrl) && support == NoHls ==>
                playbackState == Error && errorMessage == Some(NoHlsMessage)
                && hlsSource == None && audioSrc == old(audioSrc)
    {
      if streamUrl == "" {
        return;
      }
      var isM3U8 := IsM3U8(streamUrl);
      hlsSource := None;
      if IsMixedContent(pageProtocol, streamUrl) {
        errorMessage := Some(MixedContentMessage);
        playbackState := Error;
        return;
      }
      var finalStreamUrl := streamUrl;
      if !isM3U8 && !Contains(streamUrl, "allorigins") {
        finalStreamUrl := ProxyUrl(streamUrl);
      }
      if isM3U8 {
        match support
        case HlsJs =>
          hlsSource := Some(streamUrl);
        case NativeHls =>
          audioSrc := streamUrl;
        case NoHls =>
          errorMessage := Some(NoHlsMessage);
          playbackState := Error;
      } else {
        audioSrc := finalStreamUrl;
      }
    }

    /** `togglePlay()`: pause when playing, otherwise start playback and report its outcome. */
    method TogglePlay(result: PlayResult)
      requires Valid()
      modifies this`playbackState, this`errorMessage, this`isLive
      ensures Valid()
      ensures old(playbackState) == Playing ==> playbackState == Paused && errorMessage == old(errorMessage)
      ensures old(playbackState) != Playing && result == NoPromise ==> playbackState == Loading && errorMessage == None
      ensures old(playbackState) != Playing && result == Resolved ==> playbackState == Playing && errorMessage == None
      ensures old(playbackState) != Playing && result.Rejected? ==>
                playbackState == Error && errorMessage == Some(PlayErrorMessage(result.errorName))
    {
      if playbackState == Playing {
        playbackState := Paused;
      } else {
        playbackState := Loading;
        errorMessage := None;
        match result
        case NoPromise =>
        case Resolved =>
          playbackState := Playing;
          isLive := true;
        case Rejected(name) =>
          errorMessage := Some(PlayErrorMessage(name));
          playbackState := Error;
      }
    }

    /** `onloadstart`. */
    method OnLoadStart()
      requires Valid()
      modifies this`playbackState, this`errorMessage
      ensures Valid() && playbackState == Loading && errorMessage == None
    {
      playbackState := Loading;
      errorMessage := None;
    }

    /** `onplaying`. */
    method OnPlaying()
      requires Valid()
      modifies this`playbackState, this`isLive
      ensures Valid() && playbackState == Playing && isLive
    {
      playbackState := Playing;
      isLive := true;
    }

    /** `onpause`: the error message, if any, is left in place. */
    method OnPause()
      requires Valid()
      modifies this`playbackState
      ensures Valid() && playbackState == Paused
    {
      playbackState := Paused;
    }

    /** `onerror`, with `audio.error?.code`. */
    method OnError(code: Option<int>)
      requires Valid()
      modifies this`playbackState, this`errorMessage
      ensures Valid() && playbackState == Error && errorMessage == Some(MediaErrorMessage(code))
    {
      errorMessage := Some(MediaErrorMessage(code));
      playbackState := Error;
    }

    /**
     * An `Hls.Events.ERROR` from the live instance: fatal network and media
     * errors are recovered in place; any other fatal error destroys the instance.
     */
    method OnHlsError(fatal: bool, kind: HlsErrorType)
      requires Valid() && hlsSource.Some?
      modifies this`playbackState, this`errorMessage, this`hlsSource
      ensures Valid()
      ensures fatal && kind == OtherHlsError ==>
                playbackState == Error && errorMessage == Some(HlsFatalMessage) && hlsSource == None
      ensures !(fatal && kind == OtherHlsError) ==>
                playbackState == old(playbackState) && errorMessage == old(errorMessage) && hlsSource == old(hlsSource)
    {
      if fatal {
        match kind
        case NetworkError =>
        case MediaError =>
        case OtherHlsError =>
          errorMessage := Some(HlsFatalMessage);
          playbackState := Error;
          hlsSource := None;
      }
    }
  }

  /**
   * The URL the player settles on after mount: the lowest-ordered active stream
   * when the table has one active row.
   */
  lemma ChosenStreamHasLowestOrder(table: seq<RadioStream>, s: RadioStream)
    requires s in table && s.isActive
    ensures var active := GetActiveStreams(table, false);
            active != [] && active[0] in table && active[0].isActive
            && active[0].displayOrder <= s.displayOrder
  {
    FirstActiveHasLowestOrder(table, s);
    ActiveStreamsAreActiveRows(table, GetActiveStreams(table, false)[0]);
  }
}
