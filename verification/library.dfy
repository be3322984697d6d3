/**
 * YouTube links in the song library (src/pages/Library.tsx): the video id a
 * link yields under the page's regular expression, and the embed address
 * built from it.
 *
 * The expression is `(?:youtube\.com\/(?:A|B|C)|youtu\.be\/)(ID)` with
 *   A = `[^\/]+\/.+\/`, B = `(?:v|e(?:mbed)?)\/`, C = `.*[?&]v=` and
 *   ID = `[^"&?\/\s]{11}`.
 * `String.prototype.match` without the `g` flag reports the first match found
 * by a backtracking search: the leftmost start position and, at that
 * position, the first alternative that succeeds, each greedy quantifier
 * trying its longest run first. The functions below follow that search.
 */
module YouTubeLinks {
  import opened Common
  import opened Text

  const IdLength: nat := 11
  const EmbedHost: string := "https://www."
  /** `https://www.youtube.com/embed/`. */
  const EmbedPrefix: string := EmbedHost + "youtube.com/" + "embed/"

  /** `\s`: the characters JavaScript counts as white space or line terminators. */
  predicate IsJsSpace(c: char)
  {
    c == '\t' || c == '\n' || c == '\U{B}' || c == '\U{C}' || c == '\r' || c == ' '
    || c == '\U{A0}' || c == '\U{1680}' || ('\U{2000}' <= c <= '\U{200A}')
    || c == '\U{2028}' || c == '\U{2029}' || c == '\U{202F}' || c == '\U{205F}'
    || c == '\U{3000}' || c == '\U{FEFF}'
  }

  /** The characters `.` does not match. */
  predicate IsLineTerminator(c: char)
  {
    c == '\n' || c == '\r' || c == '\U{2028}' || c == '\U{2029}'
  }

  /** `[^"&?\/\s]`. */
  predicate IsIdChar(c: char)
  {
    c != '"' && c != '&' && c != '?' && c != '/' && !IsJsSpace(c)
  }

  /** A string the ID group can match in full. */
  predicate IsVideoId(id: string)
  {
    |id| == IdLength && forall c :: c in id ==> IsIdChar(c)
  }

  /** The ID group matches at `i`. */
  predicate IdAt(s: string, i: int)
  {
    0 <= i && i + IdLength <= |s| && forall k :: i <= k < i + IdLength ==> IsIdChar(s[k])
  }

  /** `.` matches every character in `s[a..b]`. */
  predicate NoLineBreak(s: string, a: int, b: int)
    requires 0 <= a <= b <= |s|
  {
    forall k :: a <= k < b ==> !IsLineTerminator(s[k])
  }

  /** The end of the maximal run of non-slash characters from `q`: where `[^\/]+` stops. */
  function RunEnd(s: string, q: int): (m: int)
    requires 0 <= q <= |s|
    ensures q <= m <= |s|
    ensures forall k :: q <= k < m ==> s[k] != '/'
    ensures m < |s| ==> s[m] == '/'
    decreases |s| - q
  {
    if q == |s| || s[q] == '/' then q else RunEnd(s, q + 1)
  }

  /** Alternative A after its first slash at `m`: `.+` up to a slash at `k`, then the id. */
  predicate SlashThenId(s: string, m: int, k: int)
  {
    0 <= m && m + 2 <= k < |s| && s[k] == '/' && NoLineBreak(s, m + 1, k) && IdAt(s, k + 1)
  }

  /** Greedy `.+\/`: the last slash position `k <= j` from which the id follows. */
  function SearchSlash(s: string, m: int, j: int): (r: Option<int>)
    requires 0 <= m && j < |s|
    ensures r.Some? ==> SlashThenId(s, m, r.value - 1)
    ensures r.Some? ==> forall k :: r.value - 1 < k <= j ==> !SlashThenId(s, m, k)
    ensures r.None? ==> forall k :: m + 2 <= k <= j ==> !SlashThenId(s, m, k)
    decreases j
  {
    if j < m + 2 then None
    else if SlashThenId(s, m, j) then Some(j + 1)
    else SearchSlash(s, m, j - 1)
  }

  /** Alternative C: `.*` from `q` up to a `?` or `&` at `k`, then `v=`, then the id. */
  predicate QueryThenId(s: string, q: int, k: int)
  {
    0 <= q <= k && k + 3 <= |s| && (s[k] == '?' || s[k] == '&') && s[k + 1] == 'v' && s[k + 2] == '='
    && NoLineBreak(s, q, k) && IdAt(s, k + 3)
  }

  /** Greedy `.*[?&]v=`: the last such position `k <= j`. */
  function SearchQuery(s: string, q: int, j: int): (r: Option<int>)
    requires 0 <= q && j < |s|
    ensures r.Some? ==> QueryThenId(s, q, r.value - 3)
    ensures r.Some? ==> forall k :: r.value - 3 < k <= j ==> !QueryThenId(s, q, k)
    ensures r.None? ==> forall k :: q <= k <= j ==> !QueryThenId(s, q, k)
    decreases j
  {
    if j < q then None
    else if QueryThenId(s, q, j) then Some(j + 3)
    else SearchQuery(s, q, j - 1)
  }

  /** Alternative A from `q` (just after `youtube.com/`): the id position, if any. */
  function MatchA(s: string, q: int): (r: Option<int>)
    requires 0 <= q <= |s|
  {
    var m := RunEnd(s, q);
    if q < m < |s| then SearchSlash(s, m, |s| - 1) else None
  }

  /** Alternative B from `q`: `v/`, then `embed/`, then `e/`. */
  function MatchB(s: string, q: int): (r: Option<int>)
    requires 0 <= q
  {
    if HasAt(s, q, "v/") && IdAt(s, q + 2) then Some(q + 2)
    else if HasAt(s, q, "embed/") && IdAt(s, q + 6) then Some(q + 6)
    else if HasAt(s, q, "e/") && IdAt(s, q + 2) then Some(q + 2)
    else None
  }

  /** The match attempt at start position `p`, alternatives in the expression's order. */
  function MatchAt(s: string, p: int): (r: Option<int>)
    requires 0 <= p <= |s|
    ensures r.Some? ==> IdAt(s, r.value)
  {
    var viaWatch :=
      if HasAt(s, p, "youtube.com/") then
        var q := p + 12;
        var a := MatchA(s, q);
        if a.Some? then a
        else
          var b := MatchB(s, q);
          if b.Some? then b else SearchQuery(s, q, |s| - 1)
      else None;
    if viaWatch.Some? then viaWatch
    else if HasAt(s, p, "youtu.be/") && IdAt(s, p + 9) then Some(p + 9)
    else None
  }

  /** The leftmost start position from `p` on at which the expression matches. */
  function MatchFrom(s: string, p: int): (r: Option<int>)
    requires 0 <= p <= |s|
    ensures r.Some? ==> IdAt(s, r.value)
    decreases |s| - p
  {
    var here := MatchAt(s, p);
    if here.Some? then here
    else if p == |s| then None
    else MatchFrom(s, p + 1)
  }

  /** `extractYouTubeId(url)`: the captured id, or the empty string when nothing matches. */
  function ExtractYouTubeId(url: string): (id: string)
    ensures id == "" || IsVideoId(id)
    ensures id == "" <==> MatchFrom(url, 0).None?
  {
    match MatchFrom(url, 0)
    case None => ""
    case Some(i) =>
      var id := url[i..i + IdLength];
      assert forall c :: c in id ==> IsIdChar(c) by {
        forall c | c in id ensures IsIdChar(c) {
          var k :| 0 <= k < |id| && id[k] == c;
          assert url[i + k] == c;
        }
      }
      id
  }

  /** The iframe source for a song's link. */
  function EmbedSrc(url: string): (src: string)
    ensures |src| == |EmbedPrefix| + |ExtractYouTubeId(url)| && src[..|EmbedPrefix|] == EmbedPrefix
  {
    EmbedPrefix + ExtractYouTubeId(url)
  }

  // ----- The declarative reading of the expression -----

  /** Alternative A in full, with the run ending at the first slash `m` and `.+` ending at `k`. */
  ghost predicate PathA(s: string, q: int, i: int)
  {
    exists m, k :: 0 <= q < m < |s| && (forall t :: q <= t < m ==> s[t] != '/') && s[m] == '/'
                   && SlashThenId(s, m, k) && i == k + 1
  }

  ghost predicate PathB(s: string, q: int, i: int)
  {
    0 <= q && IdAt(s, i)
    && ((HasAt(s, q, "v/") && i == q + 2) || (HasAt(s, q, "embed/") && i == q + 6) || (HasAt(s, q, "e/") && i == q + 2))
  }

  ghost predicate PathC(s: string, q: int, i: int)
  {
    exists k :: QueryThenId(s, q, k) && i == k + 3
  }

  /** Some way through the expression starts at `p` and captures the id at `i`. */
  ghost predicate MatchesAt(s: string, p: int, i: int)
  {
    (HasAt(s, p, "youtube.com/") && (PathA(s, p + 12, i) || PathB(s, p + 12, i) || PathC(s, p + 12, i)))
    || (HasAt(s, p, "youtu.be/") && i == p + 9 && IdAt(s, i))
  }

  lemma MatchASound(s: string, q: int)
    requires 0 <= q <= |s| && MatchA(s, q).Some?
    ensures PathA(s, q, MatchA(s, q).value)
  {
    var m := RunEnd(s, q);
    var k := MatchA(s, q).value - 1;
    assert SlashThenId(s, m, k);
  }

  lemma MatchAComplete(s: string, q: int, i: int)
    requires 0 <= q <= |s| && PathA(s, q, i)
    ensures MatchA(s, q).Some?
  {
    var m, k :| 0 <= q < m < |s| && (forall t :: q <= t < m ==> s[t] != '/') && s[m] == '/'
                && SlashThenId(s, m, k) && i == k + 1;
    assert RunEnd(s, q) == m;
  }

  /** The attempt at one position succeeds exactly when some way through the expression exists there. */
  lemma MatchAtIff(s: string, p: int)
    requires 0 <= p <= |s|
    ensures MatchAt(s, p).Some? ==> MatchesAt(s, p, MatchAt(s, p).value)
    ensures (exists i :: MatchesAt(s, p, i)) ==> MatchAt(s, p).Some?
  {
    var q := p + 12;
    if HasAt(s, p, "youtube.com/") {
      if MatchA(s, q).Some? {
        MatchASound(s, q);
      } else if MatchB(s, q).None? && SearchQuery(s, q, |s| - 1).Some? {
        assert QueryThenId(s, q, SearchQuery(s, q, |s| - 1).value - 3);
      }
    }
    if exists i :: MatchesAt(s, p, i) {
      var i :| MatchesAt(s, p, i);
      if HasAt(s, p, "youtube.com/") && PathA(s, q, i) {
        MatchAComplete(s, q, i);
      } else if HasAt(s, p, "youtube.com/") && PathC(s, q, i) {
        var k :| QueryThenId(s, q, k) && i == k + 3;
      }
    }
  }

  /** The search returns an id exactly when some start position from `p` on matches, and takes the leftmost. */
  lemma {:induction false} MatchFromLeftmost(s: string, p: int)
    requires 0 <= p <= |s|
    ensures MatchFrom(s, p).Some? ==>
              exists t :: p <= t <= |s| && MatchesAt(s, t, MatchFrom(s, p).value)
                          && forall t' :: p <= t' < t ==> MatchAt(s, t').None?
    ensures (exists t, i :: p <= t <= |s| && MatchesAt(s, t, i)) ==> MatchFrom(s, p).Some?
    decreases |s| - p
  {
    MatchAtIff(s, p);
    if MatchAt(s, p).None? && p < |s| {
      MatchFromLeftmost(s, p + 1);
      if MatchFrom(s, p).Some? {
        var t :| p + 1 <= t <= |s| && MatchesAt(s, t, MatchFrom(s, p).value)
                 && forall t' :: p + 1 <= t' < t ==> MatchAt(s, t').None?;
        assert forall t' :: p <= t' < t ==> MatchAt(s, t').None?;
      }
      if exists t, i :: p <= t <= |s| && MatchesAt(s, t, i) {
        var t, i :| p <= t <= |s| && MatchesAt(s, t, i);
        if t != p {
          assert p + 1 <= t <= |s| && MatchesAt(s, t, i);
        }
      }
    } else if MatchAt(s, p).Some? {
      assert MatchesAt(s, p, MatchFrom(s, p).value);
    }
  }

  /** The id is empty exactly when the expression matches nowhere in the link. */
  lemma EmptyIffNoMatch(url: string)
    ensures ExtractYouTubeId(url) == "" <==> forall t, i :: 0 <= t <= |url| ==> !MatchesAt(url, t, i)
  {
    MatchFromLeftmost(url, 0);
  }

  // ----- The link shapes the library stores -----

  /** An occurrence of `w` at `p` agrees with `w` character by character. */
  lemma CharOf(s: string, p: int, w: string, i: int)
    requires 0 <= i < |w|
    ensures HasAt(s, p, w) ==> s[p + i] == w[i]
  {
    if HasAt(s, p, w) {
      assert s[p..p + |w|][i] == s[p + i];
    }
  }

  /** Every character of an occurrence of `w` is a character of `w`. */
  lemma InPiece(s: string, p: int, w: string)
    requires HasAt(s, p, w)
    ensures forall k :: p <= k < p + |w| ==> s[k] in w
  {
    forall k | p <= k < p + |w| ensures s[k] in w {
      assert s[k] == s[p..p + |w|][k - p];
    }
  }

  /** The middle piece of a concatenation occurs right after the first. */
  lemma PieceAt(a: string, b: string, c: string)
    ensures HasAt(a + b + c, |a|, b)
  {
    assert (a + b + c)[|a|..|a| + |b|] == b;
  }

  /** An occurrence of `u + v` is an occurrence of `u` followed by one of `v`. */
  lemma HasAtSplit(s: string, p: int, u: string, v: string)
    requires HasAt(s, p, u + v)
    ensures HasAt(s, p, u) && HasAt(s, p + |u|, v)
  {
    assert s[p..p + |u|] == (u + v)[..|u|];
    assert s[p + |u|..p + |u| + |v|] == (u + v)[|u|..];
  }

  /** `RunEnd` stops at the first slash from `q`, or at the end. */
  lemma RunEndAt(s: string, q: int, m: int)
    requires 0 <= q <= m <= |s|
    requires forall k :: q <= k < m ==> s[k] != '/'
    requires m < |s| ==> s[m] == '/'
    ensures RunEnd(s, q) == m
  {
    var e := RunEnd(s, q);
    assert !(e < m) && !(m < e);
  }

  /** With no slash after `m`, the greedy `.+\/` of alternative A finds nothing. */
  lemma NoSlashAfter(s: string, m: int)
    requires 0 <= m && forall k :: m < k < |s| ==> s[k] != '/'
    ensures SearchSlash(s, m, |s| - 1).None?
  {
  }

  /** With no `?` or `&` from `q` on, alternative C finds nothing. */
  lemma NoQueryAfter(s: string, q: int)
    requires 0 <= q && forall k :: q <= k < |s| ==> s[k] != '?' && s[k] != '&'
    ensures SearchQuery(s, q, |s| - 1).None?
  {
  }

  /** With no `?` or `&` after a viable `k0`, the greedy query search settles on `k0`. */
  lemma LastQueryAt(s: string, q: int, k0: int)
    requires QueryThenId(s, q, k0)
    requires forall k :: k0 < k < |s| ==> s[k] != '?' && s[k] != '&'
    ensures SearchQuery(s, q, |s| - 1) == Some(k0 + 3)
  {
    var r := SearchQuery(s, q, |s| - 1);
    assert r.Some?;
    assert !(r.value - 3 < k0);
  }

  /** No attempt can start on a character other than `y`: the search passes over such text. */
  lemma {:induction false} SkipNoY(s: string, p: int, e: int)
    requires 0 <= p <= e <= |s|
    requires forall t :: p <= t < e ==> s[t] != 'y'
    ensures MatchFrom(s, p) == MatchFrom(s, e)
    decreases e - p
  {
    if p < e {
      CharOf(s, p, "youtube.com/", 0);
      CharOf(s, p, "youtu.be/", 0);
      SkipNoY(s, p + 1, e);
    }
  }

  /** A link that begins with a `pre` holding no `y`: the search starts where `pre` ends. */
  lemma SkipPrefix(s: string, pre: string)
    requires HasAt(s, 0, pre) && 'y' !in pre
    ensures MatchFrom(s, 0) == MatchFrom(s, |pre|)
  {
    InPiece(s, 0, pre);
    SkipNoY(s, 0, |pre|);
  }

  /** Where each piece of `a + b + c + d + e` sits. */
  lemma Pieces(a: string, b: string, c: string, d: string, e: string)
    ensures var s := a + b + c + d + e;
            && HasAt(s, 0, a) && HasAt(s, |a|, b) && HasAt(s, |a| + |b|, c) && HasAt(s, |a| + |b| + |c|, d)
            && HasAt(s, |a| + |b| + |c| + |d|, e) && |s| == |a| + |b| + |c| + |d| + |e|
  {
    var s := a + b + c + d + e;
    assert s[0..|a|] == a;
    assert s[|a|..|a| + |b|] == b;
    assert s[|a| + |b|..|a| + |b| + |c|] == c;
    assert s[|a| + |b| + |c|..|a| + |b| + |c| + |d|] == d;
    assert s[|a| + |b| + |c| + |d|..|s|] == e;
  }

  /** When the search reaches `p` unchanged and the attempt there captures at `i`, the id is `s[i..i + 11]`. */
  lemma ExtractedAt(s: string, p: int, i: int)
    requires 0 <= p <= |s| && MatchFrom(s, 0) == MatchFrom(s, p) && MatchAt(s, p) == Some(i)
    ensures IdAt(s, i) && ExtractYouTubeId(s) == s[i..i + IdLength]
  {
  }

  /** An id in place, followed by `rest` up to the end: the id group matches, and what follows comes from `rest`. */
  lemma IdThenRest(s: string, i: int, id: string, rest: string)
    requires 0 <= i && IsVideoId(id) && HasAt(s, i, id) && HasAt(s, i + |id|, rest) && i + |id| + |rest| == |s|
    ensures IdAt(s, i) && s[i..i + IdLength] == id
    ensures forall k :: i + |id| <= k < |s| ==> s[k] in rest
  {
    InPiece(s, i, id);
    InPiece(s, i + |id|, rest);
  }

  /** At `p`, `youtu.be/` and an id: the short form captures it. */
  lemma ShortAt(s: string, p: int)
    requires HasAt(s, p, "youtu.be/") && IdAt(s, p + 9)
    ensures MatchAt(s, p) == Some(p + 9)
  {
    CharOf(s, p, "youtu.be/", 5);
    CharOf(s, p, "youtube.com/", 5);
  }

  /** A short link `…youtu.be/ID…`: the id is the eleven characters after the slash, whatever follows. */
  lemma ShortLink(pre: string, id: string, rest: string)
    requires 'y' !in pre && IsVideoId(id)
    ensures ExtractYouTubeId(pre + "youtu.be/" + id + rest) == id
  {
    var s := pre + "youtu.be/" + id + rest;
    var p := |pre|;
    assert s == pre + "youtu.be/" + id + rest + [];
    Pieces(pre, "youtu.be/", id, rest, []);
    SkipPrefix(s, pre);
    IdThenRest(s, p + 9, id, rest);
    ShortAt(s, p);
    ExtractedAt(s, p, p + 9);
  }

  /** At `p`, `youtube.com/embed/` and an id with no slash after it: alternative B captures it. */
  lemma EmbedAt(s: string, p: int)
    requires 0 <= p && HasAt(s, p, "youtube.com/") && HasAt(s, p + 12, "embed/") && IdAt(s, p + 18)
    requires forall k :: p + 18 <= k < |s| ==> s[k] != '/'
    ensures MatchAt(s, p) == Some(p + 18)
  {
    var q := p + 12;
    CharOf(s, q, "embed/", 0);
    CharOf(s, q, "embed/", 1);
    CharOf(s, q, "embed/", 2);
    CharOf(s, q, "embed/", 3);
    CharOf(s, q, "embed/", 4);
    CharOf(s, q, "embed/", 5);
    RunEndAt(s, q, q + 5);
    NoSlashAfter(s, q + 5);
    CharOf(s, q, "v/", 0);
  }

  /** An embed link `…youtube.com/embed/ID…` with no further slash yields its id. */
  lemma EmbedLink(pre: string, id: string, rest: string)
    requires 'y' !in pre && IsVideoId(id) && '/' !in rest
    ensures ExtractYouTubeId(pre + "youtube.com/" + "embed/" + id + rest) == id
  {
    var s := pre + "youtube.com/" + "embed/" + id + rest;
    var p := |pre|;
    Pieces(pre, "youtube.com/", "embed/", id, rest);
    SkipPrefix(s, pre);
    IdThenRest(s, p + 18, id, rest);
    EmbedAt(s, p);
    ExtractedAt(s, p, p + 18);
  }

  /** At `p`, `youtube.com/v/` and an id with no slash after it: alternative B captures it. */
  lemma VideoPathAt(s: string, p: int)
    requires 0 <= p && HasAt(s, p, "youtube.com/") && HasAt(s, p + 12, "v/") && IdAt(s, p + 14)
    requires forall k :: p + 14 <= k < |s| ==> s[k] != '/'
    ensures MatchAt(s, p) == Some(p + 14)
  {
    var q := p + 12;
    CharOf(s, q, "v/", 0);
    CharOf(s, q, "v/", 1);
    RunEndAt(s, q, q + 1);
    NoSlashAfter(s, q + 1);
  }

  /** A link `…youtube.com/v/ID…` with no further slash yields its id. */
  lemma VideoPathLink(pre: string, id: string, rest: string)
    requires 'y' !in pre && IsVideoId(id) && '/' !in rest
    ensures ExtractYouTubeId(pre + "youtube.com/" + "v/" + id + rest) == id
  {
    var s := pre + "youtube.com/" + "v/" + id + rest;
    var p := |pre|;
    Pieces(pre, "youtube.com/", "v/", id, rest);
    SkipPrefix(s, pre);
    IdThenRest(s, p + 14, id, rest);
    VideoPathAt(s, p);
    ExtractedAt(s, p, p + 14);
  }

  /** At `p`, a watch path whose id is followed by no `/`, `?` or `&`: alternative C captures it. */
  lemma WatchAt(s: string, p: int)
    requires 0 <= p && HasAt(s, p, "youtube.com/") && HasAt(s, p + 12, "watch?v=") && IdAt(s, p + 20)
    requires forall k :: p + 20 <= k < |s| ==> s[k] != '/' && s[k] != '?' && s[k] != '&'
    ensures MatchAt(s, p) == Some(p + 20)
  {
    var q := p + 12;
    var w := "watch?v=";
    CharOf(s, q, w, 0);
    CharOf(s, q, w, 1);
    CharOf(s, q, w, 2);
    CharOf(s, q, w, 3);
    CharOf(s, q, w, 4);
    CharOf(s, q, w, 5);
    CharOf(s, q, w, 6);
    CharOf(s, q, w, 7);
    RunEndAt(s, q, |s|);
    CharOf(s, q, "v/", 0);
    CharOf(s, q, "embed/", 0);
    CharOf(s, q, "e/", 0);
    assert QueryThenId(s, q, q + 5);
    LastQueryAt(s, q, q + 5);
  }

  /** A watch link `…youtube.com/watch?v=ID…` yields its id when nothing after it holds `/`, `?` or `&`. */
  lemma WatchLink(pre: string, id: string, rest: string)
    requires 'y' !in pre && IsVideoId(id) && '/' !in rest && '?' !in rest && '&' !in rest
    ensures ExtractYouTubeId(pre + "youtube.com/" + "watch?v=" + id + rest) == id
  {
    var s := pre + "youtube.com/" + "watch?v=" + id + rest;
    var p := |pre|;
    Pieces(pre, "youtube.com/", "watch?v=", id, rest);
    SkipPrefix(s, pre);
    IdThenRest(s, p + 20, id, rest);
    WatchAt(s, p);
    ExtractedAt(s, p, p + 20);
  }

  /** At `p`, `youtube.com/embed/` ending the string: no alternative finds an id. */
  lemma BareEmbedAt(s: string, p: int)
    requires 0 <= p && HasAt(s, p, "youtube.com/") && HasAt(s, p + 12, "embed/") && |s| == p + 18
    ensures MatchAt(s, p).None?
  {
    var q := p + 12;
    var v := "embed/";
    CharOf(s, q, v, 0);
    CharOf(s, q, v, 1);
    CharOf(s, q, v, 2);
    CharOf(s, q, v, 3);
    CharOf(s, q, v, 4);
    CharOf(s, q, v, 5);
    RunEndAt(s, q, q + 5);
    CharOf(s, q, "v/", 0);
    CharOf(s, q, "e/", 1);
    NoQueryAfter(s, q);
    CharOf(s, p, "youtube.com/", 5);
    CharOf(s, p, "youtu.be/", 5);
  }

  /** `youtube.com/embed/` holds no `y` after its first character. */
  lemma BareEmbedNoY(s: string, p: int)
    requires 0 <= p && HasAt(s, p, "youtube.com/") && HasAt(s, p + 12, "embed/") && |s| == p + 18
    ensures forall k :: p < k < |s| ==> s[k] != 'y'
  {
    assert s[p + 1..p + 12] == "youtube.com/"[1..] by {
      assert s[p..p + 12] == "youtube.com/";
    }
    assert s[p + 12..p + 18] == "embed/";
    forall k | p < k < |s| ensures s[k] != 'y' {
      if k < p + 12 {
        assert s[k] == s[p + 1..p + 12][k - p - 1];
      } else {
        assert s[k] == s[p + 12..p + 18][k - p - 12];
      }
    }
  }

  /** An embed path with nothing after it holds no id. */
  lemma BareEmbedPath(pre: string)
    requires 'y' !in pre
    ensures ExtractYouTubeId(pre + "youtube.com/" + "embed/") == ""
  {
    var s := pre + "youtube.com/" + "embed/";
    var p := |pre|;
    assert s == pre + "youtube.com/" + "embed/" + [] + [];
    Pieces(pre, "youtube.com/", "embed/", [], []);
    SkipPrefix(s, pre);
    BareEmbedAt(s, p);
    BareEmbedNoY(s, p);
    SkipNoY(s, p + 1, |s|);
  }

  /** The embed address built for a link yields that link's id again: extraction is idempotent under embedding. */
  lemma EmbedRoundTrip(url: string)
    ensures ExtractYouTubeId(EmbedSrc(url)) == ExtractYouTubeId(url)
  {
    var id := ExtractYouTubeId(url);
    if id == "" {
      BareEmbedPath(EmbedHost);
    } else {
      assert EmbedSrc(url) == EmbedHost + "youtube.com/" + "embed/" + id + "";
      EmbedLink(EmbedHost, id, "");
    }
  }
}
