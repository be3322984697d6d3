/**
 * Anonymous voting (src/services/votingService.ts): a per-browser fingerprint
 * kept in local storage, one vote row per (song, fingerprint) in the `votes`
 * table, and the tally shown next to each song.
 */
module VotingService {
  import opened Common
  import opened Seqs

  datatype VoteType = Like | Dislike

  /** A row of the `votes` table; (songId, fingerprint) is its conflict key. */
  datatype Vote = Vote(songId: string, fingerprint: string, voteType: VoteType)

  /** What `getSongVotes` returns. */
  datatype Stats = Stats(likes: nat, dislikes: nat, approval: nat, total: nat)

  /** The local-storage key under which the fingerprint is kept. */
  const FingerprintKey: string := "user_fingerprint"

  /** The tally reported when the query fails. */
  const ZeroStats: Stats := Stats(0, 0, 0, 0)

  /** `localStorage.getItem('user_fingerprint')` is truthy. */
  predicate HasFingerprint(storage: map<string, string>)
  {
    FingerprintKey in storage && storage[FingerprintKey] != ""
  }

  predicate HasKey(v: Vote, songId: string, fingerprint: string)
  {
    v.songId == songId && v.fingerprint == fingerprint
  }

  /** The table's uniqueness constraint on (song_id, user_fingerprint). */
  ghost predicate UniqueKeys(votes: seq<Vote>)
  {
    forall i, j :: 0 <= i < j < |votes| ==> KeyOf(votes[i]) != KeyOf(votes[j])
  }

  function KeyOf(v: Vote): (string, string)
  {
    (v.songId, v.fingerprint)
  }

  /** The rows of `votes` with the given conflict key. */
  function RowsFor(votes: seq<Vote>, songId: string, fingerprint: string): seq<Vote>
  {
    Filter(votes, (v: Vote) => HasKey(v, songId, fingerprint))
  }

  /**
   * `upsert(row, { onConflict: 'song_id,user_fingerprint' })`: the row with the
   * same key is replaced in place; without one, the row is appended.
   */
  function Upsert(votes: seq<Vote>, row: Vote): (r: seq<Vote>)
    ensures |r| == |votes| || |r| == |votes| + 1
  {
    if votes == [] then [row]
    else if HasKey(votes[0], row.songId, row.fingerprint) then [row] + votes[1..]
    else [votes[0]] + Upsert(votes[1..], row)
  }

  /** The keys present in the table after an upsert: the old ones plus the row's. */
  lemma {:induction false} UpsertKeys(votes: seq<Vote>, row: Vote)
    ensures forall x :: x in Upsert(votes, row) ==> x == row || x in votes
    ensures forall x :: x in votes ==> KeyOf(x) == KeyOf(row) || x in Upsert(votes, row)
    ensures row in Upsert(votes, row)
  {
    if votes != [] && !HasKey(votes[0], row.songId, row.fingerprint) {
      UpsertKeys(votes[1..], row);
    }
  }

  lemma {:induction false} UniqueTail(votes: seq<Vote>)
    requires UniqueKeys(votes) && votes != []
    ensures UniqueKeys(votes[1..])
    ensures forall x :: x in votes[1..] ==> KeyOf(x) != KeyOf(votes[0])
  {
    forall x | x in votes[1..] ensures KeyOf(x) != KeyOf(votes[0]) {
      var j :| 0 <= j < |votes[1..]| && votes[1..][j] == x;
      assert votes[j + 1] == x;
    }
  }

  lemma SameKeysUnique(a: seq<Vote>, b: seq<Vote>)
    requires UniqueKeys(a) && |a| == |b|
    requires forall i :: 0 <= i < |a| ==> KeyOf(a[i]) == KeyOf(b[i])
    ensures UniqueKeys(b)
  {
  }

  lemma ConsUnique(x: Vote, t: seq<Vote>)
    requires UniqueKeys(t)
    requires forall y :: y in t ==> KeyOf(y) != KeyOf(x)
    ensures UniqueKeys([x] + t)
  {
    var r := [x] + t;
    forall i, j | 0 <= i < j < |r| ensures KeyOf(r[i]) != KeyOf(r[j]) {
      assert r[j] == t[j - 1];
      if i > 0 {
        assert r[i] == t[i - 1];
      }
    }
  }

  /** An upsert keeps the conflict key unique. */
  lemma {:induction false} UpsertUnique(votes: seq<Vote>, row: Vote)
    requires UniqueKeys(votes)
    ensures UniqueKeys(Upsert(votes, row))
  {
    if votes != [] {
      UniqueTail(votes);
      var r := Upsert(votes, row);
      if HasKey(votes[0], row.songId, row.fingerprint) {
        SameKeysUnique(votes, r);
      } else {
        UpsertUnique(votes[1..], row);
        UpsertKeys(votes[1..], row);
        ConsUnique(votes[0], Upsert(votes[1..], row));
      }
    }
  }

  /** After an upsert the table holds exactly one row for the upserted key: the new one. */
  lemma {:induction false} UpsertRowsForKey(votes: seq<Vote>, row: Vote)
    requires UniqueKeys(votes)
    ensures RowsFor(Upsert(votes, row), row.songId, row.fingerprint) == [row]
  {
    var k := (v: Vote) => HasKey(v, row.songId, row.fingerprint);
    if votes != [] {
      UniqueTail(votes);
      if HasKey(votes[0], row.songId, row.fingerprint) {
        FilterNone(votes[1..], k);
        assert Upsert(votes, row)[1..] == votes[1..];
      } else {
        UpsertRowsForKey(votes[1..], row);
        assert Upsert(votes, row)[1..] == Upsert(votes[1..], row);
      }
    }
  }

  /** An upsert leaves the rows of every other key untouched. */
  lemma {:induction false} UpsertRowsForOther(votes: seq<Vote>, row: Vote, songId: string, fingerprint: string)
    requires !HasKey(row, songId, fingerprint)
    ensures RowsFor(Upsert(votes, row), songId, fingerprint) == RowsFor(votes, songId, fingerprint)
  {
    if votes != [] {
      if HasKey(votes[0], row.songId, row.fingerprint) {
        assert Upsert(votes, row)[1..] == votes[1..];
      } else {
        UpsertRowsForOther(votes[1..], row, songId, fingerprint);
        assert Upsert(votes, row)[1..] == Upsert(votes[1..], row);
      }
    }
  }

  /**
   * After an upsert the table still has unique keys, holds exactly one row
   * for the upserted key (the new one), and the rows of every other key are
   * untouched.
   */
  lemma UpsertSpec(votes: seq<Vote>, row: Vote)
    requires UniqueKeys(votes)
    ensures UniqueKeys(Upsert(votes, row))
    ensures RowsFor(Upsert(votes, row), row.songId, row.fingerprint) == [row]
    ensures forall s, f :: !HasKey(row, s, f) ==> RowsFor(Upsert(votes, row), s, f) == RowsFor(votes, s, f)
  {
    UpsertUnique(votes, row);
    UpsertRowsForKey(votes, row);
    forall s, f | !HasKey(row, s, f) ensures RowsFor(Upsert(votes, row), s, f) == RowsFor(votes, s, f) {
      UpsertRowsForOther(votes, row, s, f);
    }
  }

  /** The row an upsert of this key replaces: the first row carrying it. */
  function FirstWithKey(votes: seq<Vote>, songId: string, fingerprint: string): (o: Option<Vote>)
    ensures o.Some? ==> o.value in votes && HasKey(o.value, songId, fingerprint)
    ensures o.None? ==> forall x :: x in votes ==> !HasKey(x, songId, fingerprint)
  {
    if votes == [] then None
    else if HasKey(votes[0], songId, fingerprint) then Some(votes[0])
    else FirstWithKey(votes[1..], songId, fingerprint)
  }

  /**
   * How a count over the table changes under an upsert: the replaced row (if
   * any) leaves, the new row enters.
   */
  lemma {:induction false} CountAfterUpsert(votes: seq<Vote>, row: Vote, p: Vote -> bool)
    ensures var o := FirstWithKey(votes, row.songId, row.fingerprint);
            Count(Upsert(votes, row), p) + (if o.Some? && p(o.value) then 1 else 0)
            == Count(votes, p) + (if p(row) then 1 else 0)
  {
    if votes != [] {
      var r := Upsert(votes, row);
      if HasKey(votes[0], row.songId, row.fingerprint) {
        assert r[1..] == votes[1..];
      } else {
        CountAfterUpsert(votes[1..], row, p);
        assert r[1..] == Upsert(votes[1..], row);
      }
    }
  }

  /**
   * `Math.round(likes / total * 100)` for `total > 0`, and 0 otherwise: the
   * nearest whole percentage, halves rounded up.
   */
  function ApprovalPercent(likes: nat, total: nat): (r: nat)
    requires likes <= total
    ensures r <= 100
    ensures total == 0 ==> r == 0
    ensures total > 0 ==> 2 * total * r <= 200 * likes + total < 2 * total * (r + 1)
  {
    if total == 0 then 0
    else
      var r := (200 * likes + total) / (2 * total);
      assert 200 * likes + total < 2 * total * 101;
      r
  }

  function IsLikeOf(songId: string): Vote -> bool
  {
    (v: Vote) => v.songId == songId && v.voteType == Like
  }

  function IsDislikeOf(songId: string): Vote -> bool
  {
    (v: Vote) => v.songId == songId && v.voteType == Dislike
  }

  function IsVoteOf(songId: string): Vote -> bool
  {
    (v: Vote) => v.songId == songId
  }

  /**
   * The tally of one song's rows: `likes` counts the like rows, `dislikes` the
   * dislike rows, `total` is their sum and therefore every row of the song.
   */
  function Tally(votes: seq<Vote>, songId: string): (s: Stats)
    ensures s.total == s.likes + s.dislikes == Count(votes, IsVoteOf(songId))
    ensures s.approval <= 100
    ensures s.total == 0 ==> s.approval == 0
  {
    var likes := Count(votes, IsLikeOf(songId));
    var dislikes := Count(votes, IsDislikeOf(songId));
    TallySplit(votes, songId);
    Stats(likes, dislikes, ApprovalPercent(likes, likes + dislikes), likes + dislikes)
  }

  lemma {:induction false} TallySplit(votes: seq<Vote>, songId: string)
    ensures Count(votes, IsLikeOf(songId)) + Count(votes, IsDislikeOf(songId)) == Count(votes, IsVoteOf(songId))
  {
    if votes != [] {
      TallySplit(votes[1..], songId);
    }
  }

  /** `getSongVotes(songId)`: the tally, or all zeros when the query fails. */
  function GetSongVotes(votes: seq<Vote>, songId: string, fails: bool): (s: Stats)
    ensures fails ==> s == ZeroStats
    ensures !fails ==> s == Tally(votes, songId)
  {
    if fails then ZeroStats else Tally(votes, songId)
  }

  /**
   * `getUserVote(songId)` for a known fingerprint: the type of the single
   * matching row; null when the query fails or does not find exactly one row.
   */
  function UserVote(votes: seq<Vote>, songId: string, fingerprint: string, fails: bool): (v: Option<VoteType>)
    ensures v.Some? ==> !fails && Vote(songId, fingerprint, v.value) in votes
  {
    var rows := RowsFor(votes, songId, fingerprint);
    if fails || |rows| != 1 then None
    else
      assert rows[0] in votes;
      Some(rows[0].voteType)
  }

  /** With unique keys, a stored vote is always found when the query succeeds. */
  lemma UserVoteFound(votes: seq<Vote>, songId: string, fingerprint: string, t: VoteType)
    requires UniqueKeys(votes)
    requires Vote(songId, fingerprint, t) in votes
    ensures UserVote(votes, songId, fingerprint, false) == Some(t)
  {
    var rows := RowsFor(votes, songId, fingerprint);
    assert Vote(songId, fingerprint, t) in rows;
    OneRowPerKey(votes, songId, fingerprint);
    assert rows == [rows[0]];
  }

  /** Unique keys leave at most one row per key. */
  lemma {:induction false} OneRowPerKey(votes: seq<Vote>, songId: string, fingerprint: string)
    requires UniqueKeys(votes)
    ensures |RowsFor(votes, songId, fingerprint)| <= 1
  {
    if votes != [] {
      UniqueTail(votes);
      OneRowPerKey(votes[1..], songId, fingerprint);
      if HasKey(votes[0], songId, fingerprint) {
        FilterNone(votes[1..], (v: Vote) => HasKey(v, songId, fingerprint));
      }
    }
  }

  /** A vote that was stored is what `getUserVote` reads back. */
  lemma VoteIsReadBack(votes: seq<Vote>, row: Vote)
    requires UniqueKeys(votes)
    ensures UserVote(Upsert(votes, row), row.songId, row.fingerprint, false) == Some(row.voteType)
  {
    UpsertSpec(votes, row);
  }

  /**
   * The tally after one vote: the voter's previous row (if any) is taken
   * away and the new one added, so switching moves one vote across and
   * repeating the same vote changes nothing.
   */
  lemma TallyAfterVote(votes: seq<Vote>, row: Vote)
    requires UniqueKeys(votes)
    ensures var before := Tally(votes, row.songId);
            var after := Tally(Upsert(votes, row), row.songId);
            var prev := UserVote(votes, row.songId, row.fingerprint, false);
            && after.likes == before.likes
                 - (if prev == Some(Like) then 1 else 0) + (if row.voteType == Like then 1 else 0)
            && after.dislikes == before.dislikes
                 - (if prev == Some(Dislike) then 1 else 0) + (if row.voteType == Dislike then 1 else 0)
  {
    UserVoteIsFirst(votes, row.songId, row.fingerprint);
    CountAfterUpsert(votes, row, IsLikeOf(row.songId));
    CountAfterUpsert(votes, row, IsDislikeOf(row.songId));
  }

  /** With unique keys, `getUserVote` reads the row an upsert would replace. */
  lemma UserVoteIsFirst(votes: seq<Vote>, songId: string, fingerprint: string)
    requires UniqueKeys(votes)
    ensures var o := FirstWithKey(votes, songId, fingerprint);
            UserVote(votes, songId, fingerprint, false) == if o.Some? then Some(o.value.voteType) else None
  {
    var o := FirstWithKey(votes, songId, fingerprint);
    if o.Some? {
      UserVoteFound(votes, songId, fingerprint, o.value.voteType);
    } else {
      FilterNone(votes, (v: Vote) => HasKey(v, songId, fingerprint));
    }
  }

  lemma MulMonotone(a: nat, b: nat, c: nat)
    requires a <= b
    ensures c * a <= c * b
  {
  }

  /** Approval never decreases when likes grow and the total grows by at most as much. */
  lemma ApprovalMonotone(l1: nat, t1: nat, l2: nat, t2: nat)
    requires l1 <= t1 && l2 <= t2
    requires (l2 == l1 + 1 && t2 == t1 + 1) || (l2 == l1 + 1 && t2 == t1)
    ensures ApprovalPercent(l1, t1) <= ApprovalPercent(l2, t2)
  {
    var r1, r2 := ApprovalPercent(l1, t1), ApprovalPercent(l2, t2);
    if t1 > 0 {
      assert 2 * t2 * r1 <= 200 * l2 + t2 by {
        if t2 == t1 + 1 {
          assert 2 * t2 * r1 == 2 * t1 * r1 + 2 * r1;
        }
      }
      MulCancel(r1, r2 + 1, 2 * t2);
    }
  }

  /** A positive factor can be cancelled from a strict inequality. */
  lemma MulCancel(a: nat, b: nat, c: nat)
    requires c > 0 && c * a < c * b
    ensures a < b
  {
    if b <= a {
      MulMonotone(b, a, c);
    }
  }

  /** A like never lowers a song's approval. */
  lemma LikeNeverLowersApproval(votes: seq<Vote>, songId: string, fingerprint: string)
    requires UniqueKeys(votes)
    ensures Tally(votes, songId).approval <= Tally(Upsert(votes, Vote(songId, fingerprint, Like)), songId).approval
  {
    var row := Vote(songId, fingerprint, Like);
    TallyAfterVote(votes, row);
    var before, after := Tally(votes, songId), Tally(Upsert(votes, row), songId);
    var prev := UserVote(votes, songId, fingerprint, false);
    TallyApproval(votes, songId);
    TallyApproval(Upsert(votes, row), songId);
    if prev == Some(Like) {
      assert after.likes == before.likes && after.total == before.total;
    } else {
      assert after.likes == before.likes + 1;
      ApprovalMonotone(before.likes, before.total, after.likes, after.total);
    }
  }

  lemma TallyApproval(votes: seq<Vote>, songId: string)
    ensures Tally(votes, songId).approval == ApprovalPercent(Tally(votes, songId).likes, Tally(votes, songId).total)
  {
  }

  /** `getTopSongs`: the RPC's rows (none when it returns null), or none at all on error. */
  function GetTopSongs<T>(data: Option<seq<T>>, fails: bool): (r: seq<T>)
    ensures fails ==> r == []
    ensures !fails && data.Some? ==> r == data.value
    ensures data.None? ==> r == []
  {
    if fails then [] else data.GetOr([])
  }

  /**
   * The browser as the voting service sees it: its local storage and the
   * backend's `votes` table.
   */
  class VotingClient {
    var storage: map<string, string>
    var votes: seq<Vote>

    ghost predicate Valid()
      reads this
    {
      UniqueKeys(votes)
    }

    constructor (storage0: map<string, string>, votes0: seq<Vote>)
      requires UniqueKeys(votes0)
      ensures Valid() && storage == storage0 && votes == votes0
    {
      storage, votes := storage0, votes0;
    }

    /**
     * `getBrowserFingerprint()`: returns the stored id unchanged; without one,
     * stores `newId` (the `uuidv4()` value) and returns it.
     */
    method BrowserFingerprint(newId: string) returns (fp: string)
      requires newId != ""
      modifies this`storage
      ensures HasFingerprint(storage) && storage[FingerprintKey] == fp
      ensures HasFingerprint(old(storage)) ==> fp == old(storage)[FingerprintKey] && storage == old(storage)
      ensures !HasFingerprint(old(storage)) ==> fp == newId && storage == old(storage)[FingerprintKey := newId]
    {
      if HasFingerprint(storage) {
        fp := storage[FingerprintKey];
        return;
      }
      fp := newId;
      storage := storage[FingerprintKey := fp];
    }

    /**
     * `voteSong(songId, voteType)`: the fingerprint is settled first, then the
     * vote is upserted; a backend error `err` is rethrown and leaves the table
     * as it was.
     */
    method VoteSong(songId: string, voteType: VoteType, newId: string, err: Option<string>)
      returns (outcome: Outcome, fp: string)
      requires newId != "" && Valid()
      modifies this
      ensures Valid()
      ensures HasFingerprint(storage) && storage[FingerprintKey] == fp
      ensures HasFingerprint(old(storage)) ==> fp == old(storage)[FingerprintKey] && storage == old(storage)
      ensures !HasFingerprint(old(storage)) ==> fp == newId && storage == old(storage)[FingerprintKey := newId]
      ensures err.None? ==> outcome == Ok && votes == Upsert(old(votes), Vote(songId, fp, voteType))
      ensures err.Some? ==> outcome == Fail(err.value) && votes == old(votes)
    {
      fp := BrowserFingerprint(newId);
      if err.Some? {
        outcome := Fail(err.value);
        return;
      }
      UpsertSpec(votes, Vote(songId, fp, voteType));
      votes := Upsert(votes, Vote(songId, fp, voteType));
      outcome := Ok;
    }

    /** `getUserVote(songId)`: may create the fingerprint, then reads the user's vote. */
    method GetUserVote(songId: string, newId: string, fails: bool) returns (v: Option<VoteType>)
      requires newId != ""
      modifies this`storage
      ensures HasFingerprint(storage)
      ensures HasFingerprint(old(storage)) ==> storage == old(storage)
      ensures !HasFingerprint(old(storage)) ==> storage == old(storage)[FingerprintKey := newId]
      ensures v == UserVote(votes, songId, storage[FingerprintKey], fails)
    {
      var fp := BrowserFingerprint(newId);
      v := UserVote(votes, songId, fp, fails);
    }
  }

  /** Once created, the fingerprint is the same for every later call. */
  method FingerprintIsStable(client: VotingClient, id1: string, id2: string) returns (a: string, b: string)
    requires id1 != "" && id2 != ""
    modifies client
    ensures a == b
  {
    a := client.BrowserFingerprint(id1);
    b := client.BrowserFingerprint(id2);
  }
}
