/**
 * The like/dislike control (src/components/VoteButton.tsx): local state
 * `stats` and `userVote`, updated optimistically around `voteSong`.
 */
module VoteButtonComponent {
  import opened Common
  import opened VotingService

  class VoteButton {
    /** The browser's storage and the votes table the services talk to. */
    const client: VotingClient
    var songId: string
    var stats: Stats
    var userVote: Option<VoteType>

    /** The first render: zero stats and no vote, before the load effect runs. */
    constructor (client: VotingClient, songId: string)
      ensures this.client == client && this.songId == songId
      ensures stats == ZeroStats && userVote == None
    {
      this.client := client;
      this.songId := songId;
      stats := ZeroStats;
      userVote := None;
    }

    /**
     * The effect run on mount and whenever `songId` changes: `loadStats()` and
     * `checkUserVote()`. Neither writes the votes table.
     */
    method Load(songId: string, newId: string, tallyFails: bool, voteFails: bool)
      requires newId != ""
      modifies this`songId, this`stats, this`userVote, client`storage
      ensures this.songId == songId
      ensures stats == GetSongVotes(client.votes, songId, tallyFails)
      ensures HasFingerprint(client.storage)
      ensures userVote == UserVote(client.votes, songId, client.storage[FingerprintKey], voteFails)
      ensures HasFingerprint(old(client.storage)) ==> client.storage == old(client.storage)
      ensures !HasFingerprint(old(client.storage)) ==> client.storage == old(client.storage)[FingerprintKey := newId]
    {
      this.songId := songId;
      stats := GetSongVotes(client.votes, songId, tallyFails);
      userVote := client.GetUserVote(songId, newId, voteFails);
    }

    /**
     * `handleVote(type)`. Repeating the vote already held does nothing. Any
     * other vote is shown at once, then sent; the stats are reloaded only
     * when the call returns, and a failure is not rolled back.
     */
    method HandleVote(t: VoteType, newId: string, err: Option<string>, tallyFails: bool)
      returns (outcome: Outcome)
      requires newId != "" && client.Valid()
      modifies this`stats, this`userVote, client
      ensures client.Valid()
      ensures old(userVote) == Some(t) ==>
        outcome == Ok && userVote == old(userVote) && stats == old(stats)
        && client.votes == old(client.votes) && client.storage == old(client.storage)
      ensures old(userVote) != Some(t) ==> userVote == Some(t) && HasFingerprint(client.storage)
      ensures old(userVote) != Some(t) && HasFingerprint(old(client.storage)) ==> client.storage == old(client.storage)
      ensures old(userVote) != Some(t) && !HasFingerprint(old(client.storage)) ==>
        client.storage == old(client.storage)[FingerprintKey := newId]
      ensures old(userVote) != Some(t) && err.None? ==>
        && outcome == Ok
        && client.votes == Upsert(old(client.votes), Vote(songId, client.storage[FingerprintKey], t))
        && stats == GetSongVotes(client.votes, songId, tallyFails)
        && UserVote(client.votes, songId, client.storage[FingerprintKey], false) == userVote
      ensures old(userVote) != Some(t) && err.Some? ==>
        outcome == Fail(err.value) && stats == old(stats) && client.votes == old(client.votes)
    {
      if userVote == Some(t) {
        return Ok;
      }
      userVote := Some(t);
      var fp;
      outcome, fp := client.VoteSong(songId, t, newId, err);
      if outcome.Fail? {
        return;
      }
      VoteIsReadBack(old(client.votes), Vote(songId, fp, t));
      stats := GetSongVotes(client.votes, songId, tallyFails);
    }
  }
}
