/** `handleTweetCommit` and `broadcastCommit`: claim a commit, look up its
    author's Twitter handle, format the tweet and publish it. The GitHub
    and Twitter clients are modelled by what the core sees of them. */
module Dispatch {
  import opened Wrappers
  import opened Types
  import opened TweetFormat
  import opened CommitStore

  /** The GitHub user directory behind `getGithubUserTwitterHandle`: a
      user's `twitter_username`, absent when none is on file, and the log
      of user names looked up. */
  class GithubDirectory {
    var twitterUsernames: map<string, string>
    var lookups: seq<string>

    constructor (twitterUsernames: map<string, string>)
      ensures this.twitterUsernames == twitterUsernames && lookups == []
    {
      this.twitterUsernames := twitterUsernames;
      lookups := [];
    }

    /** `getGithubUserTwitterHandle`: one lookup of `username`. */
    method TwitterHandle(username: string) returns (handle: Option<string>)
      modifies this`lookups
      ensures handle == if username in twitterUsernames then Some(twitterUsernames[username]) else None
      ensures lookups == old(lookups) + [username]
    {
      handle := if username in twitterUsernames then Some(twitterUsernames[username]) else None;
      lookups := lookups + [username];
    }
  }

  /** The Twitter client, or the console in non-production runs: the log
      of tweets sent. */
  class Publisher {
    var sent: seq<string>

    constructor ()
      ensures sent == []
    {
      sent := [];
    }

    method Publish(tweet: string)
      modifies this
      ensures sent == old(sent) + [tweet]
    {
      sent := sent + [tweet];
    }
  }

  /** The handle the formatter receives for `author`: the directory's entry,
      or none without an author (the lookup is skipped then). */
  function HandleFor(directory: map<string, string>, author: Option<string>): Option<string>
  {
    if author.Some? && author.value in directory then Some(directory[author.value]) else None
  }

  /** `commitToTweet` together with its handle lookup, then `broadcastCommit`:
      the directory is consulted once, and only when the commit names an
      author; one tweet is published. */
  method BroadcastCommit(directory: GithubDirectory, publisher: Publisher, commit: Commit)
    modifies directory`lookups, publisher
    ensures directory.lookups ==
      old(directory.lookups) + if commit.author.Some? then [commit.author.value] else []
    ensures publisher.sent ==
      old(publisher.sent) + [CommitToTweet(commit, HandleFor(directory.twitterUsernames, commit.author))]
  {
    var handle: Option<string> := None;
    if commit.author.Some? {
      handle := directory.TwitterHandle(commit.author.value);
    }
    var tweet := CommitToTweet(commit, handle);
    publisher.Publish(tweet);
  }

  /** `handleTweetCommit`: an empty queue publishes nothing and looks
      nothing up; otherwise the claimed commit is published exactly once. */
  method HandleTweetCommit(store: Store, directory: GithubDirectory, publisher: Publisher)
      returns (ghost claimed: Option<Commit>)
    requires store.Valid()
    modifies store, directory`lookups, publisher
    ensures store.Valid()
    ensures PopStep(old(store.pending), old(store.archive), claimed, store.pending, store.archive)
    ensures claimed.None? ==>
      publisher.sent == old(publisher.sent) && directory.lookups == old(directory.lookups)
    ensures claimed.Some? ==>
      publisher.sent == old(publisher.sent) +
        [CommitToTweet(claimed.value, HandleFor(directory.twitterUsernames, claimed.value.author))]
    ensures claimed.Some? ==>
      directory.lookups == old(directory.lookups) +
        if claimed.value.author.Some? then [claimed.value.author.value] else []
  {
    var commit := store.PopLatest();
    claimed := commit;
    if commit.None? {
      return;
    }
    BroadcastCommit(directory, publisher, commit.value);
  }
}
