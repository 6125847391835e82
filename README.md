# every-fkn-commit: the tweet formatter and the commit queue

A model of the core of `src/handleTweetCommit.ts` of every-fkn-commit, a
one-shot job that takes the newest commit waiting in a MongoDB collection,
moves it to an archive collection and tweets it.

- `TweetFormat` (`tweet.dfy`) models `commitToTweet` as a pure function.
  It builds the attribution line `by A` or `by A (@H)`. It cuts the
  message by raw character count with the source's literal margins 25 and
  27 and cut lengths 252 and 250 minus the attribution length. It joins body,
  attribution and URL with blank lines. The GitHub handle is a parameter.
  The margins are proved against a reference definition,
  `FullMessageFits`: the untruncated tweet is at most 280 long when every
  character counts as one and the commit URL counts as 23 (25 = 2 + 23,
  27 = 4 + 23). Twitter's own weighting, which counts wide characters as
  two and autolinked text inside the message as a URL, is not modelled.
- `CommitStore` (`store.dfy`) models the two collections as a `Store`
  class. `fresh-commits` is a multiset of pending commits and `used-commits`
  is a map keyed by `sha`. `PopLatest` is `popLatestMongoCommit`: it removes
  one occurrence of a commit of maximal date and upserts it into the
  archive. Among commits of equal date the choice is left open, as it is
  in MongoDB.
- `Dispatch` (`dispatch.dfy`) models `broadcastCommit` and
  `handleTweetCommit`. The GitHub directory is a map with a log of the
  user names looked up. The Twitter client is a log of the tweets sent.
- `Types` holds the `Commit` record. `Wrappers` holds `Option`.

Strings are `seq<char>`. JavaScript lengths count UTF-16 code units, so
each `char` here stands for one code unit.

What the code does and does not guarantee:
- The code does not keep every tweet within 280. It keeps the tweet at most
  280 long, counting one per character and the commit URL as 23, only when
  the attribution line is at most 250 characters
  (`TweetFormat.TweetLengthBound`). A longer attribution line makes the cut
  length negative. JavaScript's `substring` then keeps nothing of the
  message, so the body is just `...`.
- A failed handle lookup propagates out of `commitToTweet`. Lookup failures
  are not modelled.
- Nothing in the code keeps `sha` unique across the two collections.
  `CommitStore.ShasUnique` states it, and `PopLatest` keeps it when it
  held. Under it the archive write is an insert.

## Model

| member | source | states |
|---|---|---|
| `TweetFormat.JsPrefix` | src/handleTweetCommit.ts:23-29 | `substring(0, n)` gives a prefix of the string. It is empty for `n <= 0`, the whole string for `n >= length`, and of length `n` in between. |
| `TweetFormat.Attribution` | src/handleTweetCommit.ts:13-17 | The attribution line is empty iff there is no author. Otherwise it starts with `by ` plus the author. Without a handle it is exactly that; with one it continues with ` (@` + handle + `)`. |
| `TweetFormat.TweetBody` | src/handleTweetCommit.ts:19-30 | The message is kept whole when the full tweet fits 280 (one per character, commit URL counted as 23). Otherwise it is cut to a prefix of the message plus `...`. With an attribution of at most 250 characters the tweet then weighs at most 280, and exactly 280 when cut, so the cut keeps as much as fits. With an attribution of 250 or more a cut body is `...` alone. |
| `TweetFormat.CommitToTweet` | src/handleTweetCommit.ts:12-32 | Without an author the tweet is body, blank line, URL. With an author it is body, blank line, attribution, blank line, URL. |
| `TweetFormat.TweetEndsWithUrl` | src/handleTweetCommit.ts:25-31 | Every tweet ends with the commit URL. Its length minus the URL's, plus 23, is the weight the truncation budgeted. |
| `TweetFormat.TweetStartsWithBody` | src/handleTweetCommit.ts:21-31 | Every tweet starts with its body. The body is the whole message or a prefix of it followed by `...`. |
| `TweetFormat.TweetLengthBound` | src/handleTweetCommit.ts:21-31 | With an attribution of at most 250 characters, the tweet has at most 257 characters plus the URL, and at most 280 when the URL has at most 23. |
| `TweetFormat.NoAuthorTruncation` | src/handleTweetCommit.ts:21-25 | Without an author, a message of up to 255 characters (255 itself included) is kept. A longer one becomes its first 252 characters and `...`, 255 characters in all. |
| `TweetFormat.AuthorTruncation` | src/handleTweetCommit.ts:28-30 | With an author, the message is cut iff its length plus the attribution's exceeds 253. It then keeps 250 minus the attribution's length (but at least 0) characters followed by `...`. |
| `TweetFormat.ShortMessageExample` | src/handleTweetCommit.ts:21-25 | `fix bug` with no author and URL `http://x/1` gives `fix bug\n\nhttp://x/1`. |
| `TweetFormat.AttributedTruncationExample` | src/handleTweetCommit.ts:13-31 | A 300-character message by `alice` with handle `alice_tw` keeps 230 = 250 - 20 characters, then `...`, the attribution line and the URL. |
| `CommitStore.LatestExists` | src/handleTweetCommit.ts:48-52 | A non-empty pending collection holds a commit whose date is at least every pending commit's date, so the sorted claim always has something to return. |
| `CommitStore.Upsert` | src/handleTweetCommit.ts:55-57 | When the write succeeds, the archive afterwards has the old keys plus the commit's `sha`. That entry is the commit, and every other entry is unchanged. |
| `CommitStore.UpsertIdempotent` | src/handleTweetCommit.ts:55-57 | Upserting the same commit twice gives the same archive as once, with one entry under its `sha`. |
| `CommitStore.ClaimRunExclusive` | src/handleTweetCommit.ts:48-53 | Over any run of claims, the commits returned plus those still pending are exactly the initial pending multiset, so no pending occurrence is claimed twice. `k` claims on `N` pending commits return `min(k, N)` commits. |
| `CommitStore.ClaimKeepsShasUnique` | src/handleTweetCommit.ts:48-57 | When pending `sha`s are distinct and unarchived, removing a claimed commit and archiving it keeps them so. |
| `CommitStore.Store.PopLatest` | src/handleTweetCommit.ts:43-59 | On an empty queue it returns none and changes nothing. Otherwise it returns a pending commit dated no earlier than any commit left. Pending loses exactly one occurrence of it. The archive gains it under its `sha` and nothing else changes. The archive stays keyed by `sha`, and `sha` uniqueness is kept; under it the claimed `sha` was not archived before, so the write is an insert. |
| `Dispatch.GithubDirectory.TwitterHandle` | src/handleTweetCommit.ts:6-10 | Returns the user's `twitter_username`, or none when there is none on file, and logs one lookup. |
| `Dispatch.Publisher.Publish` | src/handleTweetCommit.ts:36-40 | Appends the tweet to the log of tweets sent. |
| `Dispatch.BroadcastCommit` | src/handleTweetCommit.ts:12-41 | Looks the author up once when there is one and not at all otherwise. Publishes exactly the formatted tweet. Its handle is the directory's entry for the author, or none when there is no author or no entry. |
| `Dispatch.HandleTweetCommit` | src/handleTweetCommit.ts:61-67 | Performs one claim. On an empty queue nothing is looked up or published. Otherwise exactly one tweet, the formatted claimed commit, is published. |

## Left out

- MongoDB connection setup, credentials from environment variables and `mongoClient.close()` (src/handleTweetCommit.ts:69-93): I/O and bootstrap.
- The `Could not find collection` error (src/handleTweetCommit.ts:44-46): the model's store always holds both collections.
- Store, network and Twitter failures: errors raised by the clients are not modelled. Every call completes.
- The `NODE_ENV` choice between tweeting and `console.log` (src/handleTweetCommit.ts:36-40): both are the one publish log.
- Atomicity of `findOneAndDelete` against other processes, and the un-awaited `updateOne` and `broadcastCommit` promises (lines 55 and 66): each call is one sequential step whose archive write and broadcast complete. A crash between claim and archive write is not modelled.
- Tie-breaking among pending commits of equal date: MongoDB's order is not fixed, so `PopLatest` only promises a commit of maximal date.
- The `Commit` type of `./types` is not part of this model. The record has the five fields the core reads, with `date` as an integer timestamp.
- TweetFormat.CommitToTweet: lengths count Unicode scalar values, one per JavaScript UTF-16 code unit. Characters outside the Basic Multilingual Plane, and cuts through surrogate pairs, are not modelled.
- CommitStore.Upsert: a write that MongoDB rejects is not modelled. `$set` is given the whole claimed document, its `_id` included. So when `used-commits` already holds a document with the same `sha` and a different `_id`, the update fails and the archive keeps the old document. Two pending commits sharing a `sha` and claimed in turn give that case; the model archives the second. Under `CommitStore.ShasUnique` the case cannot arise, since `PopLatest` then writes only new keys.
