/** The tweet formatter `commitToTweet`: an optional attribution line, a
    commit message cut by raw character count, and the commit URL, joined
    by blank lines. The GitHub handle lookup is a parameter here. */
module TweetFormat {
  import opened Wrappers
  import opened Types

  /** Twitter's limit on the length of a tweet. The model measures a tweet
      one unit per character, with only the commit URL counted at a fixed
      weight; Twitter's own weighting (wide characters counted as 2,
      autolinked text inside the message counted as a URL) is not modelled. */
  const MaxTweetLength: nat := 280
  /** The weight the commit URL is counted at, whatever its length (the
      length Twitter gives a shortened link). The source's margins are built
      on it: 25 is one blank-line separator plus the URL, 27 is two
      separators plus the URL. */
  const UrlWeight: nat := 23
  const Separator: string := "\n\n"
  const Ellipsis: string := "..."

  /** JavaScript's `s.substring(0, n)`: the end index is clamped into
      `[0, |s|]`, so a negative `n` yields the empty string. */
  function JsPrefix(s: string, n: int): (r: string)
    ensures r <= s
    ensures n <= 0 ==> r == ""
    ensures n >= |s| ==> r == s
    ensures 0 <= n <= |s| ==> |r| == n
  {
    if n <= 0 then "" else if n >= |s| then s else s[..n]
  }

  /** The attribution line: empty without an author, `by A` with one, and
      `by A (@H)` when the author's Twitter handle is known. */
  function Attribution(author: Option<string>, handle: Option<string>): (r: string)
    ensures r == "" <==> author.None?
    ensures author.Some? ==> |r| >= 3 + |author.value| && r[..3 + |author.value|] == "by " + author.value
    ensures author.Some? && handle.None? ==> |r| == 3 + |author.value|
    ensures author.Some? && handle.Some? ==>
      |r| == 7 + |author.value| + |handle.value| &&
      r[3 + |author.value|..] == " (@" + handle.value + ")"
  {
    match author
    case None => ""
    case Some(a) =>
      var byAuthor := "by " + a;
      match handle
      case None => byAuthor
      case Some(h) => byAuthor + " (@" + h + ")"
  }

  /** Length of everything but the message body, one per character: the
      separators, the attribution line when there is one, and the commit
      URL at its fixed weight. It is the source's margin 25 without an
      attribution, and 27 plus the attribution's length with one. */
  function FooterWeight(attribution: string): (w: nat)
    ensures attribution == "" ==> w == 25
    ensures attribution != "" ==> w == |attribution| + 27
  {
    if attribution == "" then |Separator| + UrlWeight
    else |Separator| + |attribution| + |Separator| + UrlWeight
  }

  /** The reference for the truncation decision: the tweet with the whole
      message is at most 280 long, counting one per character and the
      commit URL as 23. */
  predicate FullMessageFits(message: string, attribution: string)
  {
    |message| + FooterWeight(attribution) <= MaxTweetLength
  }

  /** `body` is a prefix of `message` followed by an ellipsis. */
  predicate IsCut(body: string, message: string)
  {
    |body| >= |Ellipsis| &&
    body[|body| - |Ellipsis|..] == Ellipsis &&
    body[..|body| - |Ellipsis|] <= message
  }

  /** The message body as the source computes it, with its literal margins
      25 and 27 and its cut lengths 252 and `250 - |attribution|`. The
      message is kept whole exactly when it fits; otherwise it is cut, and
      the cut leaves a tweet of exactly 280 (URL counted as 23) whenever the
      attribution leaves room for one (at most 250 characters). */
  function TweetBody(message: string, attribution: string): (body: string)
    ensures FullMessageFits(message, attribution) ==> body == message
    ensures !FullMessageFits(message, attribution) ==> IsCut(body, message)
    ensures |attribution| <= 250 ==> |body| + FooterWeight(attribution) <= MaxTweetLength
    ensures |attribution| <= 250 && !FullMessageFits(message, attribution) ==>
      |body| + FooterWeight(attribution) == MaxTweetLength
    ensures |attribution| >= 250 && !FullMessageFits(message, attribution) ==> body == Ellipsis
  {
    if |attribution| == 0 then
      if |message| + 25 > 280 then JsPrefix(message, 252) + Ellipsis else message
    else
      if |message| + |attribution| + 27 > 280 then JsPrefix(message, 250 - |attribution|) + Ellipsis
      else message
  }

  /** `commitToTweet`, with the author's Twitter handle passed in. */
  function CommitToTweet(commit: Commit, handle: Option<string>): (tweet: string)
    ensures commit.author.None? ==>
      tweet == TweetBody(commit.message, "") + Separator + commit.url
    ensures commit.author.Some? ==>
      var attribution := Attribution(commit.author, handle);
      tweet == TweetBody(commit.message, attribution) + Separator + attribution + Separator + commit.url
  {
    var attribution := Attribution(commit.author, handle);
    var body := TweetBody(commit.message, attribution);
    if |attribution| == 0 then body + Separator + commit.url
    else body + Separator + attribution + Separator + commit.url
  }

  /** The tweet ends with the commit URL, and what precedes the URL weighs
      exactly what the formatter budgeted for it. */
  lemma TweetEndsWithUrl(commit: Commit, handle: Option<string>)
    ensures var tweet := CommitToTweet(commit, handle);
      var attribution := Attribution(commit.author, handle);
      |tweet| >= |commit.url| &&
      tweet[|tweet| - |commit.url|..] == commit.url &&
      |tweet| - |commit.url| + UrlWeight == |TweetBody(commit.message, attribution)| + FooterWeight(attribution)
  {
    var tweet := CommitToTweet(commit, handle);
    var attribution := Attribution(commit.author, handle);
    var body := TweetBody(commit.message, attribution);
    if commit.author.None? {
      assert tweet == (body + Separator) + commit.url;
    } else {
      assert tweet == (body + Separator + attribution + Separator) + commit.url;
    }
  }

  /** The tweet starts with the body, which is the whole message or a
      prefix of it followed by an ellipsis; nothing else is altered. */
  lemma TweetStartsWithBody(commit: Commit, handle: Option<string>)
    ensures var tweet := CommitToTweet(commit, handle);
      var body := TweetBody(commit.message, Attribution(commit.author, handle));
      tweet[..|body|] == body && (body == commit.message || IsCut(body, commit.message))
  {
    var tweet := CommitToTweet(commit, handle);
    var attribution := Attribution(commit.author, handle);
    var body := TweetBody(commit.message, attribution);
    if commit.author.None? {
      assert tweet == body + (Separator + commit.url);
    } else {
      assert tweet == body + (Separator + attribution + Separator + commit.url);
    }
  }

  /** Once the attribution line is at most 250 characters, the tweet is at
      most 257 characters plus the URL, and at most 280 when the
      URL has at most 23 characters. */
  lemma TweetLengthBound(commit: Commit, handle: Option<string>)
    requires |Attribution(commit.author, handle)| <= 250
    ensures |CommitToTweet(commit, handle)| <= 257 + |commit.url|
    ensures |commit.url| <= UrlWeight ==> |CommitToTweet(commit, handle)| <= MaxTweetLength
  {
    TweetEndsWithUrl(commit, handle);
  }

  /** Without an author the cut happens exactly above 255 characters: a
      message of 255 characters is kept whole, and a longer one becomes
      its first 252 characters and an ellipsis. */
  lemma NoAuthorTruncation(commit: Commit, handle: Option<string>)
    requires commit.author.None?
    ensures var body := TweetBody(commit.message, Attribution(commit.author, handle));
      (|commit.message| <= 255 ==> body == commit.message) &&
      (|commit.message| > 255 ==> body == commit.message[..252] + Ellipsis && |body| == 255)
  {
  }

  /** With an author the cut happens exactly when message and attribution
      together exceed 253 characters, and keeps `250 - |attribution|`
      characters of the message (none when that is negative). */
  lemma AuthorTruncation(commit: Commit, handle: Option<string>)
    requires commit.author.Some?
    ensures var attribution := Attribution(commit.author, handle);
      var body := TweetBody(commit.message, attribution);
      var keep := if 250 - |attribution| < 0 then 0 else 250 - |attribution|;
      (|commit.message| + |attribution| <= 253 ==> body == commit.message) &&
      (|commit.message| + |attribution| > 253 ==> body == commit.message[..keep] + Ellipsis)
  {
  }

  /** The no-op example: a short message without an author is joined to
      the URL unchanged. */
  lemma ShortMessageExample()
    ensures CommitToTweet(Commit("0", None, "fix bug", "http://x/1", 0), None)
         == "fix bug\n\nhttp://x/1"
  {
  }

  /** A 300-character message by `alice`, whose handle is `alice_tw`, keeps
      `250 - |"by alice (@alice_tw)"|` = 230 characters. */
  lemma AttributedTruncationExample(sha: string, message: string, url: string, date: int)
    requires |message| == 300
    ensures var tweet := CommitToTweet(Commit(sha, Some("alice"), message, url, date), Some("alice_tw"));
      tweet == message[..230] + "...\n\nby alice (@alice_tw)\n\n" + url
  {
    var attribution := Attribution(Some("alice"), Some("alice_tw"));
    assert attribution == "by alice (@alice_tw)";
    assert |attribution| == 20;
  }
}
