/** The text the ingest listener writes back on the connection once
    `create_paste` has finished: the paste's URL on its own line, or the
    error behind an "err: " prefix. */
module Reply {
  import opened Common

  const ERR_PREFIX: string := "err: "

  /** The reply for the outcome of `create_paste`. */
  function IngestReply(outcome: Result<string, string>): (r: string)
    ensures outcome.Ok? ==> |r| == |outcome.value| + 1 && r[|r| - 1] == '\n'
    ensures outcome.Err? ==> |r| == |ERR_PREFIX| + |outcome.error| && r[..|ERR_PREFIX|] == ERR_PREFIX
  {
    match outcome
    case Ok(url) => url + "\n"
    case Err(message) => ERR_PREFIX + message
  }

  /** The bytes `write_all` sends. */
  function ReplyBytes(outcome: Result<string, string>): (b: seq<byte>)
    ensures |b| >= |IngestReply(outcome)|
  {
    Utf8(IngestReply(outcome))
  }

  function StartsWithErr(s: string): bool {
    |s| >= |ERR_PREFIX| && s[..|ERR_PREFIX|] == ERR_PREFIX
  }

  /** How a client reads a reply: an "err: " prefix marks an error, a final
      line feed ends a URL, anything else is not a reply. */
  function ParseReply(reply: string): (p: Option<Result<string, string>>)
    ensures p.Some? && p.value.Err? ==> reply == ERR_PREFIX + p.value.error
    ensures p.Some? && p.value.Ok? ==> reply == p.value.value + "\n"
  {
    if StartsWithErr(reply) then Some(Err(reply[|ERR_PREFIX|..]))
    else if reply != [] && reply[|reply| - 1] == '\n' then Some(Ok(reply[..|reply| - 1]))
    else None
  }

  /** A reply tells the client what happened, as long as the URL does not
      itself start with "err: " (a URL starts with its scheme). */
  lemma ReplyRoundTrip(outcome: Result<string, string>)
    requires outcome.Ok? ==> !StartsWithErr(outcome.value)
    ensures ParseReply(IngestReply(outcome)) == Some(outcome)
  {
    var r := IngestReply(outcome);
    match outcome
    case Ok(url) =>
      assert !StartsWithErr(r) by {
        if |url| >= |ERR_PREFIX| {
          assert r[..|ERR_PREFIX|] == url[..|ERR_PREFIX|];
        }
      }
      assert r[..|r| - 1] == url;
    case Err(message) =>
      assert r[|ERR_PREFIX|..] == message;
  }

  /** Only the success reply is terminated by a line feed byte; the error
      reply ends with the message as it is. */
  lemma SuccessReplyEndsInLineFeed(url: string)
    ensures var b := ReplyBytes(Ok(url));
      b != [] && b[|b| - 1] == LF && b[..|b| - 1] == Utf8(url)
  {
    Utf8Append(url, "\n");
    Utf8OfLineFeed();
    var b := Utf8(url) + [LF];
    assert b[..|b| - 1] == Utf8(url);
  }

  lemma Utf8OfLineFeed()
    ensures Utf8("\n") == [LF]
  {
    assert "\n"[1..] == [];
  }

  /** Any URL that happens to start with "err: " makes a reply a client
      reads as an error. */
  lemma ErrLikeUrlsAreAmbiguous(url: string)
    requires StartsWithErr(url)
    ensures ParseReply(IngestReply(Ok(url))) == Some(Err(url[|ERR_PREFIX|..] + "\n"))
  {
    var r := IngestReply(Ok(url));
    assert r[..|ERR_PREFIX|] == url[..|ERR_PREFIX|];
    assert r[|ERR_PREFIX|..] == url[|ERR_PREFIX|..] + "\n";
  }
}
