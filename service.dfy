/** The two listeners together: what one connection stores is what a later
    request for its identifier returns. */
module Service {
  import opened Common
  import opened Storage
  import opened Ingest
  import opened Retrieval

  /** A peer that sends bytes without a run ending in a line feed, and no
      more than MAX_SIZE of them, then closes: `create_paste` stores exactly
      those bytes, and requesting the identifier returns them with status
      200. */
  lemma PasteRoundTrip(events: seq<Event>, files: map<string, seq<byte>>, id: string)
    requires WellFormed(events) && Clean(events) && NoLineEnds(events)
    requires |Delivered(events)| <= MAX_SIZE
    requires IsIdentifier(id)
    ensures Frame(events, MAX_SIZE).result == Ok(Delivered(events))
    ensures var stored := files[id := Frame(events, MAX_SIZE).result.value];
      GetPaste(id, name => ReadFrom(stored, name)) == Response(OK, PLAIN_TEXT, Delivered(events))
  {
    FrameOfUnterminated(events, MAX_SIZE);
    StoredPasteIsServed(files, id, Delivered(events));
  }

  /** A line ending the first run that ends in a line feed completes the
      paste: the stored bytes run up to and including that line feed and
      are served back as they are. */
  lemma LinePasteRoundTrip(pre: seq<Event>, line: seq<byte>, post: seq<Event>, files: map<string, seq<byte>>, id: string)
    requires WellFormed(pre) && Clean(pre) && NoLineEnds(pre)
    requires line != [] && line[|line| - 1] == LF
    requires |Delivered(pre)| + |line| <= MAX_SIZE
    requires IsIdentifier(id)
    ensures Frame(pre + [Chunk(line)] + post, MAX_SIZE).result == Ok(Delivered(pre) + line)
    ensures var stored := files[id := Delivered(pre) + line];
      GetPaste(id, name => ReadFrom(stored, name)) == Response(OK, PLAIN_TEXT, Delivered(pre) + line)
  {
    FrameStopsAtLineEnd(pre, line, post, MAX_SIZE);
    StoredPasteIsServed(files, id, Delivered(pre) + line);
  }

  /** A connection closed at once stores an empty paste, served back as an
      empty body with status 200. */
  lemma EmptyPasteRoundTrip(files: map<string, seq<byte>>, id: string)
    requires IsIdentifier(id)
    ensures Frame([], MAX_SIZE).result == Ok([])
    ensures GetPaste(id, name => ReadFrom(files[id := []], name)) == Response(OK, PLAIN_TEXT, [])
  {
    StoredPasteIsServed(files, id, []);
  }
}
