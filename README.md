# pst — a verified model of the paste service core

pst is a minimal paste service written in Rust (`src/main.rs`). A raw TCP
listener reads one paste per connection, stores it in a flat directory under
a random 16-character alphanumeric identifier, and replies with a retrieval
URL. A separate HTTP listener serves `GET /<identifier>` from that directory.

This project models the three pieces of logic in that file and proves
properties about them:

- **Ingest framing** (`ingest.dfy`, module `Ingest`).
  - `create_paste` reads through a `take(MAX_SIZE)` limiter into a growing
    buffer, with MAX_SIZE = 64 MiB.
  - It stops after a zero-byte read, or after a read that leaves the buffer
    ending in a line feed.
  - It then stores the buffer under the identifier and joins the identifier
    onto the base URL.
  - The peer's stream is a sequence of `Event`s. A `Chunk` is a run of bytes
    that one read can return (a read may return a prefix of it). A `Failure`
    is a read error. The end of the sequence is the peer closing.
  - The socket (`Socket`) and the limiter (`Take`) are classes whose state
    the reads update.
  - The loop is the method `ReadPaste`. It is proved against the function
    `Frame`, and the framing properties are lemmas about `Frame`.
- **Storage** (`storage.dfy`, module `Storage`).
  - The storage directory is a class holding a map from file name to
    contents.
  - Reading a file is `ReadFrom` when the only possible fault is a missing
    file.
- **Retrieval** (`retrieval.dfy`, module `Retrieval`).
  - `get_paste` computes the file name as `hash.trim().replace("/", "")`.
    Rust's `trim` removes Unicode `White_Space` characters, and the model
    uses that same list.
  - The read result then maps to a status, a `Content-Type: text/plain`
    header and a body.
- **Ingest reply** (`reply.dfy`, module `Reply`). The handler spawned for each
  connection writes back `"<url>\n"` on success and `"err: <message>"` on
  failure.
- **Both listeners together** (`service.dfy`, module `Service`). What one
  connection stores is what a later request for its identifier returns.

`common.dfy` (module `Common`) holds bytes, `Result`/`Option`, and the UTF-8
encoding `str::as_bytes` exposes.

Two consequences of the code are worth stating plainly:

- **Slashes are deleted, nothing else.** `replace("/", "")` removes only the
  slash characters, so `/../../etc/passwd` becomes `....etcpasswd` (four
  dots). `SanitizeJoinsSegments` and `RemoveSlashesAppend` state this
  transformation for any segments.
- **Read boundaries decide where a paste ends.** The loop looks only at the
  last byte of the buffer after each read. A byte sequence not ending in a
  line feed is therefore stored whole only if no read ends right after an
  inner line feed. `ChunkBoundaryDecides` shows the same three bytes stored
  whole when read at once and cut short when read in two parts.
  `PasteRoundTrip` proves the round trip under the condition the code needs:
  no run ends in a line feed. Pastes longer than 64 MiB are cut as well.

## Model

| member | source | states |
|---|---|---|
| Ingest.Receive | src/main.rs:34 | one read under a budget never yields more than the budget |
| Ingest.ReceiveFails | src/main.rs:34 | a read fails only with the pending error, only when there is budget left, and then consumes nothing |
| Ingest.ReceiveNothing | src/main.rs:34-37 | a read yields zero bytes exactly when the budget is spent or the peer has closed, and then consumes nothing |
| Ingest.ReceiveConserves | src/main.rs:34 | the bytes a read yields, followed by what stays queued, are exactly the bytes that were queued |
| Ingest.ReceiveKeeps | src/main.rs:34 | a read introduces no new error, no empty run and no run ending in a line feed into the remaining stream |
| Ingest.Frame | src/main.rs:23-44 | the paste the loop produces is never longer than the budget |
| Ingest.Socket.Read | src/main.rs:34 | a read removes from the socket exactly what `Receive` yields |
| Ingest.Take.ReadBuf | src/main.rs:31-34 | `read_buf` through the limiter appends the read's bytes to the buffer, returns their count, lowers the budget by that count, and returns 0 once the budget is spent |
| Ingest.ReadPaste | src/main.rs:30-44 | the loop returns what `Frame` gives for the stream with a MAX_SIZE budget and consumes exactly the bytes `Frame` consumes |
| Ingest.CreatePaste | src/main.rs:25-52 | a read error, a URL-join error or a write error becomes the error result and leaves the directory unchanged; otherwise the paste is stored under the identifier and the joined URL is returned |
| Ingest.FrameConserves | src/main.rs:30-44 | the paste followed by what stays unread is every byte the peer sent before a read error: nothing is dropped, altered or reordered |
| Ingest.FrameIsPrefix | src/main.rs:30-44 | the paste is a prefix of the bytes the peer sent |
| Ingest.FrameStopReason | src/main.rs:33-44 | the loop stops only because the budget is used up, the paste ends in a line feed, or the peer closed after sending exactly the paste |
| Ingest.FrameFailsOnlyOnReadError | src/main.rs:34 | the loop fails only with an error the stream raised, and never when the stream raises none, so truncation is not an error |
| Ingest.FrameFailsAtFailure | src/main.rs:34 | a read error reached while budget is left, with no run ending in a line feed before it, is the error the loop returns |
| Ingest.FrameOfUnterminated | src/main.rs:31-37 | with no read error and no run ending in a line feed, the paste is everything sent, or exactly the first `limit` bytes of it when more was sent |
| Ingest.FrameStopsAtLineEnd | src/main.rs:39-43 | the first run ending in a line feed ends the paste, that line feed is kept in it, and nothing after it is read |
| Ingest.ClosedStreamGivesEmptyPaste | src/main.rs:34-37 | a connection closed at once gives an empty paste and no error |
| Ingest.SpentBudgetEndsLoop | src/main.rs:31-37 | once the budget is spent, a read returns 0 without touching the stream, and the loop ends with nothing more read |
| Ingest.ChunkBoundaryDecides | src/main.rs:33-44 | a line feed inside a run does not stop reading, but the same bytes are cut after that line feed when a read ends there |
| Storage.IsIdentifier | src/main.rs:46 | the identifiers `Alphanumeric.sample_string` draws: exactly sixteen characters from `0-9`, `a-z` and `A-Z` |
| Storage.ReadFrom | src/main.rs:56 | reading a file succeeds exactly when it exists, with its contents; otherwise it fails with `NotFound` |
| Storage.Directory.Write | src/main.rs:49 | a write with no fault creates or silently overwrites the file; a failed write reports its fault and changes nothing |
| Retrieval.IsWhitespace | src/main.rs:55 | the characters `char::is_whitespace` accepts, which `trim` removes: those with the Unicode White_Space property |
| Retrieval.TrimStart | src/main.rs:55 | the result is a suffix of the input, everything dropped is whitespace, and the result does not start with whitespace |
| Retrieval.TrimEnd | src/main.rs:55 | the result is a prefix of the input, everything dropped is whitespace, and the result does not end with whitespace |
| Retrieval.Trim | src/main.rs:55 | the result is no longer than the input and has whitespace at neither end |
| Retrieval.RemoveSlashes | src/main.rs:55 | the result contains no `/` and is never longer than the input |
| Retrieval.SanitizeName | src/main.rs:55 | the file name contains no `/` and is never longer than the requested path segment |
| Retrieval.TrimStartDrops | src/main.rs:55 | leading whitespace before a non-whitespace character is removed and nothing else is |
| Retrieval.TrimEndDrops | src/main.rs:55 | trailing whitespace after a non-whitespace character is removed and nothing else is |
| Retrieval.TrimIsCore | src/main.rs:55 | trimming returns exactly the part between the leading and the trailing whitespace |
| Retrieval.RemoveSlashesAppend | src/main.rs:55 | deleting slashes works piece by piece, so all other characters keep their order |
| Retrieval.RemoveSlashesOfChar | src/main.rs:55 | a single `/` is deleted and every other character is kept |
| Retrieval.RemoveSlashesKeepsPlain | src/main.rs:55 | a string without `/` is unchanged |
| Retrieval.RemoveSlashesJoin | src/main.rs:55 | two segments joined by a slash are glued together with the slash gone |
| Retrieval.RemoveSlashesIdempotent | src/main.rs:55 | deleting slashes twice is the same as deleting them once |
| Retrieval.SanitizeKeepsPlainNames | src/main.rs:55 | a name with no edge whitespace and no `/` is used unchanged |
| Retrieval.SanitizeKeepsIdentifiers | src/main.rs:46-55 | every identifier the ingest side draws reaches the file system unchanged |
| Retrieval.SanitizeJoinsSegments | src/main.rs:55 | a traversal-style segment `a/b…` becomes `a` glued to `b…` with every slash deleted, and the dots stay |
| Retrieval.SanitizeKeepsDotNames | src/main.rs:55 | `..` and `.` pass sanitisation unchanged |
| Retrieval.SanitizeKeepsPlainEnds | src/main.rs:55 | with no edge whitespace, sanitising is exactly deleting the slashes |
| Retrieval.Respond | src/main.rs:58-76 | every response carries `Content-Type: text/plain` |
| Retrieval.RespondIsFaithful | src/main.rs:61-76 | 200 exactly for a successful read, with the file's bytes; 400 exactly for `NotFound`, with "File does not exist."; 500 exactly for any other error, with the error's text |
| Retrieval.NotFoundBodyIsMessage | src/main.rs:66 | the 400 body is the UTF-8 bytes of "File does not exist." |
| Retrieval.GetPaste | src/main.rs:54-76 | every retrieval response carries `Content-Type: text/plain` |
| Retrieval.StoredPasteIsServed | src/main.rs:54-76 | requesting the identifier of a stored paste returns 200 with exactly its bytes |
| Retrieval.UnknownIdentifierIsBadRequest | src/main.rs:54-68 | requesting an identifier with no file returns 400 with "File does not exist.", never 500 |
| Retrieval.ReadNameHasNoSlash | src/main.rs:55-56 | the response is the one for reading some name that contains no `/` and is no longer than the request |
| Reply.IngestReply | src/main.rs:142-148 | the success reply is one character longer than the URL and ends in a newline; the failure reply starts with `err: ` and is exactly that prefix plus the message in length. Its content is pinned by `ReplyRoundTrip` (with `ParseReply`) and `SuccessReplyEndsInLineFeed` |
| Reply.ReplyBytes | src/main.rs:143-148 | the bytes written back are at least as many as the reply's characters |
| Reply.ParseReply | src/main.rs:142-148 | a client reading `err: m` gets back the error `m`, and a client reading `u\n` gets back the URL `u` |
| Reply.ReplyRoundTrip | src/main.rs:142-148 | a client recovers the outcome from the reply, for every URL not itself starting with `err: ` |
| Reply.SuccessReplyEndsInLineFeed | src/main.rs:147-148 | the success reply's bytes are the URL's bytes followed by a single line feed byte |
| Reply.Utf8OfLineFeed | src/main.rs:147 | the newline of the success reply is the single byte 10 |
| Reply.ErrLikeUrlsAreAmbiguous | src/main.rs:143-147 | every URL that starts with `err: ` yields a success reply that a client reads as the error holding the rest of the URL and the newline |
| Common.Utf8 | src/main.rs:73 | a string's bytes number between one and four per character |
| Common.Utf8OfAscii | src/main.rs:66 | an ASCII string is one byte per character, each byte its code |
| Common.AsciiIsBytes | src/main.rs:66 | an ASCII string's bytes are the byte sequence of its character codes |
| Common.Utf8Append | src/main.rs:147-148 | the bytes of a concatenation are the bytes of its parts, in order |
| Service.PasteRoundTrip | src/main.rs:30-76 | bytes with no read error and no run ending in a line feed, sent and then closed, are stored whole when they fit in 64 MiB and are served back unchanged with 200 |
| Service.LinePasteRoundTrip | src/main.rs:33-76 | bytes ending with the first run that ends in a line feed are stored up to and including that line feed and are served back unchanged with 200 |
| Service.EmptyPasteRoundTrip | src/main.rs:34-76 | a connection closed at once stores an empty paste, which is served back as an empty body with 200 |

## Left out

- A peer that neither sends nor closes blocks `read_buf` forever, because the source sets no timeout. The model cannot express this: the stream is a finite sequence, so every read returns, and the loop ends because the budget shrinks or the stream ends.
- Networking and concurrency are not modelled. This covers `TcpListener`, the accept loop and its logging of accept errors, `tokio::spawn`, axum routing and `axum::serve`. Each connection is one `CreatePaste` call on its own `Socket`.
- `write_all`'s result is ignored by the source. The model gives only the bytes the reply consists of (`ReplyBytes`).
- Identifier generation (`Alphanumeric.sample_string`) uses a foreign random generator. The identifier is a parameter of `CreatePaste`. `IsIdentifier` describes what the generator draws. Uniqueness is not checked by the source and is not modelled.
- `Url::join` is foreign URL resolution. It is the function parameter `join` of `CreatePaste`, which may fail.
- `tokio::fs::write` is `Storage.Directory.Write`. Its fault is the parameter `writeFault`. A failed write is modelled as changing nothing: partial writes are not modelled.
- `fs::read` is the function parameter `read` of `GetPaste`. `Storage.ReadFrom` is the fault-free case.
- `dir.join(name)` is modelled as using the name as the map key. Names such as `""`, `.` and `..` that survive sanitisation would name the directory or its parent. Those reads are not modelled beyond the name itself; `SanitizeKeepsDotNames` records that they pass.
- `read_buf` sizes each read by the buffer's spare capacity and the kernel's segments. The model abstracts both into the `Chunk` runs of the stream: a read returns a run or a budget-sized prefix of it.
- Error texts are abstract strings. This covers `anyhow`'s `Display`, `io::Error`'s text and `Url` parse errors. `Storage.NOT_FOUND_TEXT` is one example.
- Startup glue is not modelled: INI config loading, defaults for `dir`, `port`, `http_port` and `url`, `canonicalize`, the existence check on the directory, and the `panic!`/`expect` calls.
- Header-name normalisation in `HeaderMap` is not modelled. The header is the pair `"Content-Type"` ↦ `"text/plain"`.
- `Ingest.Frame`: its own contract states only the size bound. The framing behaviour is stated by the lemmas about it, and `ReadPaste` is proved equal to it.
- No lemma is stated about the literal path `/../../etc/passwd`. The slash-deletion lemmas are stated for arbitrary segments instead.
