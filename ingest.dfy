/** The ingest listener's paste creation: bytes are read off one connection
    through a limiter of MAX_SIZE bytes until end of stream or until a read
    leaves the buffer ending in a line feed; the buffer is then stored under
    a fresh identifier and the retrieval URL returned. */
module Ingest {
  import opened Common
  import Storage

  /** The cap on one paste, 64 MiB. */
  const MAX_SIZE: nat := 1024 * 1024 * 64

  /** What the peer delivers to successive reads: a run of bytes, or a read
      error. End of stream is the end of the sequence. */
  datatype Event = Chunk(bytes: seq<byte>) | Failure(message: string)

  /** A socket never delivers an empty run: a read of zero bytes means end of stream. */
  predicate WellFormed(events: seq<Event>) {
    forall i :: 0 <= i < |events| && events[i].Chunk? ==> events[i].bytes != []
  }

  /** No read error anywhere in the stream. */
  predicate Clean(events: seq<Event>) {
    forall i :: 0 <= i < |events| ==> events[i].Chunk?
  }

  /** No run of bytes ends in a line feed. */
  predicate NoLineEnds(events: seq<Event>) {
    forall i :: 0 <= i < |events| && events[i].Chunk? && events[i].bytes != [] ==>
      events[i].bytes[|events[i].bytes| - 1] != LF
  }

  /** The bytes the peer sends before the first read error, in order. */
  function Delivered(events: seq<Event>): seq<byte> {
    if events == [] then []
    else match events[0]
      case Failure(_) => []
      case Chunk(b) => b + Delivered(events[1..])
  }

  /** The result of one read, or of the whole loop, and the events still
      queued after it. */
  datatype Received = Received(result: Result<seq<byte>, string>, rest: seq<Event>)

  /** One read into a buffer with room for `max` bytes: nothing when there is
      no room or the stream has ended, the pending error, or as much of the
      next run as fits, the remainder staying queued. */
  function Receive(events: seq<Event>, max: nat): (r: Received)
    ensures r.result.Ok? ==> |r.result.value| <= max
  {
    if max == 0 || events == [] then
      Received(Ok([]), events)
    else
      match events[0]
      case Failure(m) => Received(Err(m), events)
      case Chunk(b) =>
        if |b| <= max then
          Received(Ok(b), events[1..])
        else
          Received(Ok(b[..max]), [Chunk(b[max..])] + events[1..])
  }

  /** A read fails only on a pending error, with that error, and then
      consumes nothing. */
  lemma ReceiveFails(events: seq<Event>, max: nat)
    ensures var r := Receive(events, max);
      r.result.Err? ==> max > 0 && events != [] && events[0] == Failure(r.result.error) && r.rest == events
  {
  }

  /** On a socket that never delivers an empty run, a read yields nothing
      exactly when there is no room or the stream has ended, and then
      consumes nothing. */
  lemma ReceiveNothing(events: seq<Event>, max: nat)
    requires WellFormed(events)
    ensures var r := Receive(events, max);
      r.result.Ok? ==> (r.result.value == [] <==> max == 0 || events == [])
    ensures var r := Receive(events, max);
      r.result.Ok? && r.result.value == [] ==> r.rest == events
  {
  }

  /** A read moves bytes from the stream to the buffer in order: what it
      yields followed by what stays queued is what was queued. */
  lemma ReceiveConserves(events: seq<Event>, max: nat)
    ensures var r := Receive(events, max);
      r.result.Ok? ==> r.result.value + Delivered(r.rest) == Delivered(events)
  {
    if max != 0 && events != [] && events[0].Chunk? {
      var b := events[0].bytes;
      var tail := events[1..];
      assert Delivered(events) == b + Delivered(tail);
      if max < |b| {
        var rest := [Chunk(b[max..])] + tail;
        assert Receive(events, max) == Received(Ok(b[..max]), rest);
        assert rest[1..] == tail;
        assert Delivered(rest) == b[max..] + Delivered(tail);
        assert b[..max] + (b[max..] + Delivered(tail)) == b + Delivered(tail);
      }
    }
  }

  /** A read leaves no new error, no empty run and no run ending in a line
      feed behind. */
  lemma ReceiveKeeps(events: seq<Event>, max: nat)
    ensures var r := Receive(events, max);
      && (WellFormed(events) ==> WellFormed(r.rest))
      && (forall e :: e in r.rest && e.Failure? ==> e in events)
      && (Clean(events) ==> Clean(r.rest))
      && (NoLineEnds(events) ==> NoLineEnds(r.rest))
  {
    var r := Receive(events, max);
    if max != 0 && events != [] && events[0].Chunk? {
      var b := events[0].bytes;
      if |b| <= max {
        assert forall i :: 0 <= i < |r.rest| ==> r.rest[i] == events[i + 1];
      } else {
        assert forall i :: 1 <= i < |r.rest| ==> r.rest[i] == events[i];
        assert r.rest[0].bytes[|r.rest[0].bytes| - 1] == b[|b| - 1];
      }
    }
  }

  /** Prefixes `data` to a successful result; an error passes through. */
  function Prepend(data: seq<byte>, r: Received): Received {
    match r.result
    case Ok(more) => Received(Ok(data + more), r.rest)
    case Err(_) => r
  }

  /** What the read loop of `create_paste` makes of `events` with a budget of
      `limit` bytes, and the events it leaves unread: it reads until a read
      yields nothing or leaves the buffer ending in a line feed; a read error
      ends it with that error. */
  function Frame(events: seq<Event>, limit: nat): (r: Received)
    ensures r.result.Ok? ==> |r.result.value| <= limit
    decreases limit
  {
    var step := Receive(events, limit);
    match step.result
    case Err(_) => step
    case Ok(got) =>
      if got == [] || got[|got| - 1] == LF then step
      else Prepend(got, Frame(step.rest, limit - |got|))
  }

  /** One turn of the read loop, seen from the whole result: if `whole` is
      what remains to be framed after `before` was read, then after the next
      read it is either settled or what remains after `before + got`. */
  lemma FrameStep(whole: Received, before: seq<byte>, pending: seq<Event>, budget: nat)
    requires whole == Prepend(before, Frame(pending, budget))
    ensures var step := Receive(pending, budget);
      && (step.result.Err? ==> whole == Received(Err(step.result.error), pending))
      && (step.result.Ok? && (step.result.value == [] || step.result.value[|step.result.value| - 1] == LF) ==>
            whole == Received(Ok(before + step.result.value), step.rest))
      && (step.result.Ok? && step.result.value != [] && step.result.value[|step.result.value| - 1] != LF ==>
            whole == Prepend(before + step.result.value, Frame(step.rest, budget - |step.result.value|)))
  {
    var step := Receive(pending, budget);
    if step.result.Ok? {
      var got := step.result.value;
      if got != [] && got[|got| - 1] != LF {
        var more := Frame(step.rest, budget - |got|);
        assert Frame(pending, budget) == Prepend(got, more);
        if more.result.Ok? {
          assert before + (got + more.result.value) == (before + got) + more.result.value;
        }
      }
    }
  }
  /** The reader side of a connection, delivering `incoming` in order. */
  class Socket {
    var incoming: seq<Event>

    constructor (events: seq<Event>)
      ensures incoming == events
    {
      incoming := events;
    }

    /** One read into a buffer with room for `max` bytes. */
    method Read(max: nat) returns (r: Result<seq<byte>, string>)
      modifies this
      ensures Received(r, incoming) == Receive(old(incoming), max)
    {
      if max == 0 || incoming == [] {
        return Ok([]);
      }
      match incoming[0]
      case Failure(m) =>
        r := Err(m);
      case Chunk(b) =>
        if |b| <= max {
          r := Ok(b);
          incoming := incoming[1..];
        } else {
          r := Ok(b[..max]);
          incoming := [Chunk(b[max..])] + incoming[1..];
        }
    }
  }

  /** `AsyncReadExt::take`: a reader that passes on at most `limit` more bytes. */
  class Take {
    const socket: Socket
    var limit: nat

    constructor (socket: Socket, limit: nat)
      ensures this.socket == socket && this.limit == limit
    {
      this.socket := socket;
      this.limit := limit;
    }

    /** `read_buf`: appends one read's bytes to `buf` and returns their
        number; once the budget is spent it returns 0 without reading. */
    method ReadBuf(buf: seq<byte>) returns (r: Result<nat, string>, buf': seq<byte>)
      modifies this, socket
      ensures var step := Receive(old(socket.incoming), old(limit));
        && socket.incoming == step.rest
        && (r.Err? <==> step.result.Err?)
        && (r.Err? ==> r.error == step.result.error && limit == old(limit))
        && (r.Ok? ==> r.value == |step.result.value| && buf' == buf + step.result.value
                      && limit == old(limit) - r.value)
    {
      if limit == 0 {
        return Ok(0), buf;
      }
      var got := socket.Read(limit);
      if got.Err? {
        return Err(got.error), buf;
      }
      r, buf' := Ok(|got.value|), buf + got.value;
      limit := limit - |got.value|;
    }
  }

  /** The read loop of `create_paste`: reads through a fresh MAX_SIZE
      limiter into a growing buffer until a read yields nothing or leaves the
      buffer ending in a line feed; a read error is passed on. */
  method ReadPaste(socket: Socket) returns (r: Result<seq<byte>, string>)
    modifies socket
    ensures Received(r, socket.incoming) == Frame(old(socket.incoming), MAX_SIZE)
  {
    ghost var events := socket.incoming;
    var data: seq<byte> := [];
    var tooken := new Take(socket, MAX_SIZE);
    ghost var whole := Frame(events, MAX_SIZE);
    assert whole.result.Ok? ==> [] + whole.result.value == whole.result.value;
    while true
      invariant tooken.socket == socket
      invariant |data| + tooken.limit == MAX_SIZE
      invariant Frame(events, MAX_SIZE) == Prepend(data, Frame(socket.incoming, tooken.limit))
      decreases tooken.limit
    {
      ghost var before, budget, pending := data, tooken.limit, socket.incoming;
      FrameStep(Frame(events, MAX_SIZE), before, pending, budget);
      var read, buf := tooken.ReadBuf(data);
      if read.Err? {
        return Err(read.error);
      }
      data := buf;
      var amount := read.value;
      if amount == 0 || data[|data| - 1] == LF {
        break;
      }
    }
    return Ok(data);
  }

  /** `create_paste`: frames one paste off `socket`, stores it under `id` and
      returns the URL `join` makes of `id`. `join` stands for joining the
      external base URL with a path segment; `writeFault` is the error the
      file system reports for the write, if any. */
  method CreatePaste(socket: Socket, dir: Storage.Directory, id: string,
                     join: string -> Result<string, string>, writeFault: Option<string>)
      returns (r: Result<string, string>)
    modifies socket, dir
    ensures var framed := Frame(old(socket.incoming), MAX_SIZE);
      && socket.incoming == framed.rest
      && (framed.result.Err? ==> r == Err(framed.result.error) && dir.files == old(dir.files))
      && (framed.result.Ok? ==>
            && (join(id).Err? ==> r == Err(join(id).error) && dir.files == old(dir.files))
            && (join(id).Ok? && writeFault.Some? ==>
                  r == Err(writeFault.value) && dir.files == old(dir.files))
            && (join(id).Ok? && writeFault.None? ==>
                  r == Ok(join(id).value) && dir.files == old(dir.files)[id := framed.result.value]))
  {
    var data :- ReadPaste(socket);
    var endpoint :- join(id);
    var written := dir.Write(id, data, writeFault);
    if written.Fail? {
      return Err(written.error);
    }
    return Ok(endpoint);
  }

  // Properties of the framing.

  /** Nothing is dropped, altered or reordered: the paste followed by what
      stays unread is everything the peer sent before any read error. */
  lemma {:induction false} FrameConserves(events: seq<Event>, limit: nat)
    ensures var r := Frame(events, limit);
      r.result.Ok? ==> r.result.value + Delivered(r.rest) == Delivered(events)
    decreases limit
  {
    var step := Receive(events, limit);
    FrameUnfold(events, limit);
    ReceiveConserves(events, limit);
    if step.result.Ok? {
      var got := step.result.value;
      if got != [] && got[|got| - 1] != LF {
        FrameConserves(step.rest, limit - |got|);
        PrependConserves(got, Frame(step.rest, limit - |got|), step.rest, events);
      }
    }
  }

  /** A stored paste is a prefix of what the peer sent. */
  lemma FrameIsPrefix(events: seq<Event>, limit: nat)
    ensures var r := Frame(events, limit);
      r.result.Ok? ==> r.result.value <= Delivered(events)
  {
    FrameConserves(events, limit);
    var r := Frame(events, limit);
    if r.result.Ok? {
      var all := r.result.value + Delivered(r.rest);
      assert all[..|r.result.value|] == r.result.value;
    }
  }

  /** The loop as one read followed, unless that read settles it, by the loop
      on what is left. */
  lemma FrameUnfold(events: seq<Event>, limit: nat)
    ensures var step := Receive(events, limit);
      (step.result.Err? || step.result.value == [] || step.result.value[|step.result.value| - 1] == LF) ==>
        Frame(events, limit) == step
    ensures var step := Receive(events, limit);
      (step.result.Ok? && step.result.value != [] && step.result.value[|step.result.value| - 1] != LF) ==>
        Frame(events, limit) == Prepend(step.result.value, Frame(step.rest, limit - |step.result.value|))
  {
  }

  /** Prefixing a read's bytes keeps a result's bytes and leftover adding up
      to the stream. */
  lemma PrependConserves(got: seq<byte>, more: Received, rest: seq<Event>, events: seq<Event>)
    requires got + Delivered(rest) == Delivered(events)
    requires more.result.Ok? ==> more.result.value + Delivered(more.rest) == Delivered(rest)
    ensures var r := Prepend(got, more);
      r.result.Ok? ==> r.result.value + Delivered(r.rest) == Delivered(events)
  {
    if more.result.Ok? {
      assert (got + more.result.value) + Delivered(more.rest) == got + (more.result.value + Delivered(more.rest));
    }
  }

  /** Why a loop result `r` stopped, for a budget of `limit` bytes over
      `events`: the budget is spent, the buffer ends in a line feed, or the
      stream ended with everything it sent in the buffer. */
  predicate StoppedFor(r: Received, limit: nat, events: seq<Event>) {
    r.result.Ok? ==>
      || |r.result.value| == limit
      || (r.result.value != [] && r.result.value[|r.result.value| - 1] == LF)
      || (r.rest == [] && r.result.value == Delivered(events))
  }

  /** The loop stops only for one of the reasons `StoppedFor` names. */
  lemma {:induction false} FrameStopReason(events: seq<Event>, limit: nat)
    requires WellFormed(events)
    ensures StoppedFor(Frame(events, limit), limit, events)
    decreases limit
  {
    var step := Receive(events, limit);
    var r := Frame(events, limit);
    FrameUnfold(events, limit);
    if step.result.Ok? {
      var got := step.result.value;
      if got == [] {
        ReceiveNothing(events, limit);
        assert r == step;
        if limit == 0 {
          assert |r.result.value| == limit;
        } else {
          assert events == [] && r.rest == [] && r.result.value == Delivered(events);
        }
      } else if got[|got| - 1] == LF {
        assert r == step;
        assert r.result.value != [] && r.result.value[|r.result.value| - 1] == LF;
      } else {
        var budget := limit - |got|;
        var more := Frame(step.rest, budget);
        assert r == Prepend(got, more);
        ReceiveKeeps(events, limit);
        FrameStopReason(step.rest, budget);
        ReceiveConserves(events, limit);
        StopReasonPrepend(got, more, budget, step.rest, events);
        assert |got| + budget == limit;
      }
    }
  }

  /** The stop reasons of the rest of the loop carry over once the first
      read's bytes are put in front. */
  lemma StopReasonPrepend(got: seq<byte>, more: Received, budget: nat, rest: seq<Event>, events: seq<Event>)
    requires got + Delivered(rest) == Delivered(events)
    requires StoppedFor(more, budget, rest)
    ensures StoppedFor(Prepend(got, more), |got| + budget, events)
  {
    if more.result.Ok? {
      var d := more.result.value;
      var r := got + d;
      if d != [] {
        assert r[|r| - 1] == d[|d| - 1];
      }
    }
  }

  /** A read error is the only way the loop fails, and it fails with the
      error the socket raised. */
  lemma {:induction false} FrameFailsOnlyOnReadError(events: seq<Event>, limit: nat)
    ensures Frame(events, limit).result.Err? ==> Failure(Frame(events, limit).result.error) in events
    ensures Clean(events) ==> Frame(events, limit).result.Ok?
    decreases limit
  {
    var step := Receive(events, limit);
    FrameUnfold(events, limit);
    ReceiveFails(events, limit);
    ReceiveKeeps(events, limit);
    if step.result.Err? {
      assert events[0] in events;
    } else {
      var got := step.result.value;
      if got != [] && got[|got| - 1] != LF {
        FrameFailsOnlyOnReadError(step.rest, limit - |got|);
      }
    }
  }

  /** A stream without read errors and without a run ending in a line feed is
      stored whole when it fits the budget, and cut to exactly `limit` bytes
      when it does not; in particular an immediately closed stream gives an
      empty paste, and a line feed inside a run does not stop reading. */
  lemma {:induction false} FrameOfUnterminated(events: seq<Event>, limit: nat)
    requires WellFormed(events) && Clean(events) && NoLineEnds(events)
    ensures var all := Delivered(events);
      Frame(events, limit).result == Ok(if |all| <= limit then all else all[..limit])
    decreases limit
  {
    var step := Receive(events, limit);
    FrameUnfold(events, limit);
    ReceiveNothing(events, limit);
    ReceiveConserves(events, limit);
    if limit != 0 && events != [] {
      assert events[0].Chunk?;
      var b := events[0].bytes;
      var got := step.result.value;
      assert |got| == limit || got[|got| - 1] != LF by {
        if |b| <= limit {
          assert got == b;
        } else {
          assert got == b[..limit];
        }
      }
      if got[|got| - 1] == LF {
        TakeOfPrefix(got, Delivered(step.rest), limit);
      } else {
        ReceiveKeeps(events, limit);
        FrameOfUnterminated(step.rest, limit - |got|);
        TakeOfAppend(got, Delivered(step.rest), limit);
      }
    }
  }

  /** Capping `got + rest` at `|got|` bytes leaves `got`. */
  lemma TakeOfPrefix(got: seq<byte>, rest: seq<byte>, n: nat)
    requires |got| == n
    ensures var all := got + rest;
      got == (if |all| <= n then all else all[..n])
  {
    var all := got + rest;
    assert all[..n] == got;
  }

  /** Capping `rest` at what is left of `n` after `got`, and putting `got` in
      front, is capping `got + rest` at `n`. */
  lemma TakeOfAppend(got: seq<byte>, rest: seq<byte>, n: nat)
    requires |got| <= n
    ensures var all := got + rest;
      got + (if |rest| <= n - |got| then rest else rest[..n - |got|]) == (if |all| <= n then all else all[..n])
  {
    var all := got + rest;
    if |rest| > n - |got| {
      assert got + rest[..n - |got|] == all[..n];
    }
  }

  /** The loop stops right after the first read whose bytes end in a line
      feed, keeps that line feed, and leaves everything after it unread. */
  lemma {:induction false} FrameStopsAtLineEnd(pre: seq<Event>, line: seq<byte>, post: seq<Event>, limit: nat)
    requires WellFormed(pre) && Clean(pre) && NoLineEnds(pre)
    requires line != [] && line[|line| - 1] == LF
    requires |Delivered(pre)| + |line| <= limit
    ensures Frame(pre + [Chunk(line)] + post, limit) == Received(Ok(Delivered(pre) + line), post)
    decreases |pre|
  {
    if pre == [] {
      var events := pre + [Chunk(line)] + post;
      assert events == [Chunk(line)] + post;
      assert Delivered(pre) + line == line;
      FrameOfFirstRun(events, limit, line, post);
    } else {
      FirstRunOfPrefix(pre, line, post);
      var b := pre[0].bytes;
      FrameStopsAtLineEnd(pre[1..], line, post, limit - |b|);
      LineEndAfterRun(pre, line, post, limit);
    }
  }

  /** A read error reached while the budget lasts, with no line feed ending a
      run before it, is what the loop reports. */
  lemma {:induction false} FrameFailsAtFailure(pre: seq<Event>, m: string, post: seq<Event>, limit: nat)
    requires WellFormed(pre) && Clean(pre) && NoLineEnds(pre)
    requires |Delivered(pre)| < limit
    ensures Frame(pre + [Failure(m)] + post, limit).result == Err(m)
    decreases |pre|
  {
    var events := pre + [Failure(m)] + post;
    if pre == [] {
      assert events[0] == Failure(m);
      assert Receive(events, limit).result == Err(m);
    } else {
      var b := pre[0].bytes;
      var tail := pre[1..] + [Failure(m)] + post;
      assert events == [pre[0]] + tail;
      DropFirstKeeps(pre);
      assert pre[0].Chunk? && b != [] && b[|b| - 1] != LF;
      assert Delivered(pre) == b + Delivered(pre[1..]);
      FrameFailsAtFailure(pre[1..], m, post, limit - |b|);
      FrameOfFirstRun(events, limit, b, tail);
    }
  }

  /** The inductive step of `FrameStopsAtLineEnd`: one more leading run. */
  lemma LineEndAfterRun(pre: seq<Event>, line: seq<byte>, post: seq<Event>, limit: nat)
    requires pre != [] && pre[0].Chunk?
    requires var b := pre[0].bytes;
      && pre + [Chunk(line)] + post == [Chunk(b)] + (pre[1..] + [Chunk(line)] + post)
      && b != [] && b[|b| - 1] != LF && |b| <= limit
      && Delivered(pre) == b + Delivered(pre[1..])
      && Frame(pre[1..] + [Chunk(line)] + post, limit - |b|) == Received(Ok(Delivered(pre[1..]) + line), post)
    ensures Frame(pre + [Chunk(line)] + post, limit) == Received(Ok(Delivered(pre) + line), post)
  {
    var b := pre[0].bytes;
    var rest := Delivered(pre[1..]);
    var events := pre + [Chunk(line)] + post;
    var tail := pre[1..] + [Chunk(line)] + post;
    RunBeforeLine(events, tail, b, rest, line, Delivered(pre), post, limit);
  }

  /** `FrameAfterRun` with the line's bytes split off and the runs' bytes
      regrouped. */
  lemma RunBeforeLine(events: seq<Event>, tail: seq<Event>, b: seq<byte>, rest: seq<byte>, line: seq<byte>, all: seq<byte>, post: seq<Event>, limit: nat)
    requires events == [Chunk(b)] + tail
    requires b != [] && b[|b| - 1] != LF && |b| <= limit
    requires all == b + rest
    requires Frame(tail, limit - |b|) == Received(Ok(rest + line), post)
    ensures Frame(events, limit) == Received(Ok(all + line), post)
  {
    FrameAfterRun(events, limit, b, tail, rest + line, post);
    assert b + (rest + line) == (b + rest) + line;
  }

  /** Splitting off the first run of a line-feed-free prefix. */
  lemma FirstRunOfPrefix(pre: seq<Event>, line: seq<byte>, post: seq<Event>)
    requires pre != [] && WellFormed(pre) && Clean(pre) && NoLineEnds(pre)
    ensures var b := pre[0].bytes;
      && pre + [Chunk(line)] + post == [Chunk(b)] + (pre[1..] + [Chunk(line)] + post)
      && b != [] && b[|b| - 1] != LF
      && Delivered(pre) == b + Delivered(pre[1..])
      && WellFormed(pre[1..]) && Clean(pre[1..]) && NoLineEnds(pre[1..])
  {
    assert pre + [Chunk(line)] + post == [pre[0]] + (pre[1..] + [Chunk(line)] + post);
    DropFirstKeeps(pre);
  }

  /** Dropping the first event keeps a stream free of empty runs, of errors
      and of runs ending in a line feed. */
  lemma DropFirstKeeps(events: seq<Event>)
    requires events != []
    ensures WellFormed(events) ==> WellFormed(events[1..])
    ensures Clean(events) ==> Clean(events[1..])
    ensures NoLineEnds(events) ==> NoLineEnds(events[1..])
  {
    assert forall i :: 0 <= i < |events[1..]| ==> events[1..][i] == events[i + 1];
  }

  /** A run without a line feed at its end, taken whole, goes in front of
      what the loop makes of the events after it. */
  lemma FrameAfterRun(events: seq<Event>, limit: nat, b: seq<byte>, tail: seq<Event>, d: seq<byte>, post: seq<Event>)
    requires events == [Chunk(b)] + tail
    requires b != [] && b[|b| - 1] != LF && |b| <= limit
    requires Frame(tail, limit - |b|) == Received(Ok(d), post)
    ensures Frame(events, limit) == Received(Ok(b + d), post)
  {
    FrameOfFirstRun(events, limit, b, tail);
  }

  /** The loop after a first read that takes a whole run `b`. */
  lemma FrameOfFirstRun(events: seq<Event>, limit: nat, b: seq<byte>, tail: seq<Event>)
    requires events == [Chunk(b)] + tail
    requires b != [] && |b| <= limit
    ensures b[|b| - 1] == LF ==> Frame(events, limit) == Received(Ok(b), tail)
    ensures b[|b| - 1] != LF ==> Frame(events, limit) == Prepend(b, Frame(tail, limit - |b|))
  {
    assert events[0] == Chunk(b) && events[1..] == tail;
    assert Receive(events, limit) == Received(Ok(b), tail);
  }

  /** A peer that closes the connection at once leaves an empty paste, and
      the loop ends without an error. */
  lemma ClosedStreamGivesEmptyPaste(limit: nat)
    ensures Frame([], limit) == Received(Ok([]), [])
  {
  }

  /** Once the budget is spent a read yields nothing and consumes nothing,
      whatever is still queued, so the loop ends there without an error. */
  lemma SpentBudgetEndsLoop(events: seq<Event>)
    ensures Receive(events, 0) == Received(Ok([]), events)
    ensures Frame(events, 0) == Received(Ok([]), events)
  {
  }

  /** Where a run ends decides where a paste ends: the same three bytes sent
      as one run are stored whole, sent as two runs split after the line feed
      only the first run is stored. */
  lemma ChunkBoundaryDecides()
    ensures Frame([Chunk([97, 10, 98])], MAX_SIZE).result == Ok([97, 10, 98])
    ensures Frame([Chunk([97, 10]), Chunk([98])], MAX_SIZE).result == Ok([97, 10])
  {
    var bytes: seq<byte> := [97, 10, 98];
    assert Receive([Chunk(bytes)], MAX_SIZE).rest == [];
    assert Frame([], MAX_SIZE - 3).result == Ok([]);
    assert bytes + [] == bytes;
  }
}
