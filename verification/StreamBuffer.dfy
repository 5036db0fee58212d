/** The byte buffer object owned by the parser; each method is proved to do what `BufferState` says. */
module StreamBuffers {
  import opened Bytes
  import opened Errors
  import opened Stream
  import opened Delimiter
  import opened Grammar
  import opened Lines

  class StreamBuffer {
    var buf: seq<Byte>
    var events: seq<Event>
    var eof: bool
    var polledTotal: nat
    var readUntilCursor: nat
    var readUntilActive: bool
    var emptyChunks: nat

    ghost function View(): BufferState
      reads this
    {
      BufferState(buf, Source(events, emptyChunks), eof, polledTotal, readUntilCursor, readUntilActive)
    }

    constructor (stream: seq<Event>)
      ensures View() == BufferState([], Source(stream, 0), false, 0, 0, false)
    {
      buf, events, eof, polledTotal := [], stream, false, 0;
      readUntilCursor, readUntilActive, emptyChunks := 0, false, 0;
    }

    method PollStream() returns (r: Polled)
      modifies this
      ensures (r, View()) == old(View()).PollStream()
    {
      ghost var v := View();
      var n := 0;
      while n < EMPTY_CHUNKS_PER_POLL
        invariant n <= EMPTY_CHUNKS_PER_POLL
        invariant View().(source := v.source) == v
        invariant Source(events, emptyChunks).Poll(EMPTY_CHUNKS_PER_POLL - n) == v.source.Poll(EMPTY_CHUNKS_PER_POLL)
        decreases EMPTY_CHUNKS_PER_POLL - n
      {
        if events == [] {
          eof := true;
          return Ended;
        }
        var next := events[0];
        events := events[1..];
        if next.Fail? {
          return Broke(next.error);
        } else if next.Chunk? {
          if next.bytes != [] {
            emptyChunks := 0;
            polledTotal := polledTotal + |next.bytes|;
            return Next(next.bytes);
          }
          emptyChunks := emptyChunks + 1;
          if emptyChunks > MAX_CONSECUTIVE_EMPTY_CHUNKS {
            return Broke(STALLED);
          }
        } else {
          return Waiting;
        }
        n := n + 1;
      }
      return Waiting;
    }

    method PollReadUntil(needle: seq<Byte>, max: nat) returns (r: Poll<nat>)
      requires readUntilActive ==> readUntilCursor <= |buf|
      modifies this
      ensures (r, View()) == old(View()).ReadUntil(needle, max)
    {
      hide Find, FindFrom, Source.Poll, ResumeAt, BufferState.SearchOn;
      if !readUntilActive {
        readUntilCursor := 0;
        readUntilActive := true;
      }
      ghost var all := View().SearchOn(needle, max);
      while true
        invariant readUntilActive && readUntilCursor <= |buf|
        invariant View().SearchOn(needle, max) == all
        decreases |events|
      {
        SearchOnUnfolds(View(), needle, max);
        var rel := Find(buf[readUntilCursor..], needle);
        if rel.Some? {
          var end := readUntilCursor + rel.value + |needle|;
          readUntilActive := false;
          return Ready(if end > max then Err(HeaderSizeExceeded(max)) else Ok(end));
        }
        if |buf| > max || eof {
          readUntilActive := false;
          return Ready(Err(if |buf| > max then HeaderSizeExceeded(max) else IncompleteStream));
        }
        var p := PollStream();
        if p.Waiting? {
          return Pending;
        } else if !p.Next? {
          readUntilActive := false;
          return Ready(Err(if p.Broke? then p.error else IncompleteStream));
        }
        readUntilCursor := ResumeAt(|buf|, needle);
        buf := buf + p.chunk;
      }
    }

    method PollReadTo(needle: seq<Byte>) returns (r: Poll<()>)
      requires needle != []
      modifies this
      ensures (r, View()) == old(View()).ReadTo(needle)
    {
      hide Find, FindFrom, Source.Poll, ResumeAt;
      ghost var all := View().ReadTo(needle);
      while true
        invariant View().ReadTo(needle) == all
        decreases |events|
      {
        var at := Find(buf, needle);
        if at.Some? {
          buf := buf[at.value + |needle|..];
          return Ready(Ok(()));
        }
        if eof {
          return Ready(Err(InvalidFormat));
        }
        var p := PollStream();
        match p {
          case Next(chunk) =>
            // An empty buffer is not copied into: the chunk itself is searched.
            assert [] + chunk == chunk;
            var hay := if buf == [] then chunk else buf + chunk;
            at := Find(hay, needle);
            if at.Some? {
              buf := hay[at.value + |needle|..];
              return Ready(Ok(()));
            }
            buf := hay[ResumeAt(|hay|, needle)..];
          case Broke(e) =>
            return Ready(Err(e));
          case Ended =>
            return Ready(Err(InvalidFormat));
          case Waiting =>
            return Pending;
        }
      }
    }

    method PollReadHeaderBlock(max: nat) returns (r: Poll<nat>)
      requires readUntilActive ==> readUntilCursor <= |buf|
      modifies this
      ensures (r, View()) == old(View()).ReadHeaderBlock(max)
    {
      hide Find, FindFrom, Source.Poll, ResumeAt;
      ghost var all := View().ReadHeaderBlock(max);
      while |buf| < 2 && !eof
        invariant readUntilActive ==> readUntilCursor <= |buf|
        invariant View().ReadHeaderBlock(max) == all
        decreases !eof, |events|
      {
        readUntilActive := false;
        var p := PollStream();
        match p {
          case Next(chunk) => buf := buf + chunk;
          case Broke(e) => return Ready(Err(e));
          case Ended =>
          case Waiting => return Pending;
        }
      }
      if StartsWith(buf, CRLF) {
        readUntilActive := false;
        return Ready(Ok(2));
      }
      r := PollReadUntil(CRLF + CRLF, max);
    }

    // ----- Reading steps shared by the parser and the taken streams

    /** `poll_ensure_buf_len` and `fill_buf`, which differ only in the error at the end of the stream. */
    method PollEnsureLen(len: nat, atEnd: Error) returns (r: Poll<()>)
      modifies this
      ensures (r, View()) == EnsureLen(old(View()), len, atEnd)
    {
      hide Source.Poll;
      ghost var all := EnsureLen(View(), len, atEnd);
      while |buf| < len
        invariant EnsureLen(View(), len, atEnd) == all
        decreases |events|
      {
        var p := PollStream();
        match p {
          case Next(chunk) => buf := buf + chunk;
          case Broke(e) => return Ready(Err(e));
          case Ended => return Ready(Err(atEnd));
          case Waiting => return Pending;
        }
      }
      return Ready(Ok(()));
    }

    method PollConsumeCrlf(atEnd: Error) returns (r: Poll<()>)
      modifies this
      ensures (r, View()) == ConsumeCrlf(old(View()), atEnd)
    {
      hide EnsureLen;
      r := PollEnsureLen(2, atEnd);
      if r.Done() {
        if buf[..2] != CRLF {
          return Ready(Err(InvalidFormat));
        }
        buf := buf[2..];
        return Ready(Ok(()));
      }
    }

    /** The number of padding bytes in front of `buf`. */
    method CountPadding() returns (n: nat)
      ensures n == PadLen(buf)
    {
      n := 0;
      while n < |buf| && IsPad(buf[n])
        invariant n <= PadLen(buf)
      {
        n := n + 1;
      }
    }

    method PollConsumePaddingAndCrlf(atEnd: Error) returns (r: Poll<()>)
      modifies this
      ensures (r, View()) == ConsumePaddingAndCrlf(old(View()), atEnd)
    {
      hide EnsureLen, ConsumeCrlf, PadLen;
      ghost var all := ConsumePaddingAndCrlf(View(), atEnd);
      while true
        invariant ConsumePaddingAndCrlf(View(), atEnd) == all
        decreases |events|, |buf|
      {
        r := PollEnsureLen(1, atEnd);
        if !r.Done() {
          return;
        }
        if buf[0] == CR {
          r := PollConsumeCrlf(atEnd);
          return;
        }
        if !IsPad(buf[0]) {
          return Ready(Err(InvalidFormat));
        }
        var padding := CountPadding();
        PadLenPositive(buf);
        buf := buf[padding..];
      }
    }

    /** What follows a delimiter on its line: `true` for the closing dashes, `false` for a line end. */
    method PollBoundaryLine() returns (r: Poll<bool>)
      modifies this
      ensures (r, View()) == BoundaryStep(old(View()))
    {
      hide EnsureLen, ConsumeCrlf, ConsumePaddingAndCrlf;
      var got := PollEnsureLen(1, IncompleteStream);
      if !got.Done() {
        return Relabel(got, false);
      }
      var first := buf[0];
      if first == DASH {
        got := PollEnsureLen(2, IncompleteStream);
        if !got.Done() {
          return Relabel(got, true);
        }
        if buf[..2] != [DASH, DASH] {
          return Ready(Err(InvalidFormat));
        }
        buf := buf[2..];
        return Ready(Ok(true));
      } else if IsPad(first) {
        got := PollConsumePaddingAndCrlf(IncompleteStream);
        return Relabel(got, false);
      } else if first == CR {
        got := PollConsumeCrlf(IncompleteStream);
        return Relabel(got, false);
      }
      return Ready(Err(InvalidFormat));
    }

    /** The data loop of the parser and of both taken streams. */
    method PollNextData(delim: seq<Byte>, atEnd: Error) returns (r: Poll<DataItem>)
      requires delim != []
      modifies this
      ensures (r, View()) == NextData(old(View()), delim, atEnd)
    {
      hide SearchData, Source.Poll, NextData;
      ghost var all := NextData(View(), delim, atEnd);
      while true
        invariant NextData(View(), delim, atEnd) == all
        decreases |events|
      {
        NextDataUnfolds(View(), delim, atEnd);
        if buf != [] {
          match SearchData(buf, delim) {
            case Found(index) =>
              r := Ready(Ok(DataItem(buf[..index], true)));
              buf := buf[index + |delim|..];
              return;
            case Emit(end) =>
              r := Ready(Ok(DataItem(buf[..end], false)));
              buf := buf[end..];
              return;
            case KeepAll =>
          }
        }
        var p := PollStream();
        match p {
          // A chunk that arrives at an empty buffer is searched by the next turn like any other.
          case Next(chunk) => buf := buf + chunk;
          case Broke(e) => return Ready(Err(e));
          case Ended => return Ready(Err(atEnd));
          case Waiting => return Pending;
        }
      }
    }

    method PollEpilogue() returns (r: Poll<()>)
      modifies this
      ensures (r, View()) == EpilogueStep(old(View()))
    {
      hide Source.Poll;
      if buf != [] {
        return Ready(Err(StreamPartNotLast));
      }
      var p := PollStream();
      match p {
        case Next(_) => return Ready(Err(StreamPartNotLast));
        case Broke(e) => return Ready(Err(e));
        case Ended => return Ready(Ok(()));
        case Waiting => return Pending;
      }
    }
  }
}
