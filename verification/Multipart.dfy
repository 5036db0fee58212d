/** The parser object and the streams it can be taken over by. */
module Multiparts {
  import opened Bytes
  import opened Errors
  import opened Stream
  import opened StreamBuffers
  import opened Delimiter
  import opened Headers
  import opened Grammar
  import opened Lines
  import opened Machine
  import opened Refinement
  import opened Walks
  import opened Taken

  class Multipart {
    /** `null` only once the buffer has been handed to a `PartDataStream`. */
    var buffer: StreamBuffer?
    const cfg: Config
    const firstBoundary: seq<Byte>
    var delimiterFinder: Option<seq<Byte>>
    var state: State
    var headers: Option<HeaderBlock>
    var partHandedOut: bool

    ghost function View(): Parser
      requires buffer != null
      reads this, buffer
    {
      Parser(cfg, state, headers, partHandedOut, buffer.View())
    }

    /** Buffer and finder are absent exactly when the stream was taken. */
    ghost predicate Valid()
      reads this, buffer
    {
      && (buffer == null <==> state == StreamTaken)
      && delimiterFinder == (if state == StreamTaken then None else Some(cfg.Delim()))
      && firstBoundary == cfg.First()
      && (buffer != null ==> View().WellFormed())
    }

    constructor (stream: seq<Event>, boundary: seq<Byte>, maxBufferSize: nat, lib: HeaderLib)
      requires ValidBoundary(boundary) && lib.Bounded()
      ensures Valid() && buffer != null && fresh(buffer)
      ensures View() == Start(Config(boundary, maxBufferSize, lib), stream)
    {
      buffer := new StreamBuffer(stream);
      cfg := Config(boundary, maxBufferSize, lib);
      firstBoundary := MakeFirstBoundary(boundary);
      delimiterFinder := Some(MakeDelimiter(boundary));
      state, headers, partHandedOut := FindingFirstBoundary, None, false;
    }

    method PollAdvanceFirstBoundary() returns (r: Poll<()>)
      requires Valid() && state == FindingFirstBoundary
      modifies this, buffer
      ensures buffer == old(buffer) && buffer != null && Valid()
      ensures (r, View()) == old(View()).AdvanceFirstBoundary()
    {
      hide BufferState.ReadTo;
      ghost var p1 := View().AdvanceFirstBoundary().1;
      r := buffer.PollReadTo(firstBoundary);
      if r.Done() {
        state := ReadingBoundary;
      }
    }

    method PollAdvanceAfterBoundary() returns (r: Poll<()>)
      requires Valid() && state == ReadingBoundary
      modifies this, buffer
      ensures buffer == old(buffer) && buffer != null && Valid()
      ensures (r, View()) == old(View()).AdvanceAfterBoundary()
    {
      hide BoundaryStep;
      ghost var p1 := View().AdvanceAfterBoundary().1;
      var line := buffer.PollBoundaryLine();
      match line {
        case Pending => return Pending;
        case Ready(Err(e)) => return Ready(Err(e));
        case Ready(Ok(closing)) =>
          state := if closing then ReadingClosingDelimiter else ReadingPartHeaders;
          return Ready(Ok(()));
      }
    }

    method PollAdvanceClosing() returns (r: Poll<()>)
      requires Valid() && state == ReadingClosingDelimiter
      modifies this, buffer
      ensures buffer == old(buffer) && buffer != null && Valid()
      ensures (r, View()) == old(View()).AdvanceClosing()
    {
      hide ConsumePaddingAndCrlf;
      ghost var p1 := View().AdvanceClosing().1;
      r := buffer.PollConsumePaddingAndCrlf(IncompleteStream);
      if r.Done() {
        state := ReadingEpilogue;
      }
    }

    method PollEpilogue() returns (r: Poll<()>)
      requires Valid() && state == ReadingEpilogue
      modifies this, buffer
      ensures buffer == old(buffer) && buffer != null && Valid()
      ensures (r, View()) == old(View()).AdvanceEpilogue()
    {
      hide EpilogueStep;
      ghost var p1 := View().AdvanceEpilogue().1;
      r := buffer.PollEpilogue();
      if r.Done() {
        state := State.Done;
      }
    }

    method PollEnsureHeaders() returns (r: Poll<()>)
      requires Valid() && state != StreamTaken && (state == ReadingPartHeaders ==> partHandedOut)
      modifies this, buffer
      ensures buffer == old(buffer) && buffer != null && Valid()
      ensures (r, View()) == old(View()).EnsureHeaders()
    {
      hide BufferState.ReadHeaderBlock, HeaderBlockFallback;
      ghost var p1 := View().EnsureHeaders().1;
      if headers.Some? || state != ReadingPartHeaders {
        return Ready(Ok(()));
      }
      var end := buffer.PollReadHeaderBlock(cfg.maxBufferSize);
      if end.Pending? {
        return Pending;
      }
      if end.result.Err? {
        return Ready(Err(end.result.error));
      }
      var block := ReadBlock(buffer.buf[..end.result.value]);
      if block.Err? {
        return Ready(Err(block.error));
      }
      headers := Some(block.value);
      return Ready(Ok(()));
    }

    /** `parse_header_block`: the library's answer, or the fallback for surplus fields. */
    method ReadBlock(block: seq<Byte>) returns (r: Result<HeaderBlock>)
      ensures r == ParseHeaderBlock(cfg.lib, block)
    {
      hide HeaderBlockFallback;
      match cfg.lib.httparse(block) {
        case Complete(dataStart, fields) => return Ok(HeaderBlock(fields, 0, dataStart));
        case Partial => return Err(IncompleteStream);
        case TooManyHeaders => r := ParseHeaderBlockFallback(block);
        case Malformed => return Err(InvalidFormat);
      }
    }

    method FinishHeaders()
      requires Valid() && state != StreamTaken
      modifies this, buffer
      ensures buffer == old(buffer) && buffer != null && Valid()
      ensures View() == old(View()).FinishHeaders()
    {
      ghost var p1 := View().FinishHeaders();
      if headers.Some? {
        buffer.buf := buffer.buf[headers.value.dataStart..];
        state := ReadingPartData;
        headers := None;
        partHandedOut := false;
      }
    }

    method NextHeaderInner() returns (r: Result<Option<Field>>)
      requires Valid() && state != StreamTaken
      modifies this, buffer
      ensures buffer == old(buffer) && buffer != null && Valid()
      ensures (r, View()) == old(View()).NextHeaderInner()
    {
      ghost var p1 := View().NextHeaderInner().1;
      if headers.None? {
        return Ok(None);
      }
      var block := headers.value;
      if block.next >= |block.spans| {
        FinishHeaders();
        return Ok(None);
      }
      headers := Some(block.(next := block.next + 1));
      var field := FieldOf(buffer.buf, block.spans[block.next]);
      return if cfg.lib.utf8(field.name) then Ok(Some(field)) else Err(InvalidFormat);
    }

    method PollNextPartDataChunk() returns (r: Poll<Option<seq<Byte>>>)
      requires Valid() && state != StreamTaken
      modifies this, buffer
      ensures buffer == old(buffer) && buffer != null && Valid()
      ensures (r, View()) == old(View()).NextDataChunk()
    {
      hide NextData;
      ghost var p1 := View().NextDataChunk().1;
      if state != ReadingPartData {
        return Ready(Ok(None));
      }
      var item := buffer.PollNextData(delimiterFinder.value, IncompleteStream);
      match item {
        case Pending => return Pending;
        case Ready(Err(e)) => return Ready(Err(e));
        case Ready(Ok(data)) =>
          if data.last {
            state := ReadingBoundary;
          }
          return Ready(Ok(if data.data == [] then None else Some(data.data)));
      }
    }

    method PollSkipPartData() returns (r: Poll<()>)
      requires Valid() && state in {ReadingPartData, ReadingBoundary}
      modifies this, buffer
      ensures buffer == old(buffer) && buffer != null && Valid()
      ensures (r, View()) == old(View()).SkipPartData()
    {
      hide Parser.NextDataChunk;
      ghost var all := View().SkipPartData();
      while true
        invariant buffer == old(buffer) && buffer != null && Valid()
        invariant state in {ReadingPartData, ReadingBoundary} && View().SkipPartData() == all
        decreases |buffer.events|, |buffer.buf|
      {
        var d := PollNextPartDataChunk();
        match d {
          case Pending => return Pending;
          case Ready(Err(e)) => return Ready(Err(e));
          case Ready(Ok(None)) => return Ready(Ok(()));
          case Ready(Ok(Some(_))) =>
        }
      }
    }

    /** Walks to the next part; the answer is whether one is handed out. */
    method PollNextPart() returns (r: Poll<bool>)
      requires Valid()
      modifies this, buffer
      ensures buffer == old(buffer) && Valid()
      ensures old(state) == StreamTaken ==> r == Ready(Err(StreamAlreadyTaken)) && state == StreamTaken
      ensures old(state) != StreamTaken ==> buffer != null && (r, View()) == old(View()).NextPart()
    {
      hide Parser.EnsureHeaders, Parser.SkipPartData, Parser.FinishHeaders;
      hide Parser.AdvanceAfterBoundary, Parser.AdvanceFirstBoundary, Parser.AdvanceClosing, Parser.AdvanceEpilogue;
      if state == StreamTaken {
        return Ready(Err(StreamAlreadyTaken));
      }
      ghost var all := View().NextPart();
      while true
        invariant buffer == old(buffer) && buffer != null && Valid() && View().NextPart() == all
        decreases |buffer.events|, |buffer.buf|, View().Rank()
      {
        var s: Poll<()>;
        match state {
          case Done =>
            return Ready(Ok(false));
          case FindingFirstBoundary =>
            s := PollAdvanceFirstBoundary();
          case ReadingPartHeaders =>
            if !partHandedOut {
              partHandedOut := true;
              return Ready(Ok(true));
            }
            s := PollEnsureHeaders();
            if s.Done() { FinishHeaders(); }
          case ReadingPartData =>
            s := PollSkipPartData();
            if s.Done() { s := PollAdvanceAfterBoundary(); }
          case ReadingBoundary =>
            s := PollAdvanceAfterBoundary();
          case ReadingClosingDelimiter =>
            s := PollAdvanceClosing();
          case ReadingEpilogue =>
            s := PollEpilogue();
        }
        if !s.Done() {
          return Relabel(s, false);
        }
      }
    }

    // ----- The part that is out

    /** `Part::poll_next_header`. */
    method PollNextHeader() returns (r: Poll<Option<Field>>)
      requires Valid() && state != StreamTaken && (state == ReadingPartHeaders ==> partHandedOut)
      modifies this, buffer
      ensures buffer == old(buffer) && buffer != null && Valid()
      ensures var (h, p1) := old(View()).EnsureHeaders();
              if !h.Done() then r == Relabel(h, None) && View() == p1
              else (r, View()) == (Ready(p1.NextHeaderInner().0), p1.NextHeaderInner().1)
    {
      hide Parser.EnsureHeaders, Parser.NextHeaderInner;
      var h := PollEnsureHeaders();
      if !h.Done() {
        return Relabel(h, None);
      }
      var field := NextHeaderInner();
      return Ready(field);
    }

    /** `Part::poll_next_data`. */
    method PollNextData() returns (r: Poll<Option<seq<Byte>>>)
      requires Valid() && state != StreamTaken && (state == ReadingPartHeaders ==> partHandedOut)
      modifies this, buffer
      ensures buffer == old(buffer) && buffer != null && Valid()
      ensures var (h, p1) := old(View()).EnsureHeaders();
              if !h.Done() then r == Relabel(h, None) && View() == p1
              else (r, View()) == p1.FinishHeaders().NextDataChunk()
    {
      hide Parser.EnsureHeaders, Parser.FinishHeaders, Parser.NextDataChunk;
      var h := PollEnsureHeaders();
      if !h.Done() {
        return Relabel(h, None);
      }
      FinishHeaders();
      r := PollNextPartDataChunk();
    }

    /** `Part::take_data_stream`: hands the buffer over; the parser is of no further use. */
    method TakeDataStream() returns (r: Result<PartDataStream>)
      requires Valid()
      modifies this, buffer
      ensures Valid()
      ensures old(state) == StreamTaken ==> r == Err(InvalidFormat) && state == StreamTaken
      ensures old(state) != StreamTaken ==>
                var p := old(View()).FinishHeaders();
                if p.state != ReadingPartData then
                  r == Err(InvalidFormat) && buffer == old(buffer) && buffer != null && View() == p
                else
                  && state == StreamTaken && buffer == null && delimiterFinder.None?
                  && r.Ok? && fresh(r.value) && r.value.buffer == old(buffer)
                  && r.value.View() == Take(p)
    {
      if state == ReadingPartHeaders {
        FinishHeaders();
      }
      if state != ReadingPartData {
        return Err(InvalidFormat);
      }
      var taken, delim := buffer, delimiterFinder.value;
      var consumed := if taken.polledTotal >= |taken.buf| then taken.polledTotal - |taken.buf| else 0;
      buffer, delimiterFinder, state := null, None, StreamTaken;
      var stream := new PartDataStream(taken, delim, consumed, false, false);
      return Ok(stream);
    }
  }

  /** The part data alone, up to the delimiter. */
  class PartDataStream {
    const buffer: StreamBuffer
    const delimiterFinder: seq<Byte>
    const multipartConsumed: nat
    var done: bool
    var terminated: bool

    ghost function View(): PartStream
      reads this, buffer
    {
      PartStream(buffer.View(), delimiterFinder, multipartConsumed, done, terminated)
    }

    constructor (buffer: StreamBuffer, delim: seq<Byte>, consumed: nat, done: bool, terminated: bool)
      ensures View() == PartStream(buffer.View(), delim, consumed, done, terminated) && this.buffer == buffer
    {
      this.buffer, delimiterFinder, multipartConsumed := buffer, delim, consumed;
      this.done, this.terminated := done, terminated;
    }

    method PollData() returns (r: Item)
      requires delimiterFinder != []
      modifies this, buffer
      ensures (r, View()) == old(View()).PollData()
    {
      hide NextData;
      if done || terminated {
        return Over;
      }
      var item := buffer.PollNextData(delimiterFinder, IncompleteStreamPart);
      match item {
        case Pending => return NotReady;
        case Ready(Err(e)) =>
          terminated := true;
          return Fault(e);
        case Ready(Ok(data)) =>
          done := data.last;
          return if data.data == [] then Over else Piece(data.data);
      }
    }

    /** Makes the stream strict; this one is consumed by it. */
    method IntoFinal() returns (f: FinalPartDataStream)
      ensures fresh(f) && f.buffer == buffer && f.View() == View().IntoFinal()
    {
      f := new FinalPartDataStream(buffer, delimiterFinder, multipartConsumed, done, terminated);
    }
  }

  /** The rest of the part data, then the strict closing. */
  class FinalPartDataStream {
    const buffer: StreamBuffer
    const delimiterFinder: seq<Byte>
    const multipartConsumed: nat
    const aborted: bool
    var state: DataState
    var terminated: bool

    ghost function View(): FinalStream
      reads this, buffer
    {
      FinalStream(buffer.View(), delimiterFinder, state, multipartConsumed, aborted, terminated)
    }

    constructor (buffer: StreamBuffer, delim: seq<Byte>, consumed: nat, dataDone: bool, aborted: bool)
      ensures this.buffer == buffer
      ensures View() == PartStream(buffer.View(), delim, consumed, dataDone, aborted).IntoFinal()
    {
      this.buffer, delimiterFinder, multipartConsumed := buffer, delim, consumed;
      this.aborted, terminated := aborted, false;
      state := if dataDone then AfterBoundary else Data;
    }

    /** One turn of `poll_trailer`. */
    method PollTrailerStep() returns (r: Poll<()>)
      requires state != Data && state != Closed
      modifies this, buffer
      ensures (r, View()) == old(View()).TrailerStep()
    {
      hide EnsureLen, ConsumePaddingAndCrlf, EpilogueStep;
      match state {
        case AfterBoundary =>
          r := buffer.PollEnsureLen(2, IncompleteStreamPart);
          if r.Done() {
            if !StartsWith(buffer.buf, [DASH, DASH]) {
              return Ready(Err(NotClosing(buffer.buf[0])));
            }
            buffer.buf := buffer.buf[2..];
            state := FinalCRLF;
          }
        case FinalCRLF =>
          r := buffer.PollConsumePaddingAndCrlf(IncompleteStreamPart);
          if r.Done() { state := Eof; }
        case Eof =>
          r := buffer.PollEpilogue();
          if r.Done() { state := Closed; }
      }
    }

    method PollNext() returns (r: Item)
      requires delimiterFinder != []
      modifies this, buffer
      ensures (r, View()) == old(View()).PollNext()
    {
      hide NextData, FinalStream.TrailerStep;
      ghost var all := View().PollNext();
      while true
        invariant View().PollNext() == all
        decreases |buffer.events|, |buffer.buf|, View().Rank()
      {
        if terminated || state == Closed {
          return Over;
        }
        if state == Data {
          if aborted {
            terminated := true;
            return Fault(IncompleteStreamPart);
          }
          var item := buffer.PollNextData(delimiterFinder, IncompleteStreamPart);
          match item {
            case Pending => return NotReady;
            case Ready(Err(e)) =>
              terminated := true;
              return Fault(e);
            case Ready(Ok(data)) =>
              if data.last { state := AfterBoundary; }
              if data.data != [] { return Piece(data.data); }
          }
        } else {
          var s := PollTrailerStep();
          match s {
            case Pending => return NotReady;
            case Ready(Err(e)) =>
              terminated := true;
              return Fault(e);
            case Ready(Ok(_)) =>
          }
        }
      }
    }
  }
}
