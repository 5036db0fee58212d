/** The parser's state machine on values: one function per poll step, as the parser object takes it. */
module Machine {
  import opened Bytes
  import opened Errors
  import opened Stream
  import opened Delimiter
  import opened Headers
  import opened Grammar
  import opened Lines

  datatype State =
    | FindingFirstBoundary
    | ReadingPartHeaders
    | ReadingPartData
    | ReadingBoundary
    | ReadingClosingDelimiter
    | ReadingEpilogue
    | Done
    | StreamTaken

  /** A parser that still owns its buffer. */
  datatype Parser = Parser(
    cfg: Config,
    state: State,
    headers: Option<HeaderBlock>,
    partHandedOut: bool,
    buffer: BufferState
  ) {
    /**
     * Held headers belong to the header phase and point into the buffer, and so does a resumed
     * search; a part waiting to be read is in the header phase.
     */
    ghost predicate WellFormed() {
      && cfg.lib.Bounded()
      && state != StreamTaken
      && (headers.Some? ==> state == ReadingPartHeaders && partHandedOut && headers.value.Inside(|buffer.buf|))
      && (partHandedOut ==> state == ReadingPartHeaders)
      && (buffer.active ==> state == ReadingPartHeaders && headers.None? && buffer.cursor <= |buffer.buf|)
    }

    function AdvanceFirstBoundary(): (r: (Poll<()>, Parser))
      requires WellFormed() && state == FindingFirstBoundary
      ensures r.1.WellFormed() && r.1.cfg == cfg
      ensures r.0.Done() ==> Behind(r.1.buffer, buffer)
    {
      var (r, b) := buffer.ReadTo(cfg.First());
      (r, this.(buffer := b, state := if r.Done() then ReadingBoundary else state))
    }

    function AdvanceAfterBoundary(): (r: (Poll<()>, Parser))
      requires WellFormed() && state == ReadingBoundary
      ensures r.1.WellFormed() && r.1.cfg == cfg
      ensures NotAhead(r.1.buffer, buffer) && (r.0.Done() ==> Behind(r.1.buffer, buffer))
    {
      var (r, b) := BoundaryStep(buffer);
      match r
      case Pending => (Pending, this.(buffer := b))
      case Ready(Err(e)) => (Ready(Err(e)), this.(buffer := b))
      case Ready(Ok(closing)) =>
        (Ready(Ok(())), this.(buffer := b, state := if closing then ReadingClosingDelimiter else ReadingPartHeaders))
    }

    function AdvanceClosing(): (r: (Poll<()>, Parser))
      requires WellFormed() && state == ReadingClosingDelimiter
      ensures r.1.WellFormed() && r.1.cfg == cfg
      ensures r.0.Done() ==> Behind(r.1.buffer, buffer)
    {
      var (r, b) := ConsumePaddingAndCrlf(buffer, IncompleteStream);
      (r, this.(buffer := b, state := if r.Done() then ReadingEpilogue else state))
    }

    function AdvanceEpilogue(): (r: (Poll<()>, Parser))
      requires WellFormed() && state == ReadingEpilogue
      ensures r.1.WellFormed() && r.1.cfg == cfg
      ensures NotAhead(r.1.buffer, buffer) && (r.0.Done() ==> r.1.state == Done)
    {
      var (r, b) := EpilogueStep(buffer);
      (r, this.(buffer := b, state := if r.Done() then Done else state))
    }

    // ----- The header stage

    function EnsureHeaders(): (r: (Poll<()>, Parser))
      requires WellFormed() && (state == ReadingPartHeaders ==> partHandedOut)
      ensures r.1.WellFormed() && r.1.cfg == cfg && r.1.state == state && r.1.partHandedOut == partHandedOut
      ensures NotAhead(r.1.buffer, buffer)
      ensures r.0.Done() && state == ReadingPartHeaders ==> r.1.headers.Some?
      ensures r.0.Pending? ==> headers.None? && r.1.headers.None?
    {
      if headers.Some? || state != ReadingPartHeaders then (Ready(Ok(())), this)
      else
        var (r, b) := buffer.ReadHeaderBlock(cfg.maxBufferSize);
        match r
        case Pending => (Pending, this.(buffer := b))
        case Ready(Err(e)) => (Ready(Err(e)), this.(buffer := b))
        case Ready(Ok(end)) =>
          match ParseHeaderBlock(cfg.lib, b.buf[..end])
          case Err(e) => (Ready(Err(e)), this.(buffer := b))
          case Ok(block) => (Ready(Ok(())), this.(buffer := b, headers := Some(block)))
    }

    function FinishHeaders(): (p: Parser)
      requires WellFormed()
      ensures p.WellFormed() && p.cfg == cfg && NotAhead(p.buffer, buffer)
      ensures headers.None? ==> p == this
      ensures headers.Some? ==> p.state == ReadingPartData && !p.partHandedOut
    {
      if headers.None? then this
      else
        this.(headers := None,
              buffer := buffer.Split(headers.value.dataStart),
              state := ReadingPartData,
              partHandedOut := false)
    }

    function NextHeaderInner(): (r: (Result<Option<Field>>, Parser))
      requires WellFormed()
      ensures r.1.WellFormed() && r.1.cfg == cfg
    {
      if headers.None? then (Ok(None), this)
      else
        var block := headers.value;
        if block.next >= |block.spans| then (Ok(None), FinishHeaders())
        else
          var field := FieldOf(buffer.buf, block.spans[block.next]);
          (if cfg.lib.utf8(field.name) then Ok(Some(field)) else Err(InvalidFormat),
           this.(headers := Some(block.(next := block.next + 1))))
    }

    // ----- The data stage

    function NextDataChunk(): (r: (Poll<Option<seq<Byte>>>, Parser))
      requires WellFormed()
      ensures r.1.WellFormed() && r.1.cfg == cfg && NotAhead(r.1.buffer, buffer)
      ensures r.0.Done() && r.0.result.value.Some? ==> r.0.result.value.value != [] && Behind(r.1.buffer, buffer)
      ensures r.0.Done() && state == ReadingPartData ==>
                Behind(r.1.buffer, buffer)
                && (r.1.state == ReadingBoundary || (r.1.state == ReadingPartData && r.0.result.value.Some?))
      ensures state != ReadingPartData ==> r == (Ready(Ok(None)), this)
      ensures r.1.state == state || r.1.state == ReadingBoundary
    {
      if state != ReadingPartData then (Ready(Ok(None)), this)
      else
        var (r, b) := NextData(buffer, cfg.Delim(), IncompleteStream);
        match r
        case Pending => (Pending, this.(buffer := b))
        case Ready(Err(e)) => (Ready(Err(e)), this.(buffer := b))
        case Ready(Ok(item)) =>
          (Ready(Ok(if item.data == [] then None else Some(item.data))),
           this.(buffer := b, state := if item.last then ReadingBoundary else state))
    }

    function SkipPartData(): (r: (Poll<()>, Parser))
      requires WellFormed() && state in {ReadingPartData, ReadingBoundary}
      ensures r.1.WellFormed() && r.1.cfg == cfg && NotAhead(r.1.buffer, buffer)
      ensures r.0.Done() ==>
                r.1.state == ReadingBoundary && (state == ReadingPartData ==> Behind(r.1.buffer, buffer))
      decreases |buffer.source.events|, |buffer.buf|
    {
      var (r, p) := NextDataChunk();
      match r
      case Pending => (Pending, p)
      case Ready(Err(e)) => (Ready(Err(e)), p)
      case Ready(Ok(None)) => (Ready(Ok(())), p)
      case Ready(Ok(Some(_))) => p.SkipPartData()
    }

    // ----- Handing out parts

    function Rank(): nat {
      if state == ReadingPartHeaders then 2 else if state == ReadingEpilogue then 1 else 0
    }

    /** Walks to the next part: `true` when one is handed out, `false` after the closing delimiter. */
    function NextPart(): (r: (Poll<bool>, Parser))
      requires WellFormed()
      ensures r.1.WellFormed() && r.1.cfg == cfg
      decreases |buffer.source.events|, |buffer.buf|, Rank()
    {
      match state
      case Done => (Ready(Ok(false)), this)
      case StreamTaken => (Ready(Err(StreamAlreadyTaken)), this)
      case ReadingPartHeaders =>
        if !partHandedOut then (Ready(Ok(true)), this.(partHandedOut := true))
        else
          var (r, p) := EnsureHeaders();
          if !r.Done() then (Relabel(r, false), p) else p.FinishHeaders().NextPart()
      case ReadingPartData =>
        var (r, p) := SkipPartData();
        if !r.Done() then (Relabel(r, false), p)
        else
          var (r2, p2) := p.AdvanceAfterBoundary();
          if !r2.Done() then (Relabel(r2, false), p2) else p2.NextPart()
      case _ =>
        var (r, p) := Step();
        if !r.Done() then (Relabel(r, false), p) else p.NextPart()
    }

    /** The step of a state that reads structure. */
    function Step(): (r: (Poll<()>, Parser))
      requires WellFormed()
      requires state in {FindingFirstBoundary, ReadingBoundary, ReadingClosingDelimiter, ReadingEpilogue}
      ensures r.1.WellFormed() && r.1.cfg == cfg
      ensures r.0.Done() ==>
                Behind(r.1.buffer, buffer) || (NotAhead(r.1.buffer, buffer) && r.1.Rank() < Rank())
    {
      match state
      case FindingFirstBoundary => AdvanceFirstBoundary()
      case ReadingBoundary => AdvanceAfterBoundary()
      case ReadingClosingDelimiter => AdvanceClosing()
      case ReadingEpilogue => AdvanceEpilogue()
    }
  }
}
