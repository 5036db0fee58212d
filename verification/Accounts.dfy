/** Over every sequence of calls: where each byte of the body is, and how large the buffer can get. */
module Accounts {
  import opened Bytes
  import opened Errors
  import opened Stream
  import opened Delimiter
  import opened Headers
  import opened Grammar
  import opened Lines
  import opened Machine
  import opened Refinement
  import opened Walks
  import opened Tours

  // ----- The size of the buffer

  /** At most one chunk beyond `room` is retained, and no chunk to come is longer than `cap`. */
  predicate Fits(b: BufferState, room: nat, cap: nat) {
    |b.buf| <= room + cap && b.source.Capped(cap)
  }

  lemma PullFits(b: BufferState, room: nat, cap: nat)
    requires Fits(b, room, cap) && |b.buf| <= room
    ensures Fits(b.Pull().1, room, cap) && Fits(b.PollStream().1, room, cap)
    ensures b.Pull().0.Next? ==> |b.Pull().0.chunk| <= cap
  {
    hide Source.Capped;
    PollCapped(b.source, EMPTY_CHUNKS_PER_POLL, cap);
  }

  lemma {:induction false} SearchOnFits(b: BufferState, needle: seq<Byte>, max: nat, room: nat, cap: nat)
    requires b.active && b.cursor <= |b.buf| && Fits(b, room, cap) && max <= room
    ensures Fits(b.SearchOn(needle, max).1, room, cap)
    decreases |b.source.events|
  {
    hide Source.Capped, Find, ResumeAt;
    if Find(b.buf[b.cursor..], needle).None? && |b.buf| <= max && !b.eof {
      PullFits(b, room, cap);
      var (p, b1) := b.Pull();
      if p.Next? { SearchOnFits(b1.(cursor := ResumeAt(|b.buf|, needle)), needle, max, room, cap); }
    }
  }

  lemma {:induction false} ReadHeaderBlockFits(b: BufferState, max: nat, room: nat, cap: nat)
    requires (b.active ==> b.cursor <= |b.buf|) && Fits(b, room, cap) && max <= room && 1 <= room
    ensures Fits(b.ReadHeaderBlock(max).1, room, cap)
    decreases |b.source.events|
  {
    hide Source.Capped, BufferState.SearchOn;
    var b0 := b.(active := false);
    if |b.buf| < 2 && !b.eof {
      PullFits(b0, room, cap);
      var (p, b1) := b0.Pull();
      if p.Next? { ReadHeaderBlockFits(b1, max, room, cap); }
      if p.Ended? { SearchOnFits(b1.(cursor := 0, active := true), CRLF + CRLF, max, room, cap); }
    } else {
      SearchOnFits(b.(cursor := if b.active then b.cursor else 0, active := true), CRLF + CRLF, max, room, cap);
    }
  }

  lemma {:induction false} ReadToFits(b: BufferState, needle: seq<Byte>, room: nat, cap: nat)
    requires needle != [] && |b.buf| < |needle| <= room + 1 && Fits(b, room, cap)
    ensures var (r, b1) := b.ReadTo(needle); Fits(b1, room, cap) && (!r.Done() ==> |b1.buf| < |needle|)
    decreases |b.source.events|
  {
    hide Source.Capped, Find;
    if Find(b.buf, needle).None? && !b.eof {
      PullFits(b, room, cap);
      var (p, b1) := b.PollStream();
      if p.Next? {
        var hay := b.buf + p.chunk;
        if Find(hay, needle).None? { ReadToFits(b1.(buf := hay[ResumeAt(|hay|, needle)..]), needle, room, cap); }
      }
    }
  }

  lemma {:induction false} EnsureLenFits(b: BufferState, len: nat, atEnd: Error, room: nat, cap: nat)
    requires Fits(b, room, cap) && len <= room + 1
    ensures Fits(EnsureLen(b, len, atEnd).1, room, cap)
    decreases |b.source.events|
  {
    hide Source.Capped;
    if |b.buf| < len {
      PullFits(b, room, cap);
      var (p, b1) := b.Pull();
      if p.Next? { EnsureLenFits(b1, len, atEnd, room, cap); }
    }
  }

  lemma ConsumeCrlfFits(b: BufferState, atEnd: Error, room: nat, cap: nat)
    requires Fits(b, room, cap) && 1 <= room
    ensures Fits(ConsumeCrlf(b, atEnd).1, room, cap)
  {
    hide Source.Capped, EnsureLen;
    EnsureLenFits(b, 2, atEnd, room, cap);
  }

  lemma {:induction false} ConsumePaddingFits(b: BufferState, atEnd: Error, room: nat, cap: nat)
    requires Fits(b, room, cap) && 1 <= room
    ensures Fits(ConsumePaddingAndCrlf(b, atEnd).1, room, cap)
    decreases |b.source.events|, |b.buf|
  {
    hide Source.Capped, EnsureLen, ConsumeCrlf, PadLen;
    EnsureLenFits(b, 1, atEnd, room, cap);
    var (r, b1) := EnsureLen(b, 1, atEnd);
    if r.Done() {
      ConsumeCrlfFits(b1, atEnd, room, cap);
      if b1.buf[0] != CR && IsPad(b1.buf[0]) {
        PadLenPositive(b1.buf);
        ConsumePaddingFits(b1.Split(PadLen(b1.buf)), atEnd, room, cap);
      }
    }
  }

  lemma {:induction false} NextDataFits(b: BufferState, delim: seq<Byte>, atEnd: Error, room: nat, cap: nat)
    requires delim != [] && Fits(b, room, cap) && |delim| <= room + 1
    ensures Fits(NextData(b, delim, atEnd).1, room, cap)
    decreases |b.source.events|
  {
    hide Source.Capped, SearchData;
    if b.buf == [] || SearchData(b.buf, delim).KeepAll? {
      if b.buf != [] { HoldBackSafe(b.buf, [], delim); }
      PullFits(b, room, cap);
      var (p, b1) := b.Pull();
      if p.Next? { NextDataFits(b1, delim, atEnd, room, cap); }
    }
  }

  lemma BoundaryStepFits(b: BufferState, room: nat, cap: nat)
    requires Fits(b, room, cap) && 1 <= room
    ensures Fits(BoundaryStep(b).1, room, cap)
  {
    hide Source.Capped, EnsureLen, ConsumeCrlf, ConsumePaddingAndCrlf;
    EnsureLenFits(b, 1, IncompleteStream, room, cap);
    var b1 := EnsureLen(b, 1, IncompleteStream).1;
    EnsureLenFits(b1, 2, IncompleteStream, room, cap);
    ConsumePaddingFits(b1, IncompleteStream, room, cap);
    ConsumeCrlfFits(b1, IncompleteStream, room, cap);
  }

  function Max(a: nat, b: nat): nat {
    if a < b then b else a
  }

  /** What the parser retains beyond the last chunk: a header block up to the limit, or a partial delimiter. */
  function Room(p: Parser): (n: nat)
    ensures n >= 3
  {
    Max(p.cfg.maxBufferSize, |p.cfg.Delim()| - 1)
  }

  predicate Bounded(p: Parser, cap: nat) {
    Fits(p.buffer, Room(p), cap) && (p.state == FindingFirstBoundary ==> |p.buffer.buf| < |p.cfg.First()|)
  }

  lemma StepBounded(p: Parser, cap: nat)
    requires p.WellFormed() && Bounded(p, cap)
    requires p.state in {FindingFirstBoundary, ReadingBoundary, ReadingClosingDelimiter, ReadingEpilogue}
    ensures Bounded(p.Step().1, cap)
  {
    hide Source.Capped, BufferState.ReadTo, BoundaryStep, ConsumePaddingAndCrlf;
    match p.state
    case FindingFirstBoundary => ReadToFits(p.buffer, p.cfg.First(), Room(p), cap);
    case ReadingBoundary => BoundaryStepFits(p.buffer, Room(p), cap);
    case ReadingClosingDelimiter => ConsumePaddingFits(p.buffer, IncompleteStream, Room(p), cap);
    case ReadingEpilogue =>
      if p.buffer.buf == [] { PullFits(p.buffer, Room(p), cap); }
  }

  lemma EnsureHeadersBounded(p: Parser, cap: nat)
    requires p.WellFormed() && (p.state == ReadingPartHeaders ==> p.partHandedOut) && Bounded(p, cap)
    ensures Bounded(p.EnsureHeaders().1, cap)
  {
    hide Source.Capped, BufferState.ReadHeaderBlock, ParseHeaderBlock;
    ReadHeaderBlockFits(p.buffer, p.cfg.maxBufferSize, Room(p), cap);
  }

  lemma NextDataChunkBounded(p: Parser, cap: nat)
    requires p.WellFormed() && Bounded(p, cap)
    ensures Bounded(p.NextDataChunk().1, cap)
  {
    hide Source.Capped, NextData;
    NextDataFits(p.buffer, p.cfg.Delim(), IncompleteStream, Room(p), cap);
  }

  lemma {:induction false} SkipPartDataBounded(p: Parser, cap: nat)
    requires p.WellFormed() && p.state in {ReadingPartData, ReadingBoundary} && Bounded(p, cap)
    ensures Bounded(p.SkipPartData().1, cap)
    decreases |p.buffer.source.events|, |p.buffer.buf|
  {
    hide Parser.NextDataChunk, Bounded;
    NextDataChunkBounded(p, cap);
    var (r, p1) := p.NextDataChunk();
    if r.Done() && r.result.value.Some? { SkipPartDataBounded(p1, cap); }
  }

  lemma {:induction false} NextPartBounded(p: Parser, cap: nat)
    requires p.WellFormed() && Bounded(p, cap)
    ensures Bounded(p.NextPart().1, cap)
    decreases |p.buffer.source.events|, |p.buffer.buf|, p.Rank()
  {
    hide Source.Capped, Parser.EnsureHeaders, Parser.SkipPartData, Parser.AdvanceAfterBoundary;
    match p.state
    case Done =>
    case StreamTaken =>
    case ReadingPartHeaders =>
      if p.partHandedOut {
        EnsureHeadersBounded(p, cap);
        var (r, p1) := p.EnsureHeaders();
        if r.Done() { NextPartBounded(p1.FinishHeaders(), cap); }
      }
    case ReadingPartData =>
      SkipPartDataBounded(p, cap);
      var (r, p1) := p.SkipPartData();
      if r.Done() {
        StepBounded(p1, cap);
        var (r2, p2) := p1.AdvanceAfterBoundary();
        if r2.Done() { NextPartBounded(p2, cap); }
      }
    case _ =>
      StepBounded(p, cap);
      var (r, p1) := p.Step();
      if r.Done() { NextPartBounded(p1, cap); }
  }

  lemma UseBounded(p: Parser, op: ClientOp, cap: nat)
    requires p.WellFormed() && (p.state == ReadingPartHeaders ==> p.partHandedOut) && Bounded(p, cap)
    ensures Bounded(Use(p, op).1, cap)
  {
    hide Source.Capped, Parser.EnsureHeaders, Parser.NextDataChunk;
    EnsureHeadersBounded(p, cap);
    var (h, p1) := p.EnsureHeaders();
    if h.Done() && op == PollData {
      NextDataChunkBounded(p1.FinishHeaders(), cap);
    }
  }

  // ----- Every sequence of calls

  datatype Call = PollNextPart | PollPart(op: ClientOp)

  /** Makes one call; `None` when it fails. A part is only used while one is out. */
  function Make(p: Parser, call: Call): Option<Parser>
    requires p.WellFormed()
  {
    match call
    case PollNextPart =>
      var (r, p1) := p.NextPart();
      if r.Failed() then None else Some(p1)
    case PollPart(op) =>
      if p.state == ReadingPartHeaders && !p.partHandedOut then Some(p)
      else
        var (r, p1) := Use(p, op);
        if r.Failed() then None else Some(p1)
  }

  lemma MakeKeeps(p: Parser, call: Call, cap: nat)
    requires Inv(p)
    ensures var p1 := Make(p, call);
            p1.Some? ==> Goes(p, p1.value) && (Bounded(p, cap) ==> Bounded(p1.value, cap))
  {
    hide Source.Bytes, Source.Ending, Source.Smooth, Source.Capped, Ahead, Advances, Parser.NextPart, Use, Bounded;
    match call
    case PollNextPart =>
      NextPartWalks(p);
      if Bounded(p, cap) { NextPartBounded(p, cap); }
    case PollPart(op) =>
      if p.state == ReadingPartHeaders && !p.partHandedOut {
        Unmoved(p.buffer);
      } else {
        UseKeeps(p, op);
        if Bounded(p, cap) { UseBounded(p, op, cap); }
      }
  }

  /** Makes the calls in turn, giving up at the first failure. */
  ghost function Run(p: Parser, calls: seq<Call>): Parser
    requires Inv(p)
    decreases |calls|
  {
    if calls == [] then p
    else
      MakeKeeps(p, calls[0], 0);
      var p1 := Make(p, calls[0]);
      if p1.None? then p else Run(p1.value, calls[1..])
  }

  lemma {:induction false} RunKeeps(p: Parser, calls: seq<Call>, cap: nat)
    requires Inv(p) && Bounded(p, cap)
    ensures var p1 := Run(p, calls); Goes(p, p1) && Bounded(p1, cap)
    decreases |calls|
  {
    hide Source.Bytes, Source.Ending, Source.Smooth, Source.Capped, Ahead, Advances, Make, Bounded;
    Unmoved(p.buffer);
    if calls != [] {
      MakeKeeps(p, calls[0], cap);
      var p1 := Make(p, calls[0]);
      if p1.Some? {
        RunKeeps(p1.value, calls[1..], cap);
        MovesOnTwice(p.buffer, p1.value.buffer, Run(p1.value, calls[1..]).buffer);
      }
    }
  }

  lemma {:induction false} RunGoes(p: Parser, calls: seq<Call>)
    requires Inv(p)
    ensures Goes(p, Run(p, calls))
    decreases |calls|
  {
    hide Source.Bytes, Source.Ending, Source.Smooth, Ahead, Advances, Make, Bounded;
    Unmoved(p.buffer);
    if calls != [] {
      MakeKeeps(p, calls[0], 0);
      var p1 := Make(p, calls[0]);
      if p1.Some? {
        RunGoes(p1.value, calls[1..]);
        MovesOnTwice(p.buffer, p1.value.buffer, Run(p1.value, calls[1..]).buffer);
      }
    }
  }

  lemma Unmoved(b: BufferState)
    requires Sane(b)
    ensures MovesOn(b, b)
  {
    hide Source.Bytes, Source.Ending, Source.Smooth;
  }

  /**
   * In every state a client can reach without a failure: held headers, resumed searches and waiting
   * parts are consistent; the body is the consumed prefix, then the buffer, then the unread stream,
   * with the counter at the prefix length; the buffer holds at most one chunk beyond the larger of
   * the header limit and a partial delimiter.
   */
  lemma EveryUnfailedState(cfg: Config, events: seq<Event>, calls: seq<Call>, cap: nat)
    requires cfg.lib.Bounded() && Source(events, 0).Capped(cap)
    ensures (StartInv(cfg, events);
             var body := Source(events, 0).Bytes();
             var p := Run(Start(cfg, events), calls);
             && Inv(p)
             && Consumed(p.buffer) + |p.buffer.Rest()| == |body|
             && body == body[..Consumed(p.buffer)] + p.buffer.buf + p.buffer.source.Bytes()
             && |p.buffer.buf| <= Max(cfg.maxBufferSize, |cfg.Delim()| - 1) + cap)
  {
    hide Source.Bytes, Source.Ending, Source.Smooth, Source.Capped, Run, Inv, Goes;
    StartInv(cfg, events);
    StartBounded(cfg, events, cap);
    RunKeeps(Start(cfg, events), calls, cap);
    RunAccounted(Start(cfg, events), Run(Start(cfg, events), calls), cap);
  }

  lemma StartBounded(cfg: Config, events: seq<Event>, cap: nat)
    requires Source(events, 0).Capped(cap)
    ensures Bounded(Start(cfg, events), cap)
  {
    hide Source.Capped;
  }

  lemma RunAccounted(p0: Parser, p: Parser, cap: nat)
    requires p0.buffer.buf == [] && p0.buffer.polledTotal == 0 && Goes(p0, p) && Bounded(p, cap)
    ensures var (body, b) := (p0.buffer.Rest(), p.buffer);
            && Inv(p)
            && Consumed(b) + |b.Rest()| == |body|
            && body == body[..Consumed(b)] + b.buf + b.source.Bytes()
            && |b.buf| <= Max(p0.cfg.maxBufferSize, |p0.cfg.Delim()| - 1) + cap
  {
    hide Source.Bytes, Source.Ending, Source.Smooth, Source.Capped, Inv;
    var (body, b) := (p0.buffer.Rest(), p.buffer);
    assert body == body[..Consumed(b)] + body[Consumed(b)..];
  }
}
