/** The byte account of every state at all, also after failed calls: no byte is lost, repeated or miscounted. */
module Ledger {
  import opened Bytes
  import opened Errors
  import opened Stream
  import opened Delimiter
  import opened Headers
  import opened Grammar
  import opened Lines
  import opened Machine
  import opened Refinement
  import opened Walks
  import opened Tours
  import opened Deliveries
  import opened Accounts

  /** Everything not consumed yet: the buffer, then all chunks to come, failures in between or not. */
  function Left(b: BufferState): seq<Byte> {
    b.buf + AllBytes(b.source.events)
  }

  /** From `b` to `b1` only a front part of what was left is gone, and it was counted as consumed. */
  predicate Drains(b: BufferState, b1: BufferState) {
    && |Left(b1)| <= |Left(b)|
    && Left(b1) == Left(b)[|Left(b)| - |Left(b1)|..]
    && b1.polledTotal - |b1.buf| == b.polledTotal - |b.buf| + |Left(b)| - |Left(b1)|
  }

  lemma DrainsOn(a: BufferState, b: BufferState, c: BufferState)
    requires Drains(a, b) && Drains(b, c)
    ensures Drains(a, c)
  {
    hide AllBytes, Left;
  }

  lemma DrainsNothing(b: BufferState)
    ensures Drains(b, b)
  {
    hide AllBytes;
  }

  lemma {:induction false} PollOwes(s: Source, quota: nat)
    ensures var (p, s1) := s.Poll(quota);
            AllBytes(s.events) == (if p.Next? then p.chunk else []) + AllBytes(s1.events)
    decreases |s.events|
  {
    if quota > 0 && s.events != [] && !s.events[0].Suspend? && !s.First().Stop? && s.First().bytes == [] {
      PollOwes(s.Tail(), quota - 1);
    }
  }

  lemma PullDrains(b: BufferState)
    ensures Drains(b, b.Pull().1)
  {
    hide AllBytes, Source.Poll;
    PollOwes(b.source, EMPTY_CHUNKS_PER_POLL);
    var (p, b1) := b.Pull();
    if p.Next? {
      assert (b.buf + p.chunk) + AllBytes(b1.source.events) == b.buf + (p.chunk + AllBytes(b1.source.events));
    } else {
      assert [] + AllBytes(b1.source.events) == AllBytes(b1.source.events);
    }
  }

  lemma SplitDrains(b: BufferState, n: nat)
    requires n <= |b.buf|
    ensures Drains(b, b.Split(n))
  {
    hide AllBytes;
    assert Left(b.Split(n)) == Left(b)[n..];
  }

  /** Cursor and search flag do not matter. */
  lemma SameDrains(b: BufferState, b1: BufferState, b2: BufferState)
    requires Drains(b, b1)
    requires b2.buf == b1.buf && b2.source == b1.source && b2.polledTotal == b1.polledTotal
    ensures Drains(b, b2)
  {
    hide AllBytes;
  }

  lemma {:induction false} SearchOnDrains(b: BufferState, needle: seq<Byte>, max: nat)
    requires b.active && b.cursor <= |b.buf|
    ensures Drains(b, b.SearchOn(needle, max).1)
    decreases |b.source.events|
  {
    hide Find, ResumeAt, Drains, Source.Poll, BufferState.SearchOn;
    SearchOnUnfolds(b, needle, max);
    DrainsNothing(b);
    SameDrains(b, b, b.(active := false));
    PullDrains(b);
    var (p, b1) := b.Pull();
    SameDrains(b, b1, b1.(active := false));
    if Find(b.buf[b.cursor..], needle).None? && |b.buf| <= max && !b.eof && p.Next? {
      var b2 := b1.(cursor := ResumeAt(|b.buf|, needle));
      SameDrains(b, b1, b2);
      SearchOnDrains(b2, needle, max);
      DrainsOn(b, b2, b2.SearchOn(needle, max).1);
    }
  }

  lemma HeaderBlockBufferedDrains(b: BufferState, max: nat)
    requires b.active ==> b.cursor <= |b.buf|
    ensures Drains(b, b.HeaderBlockBuffered(max).1)
  {
    hide Drains, BufferState.SearchOn;
    DrainsNothing(b);
    SameDrains(b, b, b.(active := false));
    var b1 := b.(cursor := if b.active then b.cursor else 0, active := true);
    SameDrains(b, b, b1);
    SearchOnDrains(b1, CRLF + CRLF, max);
    DrainsOn(b, b1, b1.SearchOn(CRLF + CRLF, max).1);
  }

  lemma {:induction false} ReadHeaderBlockDrains(b: BufferState, max: nat)
    requires b.active ==> b.cursor <= |b.buf|
    ensures Drains(b, b.ReadHeaderBlock(max).1)
    decreases |b.source.events|
  {
    hide Drains, BufferState.HeaderBlockBuffered, Source.Poll;
    var b0 := b.(active := false);
    DrainsNothing(b);
    SameDrains(b, b, b0);
    HeaderBlockBufferedDrains(b, max);
    if |b.buf| < 2 && !b.eof {
      PullDrains(b0);
      var (p, b1) := b0.Pull();
      DrainsOn(b, b0, b1);
      if p.Next? {
        ReadHeaderBlockDrains(b1, max);
        DrainsOn(b, b1, b1.ReadHeaderBlock(max).1);
      }
      if p.Ended? {
        HeaderBlockBufferedDrains(b1, max);
        DrainsOn(b, b1, b1.HeaderBlockBuffered(max).1);
      }
    }
  }

  /** Keeping only a tail of the buffer and the new chunk. */
  lemma TrimDrains(b: BufferState, k: nat)
    requires b.PollStream().0.Next? && k <= |b.buf + b.PollStream().0.chunk|
    ensures var (p, b1) := b.PollStream(); Drains(b, b1.(buf := (b.buf + p.chunk)[k..]))
  {
    hide Drains, Source.Poll;
    PullDrains(b);
    var b1 := b.Pull().1;
    SplitDrains(b1, k);
    DrainsOn(b, b1, b1.Split(k));
  }

  lemma {:induction false} ReadToDrains(b: BufferState, needle: seq<Byte>)
    requires needle != []
    ensures Drains(b, b.ReadTo(needle).1)
    decreases |b.source.events|
  {
    hide Find, ResumeAt, Drains, Source.Poll;
    DrainsNothing(b);
    PullDrains(b);
    var at := Find(b.buf, needle);
    if at.Some? {
      SplitDrains(b, at.value + |needle|);
    } else if !b.eof && b.PollStream().0.Next? {
      var (p, b1) := b.PollStream();
      var hay := b.buf + p.chunk;
      var found := Find(hay, needle);
      if found.Some? {
        TrimDrains(b, found.value + |needle|);
      } else {
        TrimDrains(b, ResumeAt(|hay|, needle));
        var b2 := b1.(buf := hay[ResumeAt(|hay|, needle)..]);
        ReadToDrains(b2, needle);
        DrainsOn(b, b2, b2.ReadTo(needle).1);
      }
    }
  }

  lemma {:induction false} EnsureLenDrains(b: BufferState, len: nat, atEnd: Error)
    ensures Drains(b, EnsureLen(b, len, atEnd).1)
    decreases |b.source.events|
  {
    hide Drains, Source.Poll;
    DrainsNothing(b);
    if |b.buf| < len {
      PullDrains(b);
      var (p, b1) := b.Pull();
      if p.Next? {
        EnsureLenDrains(b1, len, atEnd);
        DrainsOn(b, b1, EnsureLen(b1, len, atEnd).1);
      }
    }
  }

  lemma ConsumeCrlfDrains(b: BufferState, atEnd: Error)
    ensures Drains(b, ConsumeCrlf(b, atEnd).1)
  {
    hide Drains, EnsureLen;
    EnsureLenDrains(b, 2, atEnd);
    var (r, b1) := EnsureLen(b, 2, atEnd);
    if r.Done() {
      SplitDrains(b1, 2);
      DrainsOn(b, b1, b1.Split(2));
    }
  }

  lemma {:induction false} ConsumePaddingDrains(b: BufferState, atEnd: Error)
    ensures Drains(b, ConsumePaddingAndCrlf(b, atEnd).1)
    decreases |b.source.events|, |b.buf|
  {
    hide Drains, EnsureLen, ConsumeCrlf, PadLen;
    EnsureLenDrains(b, 1, atEnd);
    var (r, b1) := EnsureLen(b, 1, atEnd);
    if r.Done() {
      if b1.buf[0] == CR {
        ConsumeCrlfDrains(b1, atEnd);
        DrainsOn(b, b1, ConsumeCrlf(b1, atEnd).1);
      } else if IsPad(b1.buf[0]) {
        PadLenPositive(b1.buf);
        var b2 := b1.Split(PadLen(b1.buf));
        SplitDrains(b1, PadLen(b1.buf));
        ConsumePaddingDrains(b2, atEnd);
        DrainsOn(b, b1, b2);
        DrainsOn(b, b2, ConsumePaddingAndCrlf(b2, atEnd).1);
      }
    }
  }

  lemma {:induction false} NextDataDrains(b: BufferState, delim: seq<Byte>, atEnd: Error)
    requires delim != []
    ensures Drains(b, NextData(b, delim, atEnd).1)
    decreases |b.source.events|
  {
    hide Drains, SearchData, NextData, Source.Poll;
    NextDataUnfolds(b, delim, atEnd);
    var found := if b.buf == [] then KeepAll else SearchData(b.buf, delim);
    if found.Found? {
      SplitDrains(b, found.index + |delim|);
    } else if found.Emit? {
      SplitDrains(b, found.end);
    } else {
      PullDrains(b);
      var (p, b1) := b.Pull();
      if p.Next? {
        NextDataDrains(b1, delim, atEnd);
        DrainsOn(b, b1, NextData(b1, delim, atEnd).1);
      }
    }
  }

  lemma BoundaryStepDrains(b: BufferState)
    ensures Drains(b, BoundaryStep(b).1)
  {
    hide Drains, EnsureLen, ConsumeCrlf, ConsumePaddingAndCrlf;
    EnsureLenDrains(b, 1, IncompleteStream);
    var (r, b1) := EnsureLen(b, 1, IncompleteStream);
    EnsureLenDrains(b1, 2, IncompleteStream);
    var (r2, b2) := EnsureLen(b1, 2, IncompleteStream);
    DrainsOn(b, b1, b2);
    if r2.Done() {
      SplitDrains(b2, 2);
      DrainsOn(b, b2, b2.Split(2));
    }
    ConsumePaddingDrains(b1, IncompleteStream);
    DrainsOn(b, b1, ConsumePaddingAndCrlf(b1, IncompleteStream).1);
    ConsumeCrlfDrains(b1, IncompleteStream);
    DrainsOn(b, b1, ConsumeCrlf(b1, IncompleteStream).1);
  }

  lemma EpilogueStepDrains(b: BufferState)
    ensures Drains(b, EpilogueStep(b).1)
  {
    hide Drains, Source.Poll;
    DrainsNothing(b);
    PullDrains(b);
    var (p, b1) := b.PollStream();
    if b.buf == [] && p.Next? {
      TrimDrains(b, |p.chunk|);
      assert (b.buf + p.chunk)[|p.chunk|..] == [];
    }
  }

  // ----- The parser

  lemma StepDrains(p: Parser)
    requires p.WellFormed()
    requires p.state in {FindingFirstBoundary, ReadingBoundary, ReadingClosingDelimiter, ReadingEpilogue}
    ensures Drains(p.buffer, p.Step().1.buffer)
  {
    hide Drains, BufferState.ReadTo, BoundaryStep, ConsumePaddingAndCrlf, EpilogueStep;
    match p.state
    case FindingFirstBoundary => ReadToDrains(p.buffer, p.cfg.First());
    case ReadingBoundary => BoundaryStepDrains(p.buffer);
    case ReadingClosingDelimiter => ConsumePaddingDrains(p.buffer, IncompleteStream);
    case ReadingEpilogue => EpilogueStepDrains(p.buffer);
  }

  lemma EnsureHeadersDrains(p: Parser)
    requires p.WellFormed() && (p.state == ReadingPartHeaders ==> p.partHandedOut)
    ensures Drains(p.buffer, p.EnsureHeaders().1.buffer)
  {
    hide Drains, BufferState.ReadHeaderBlock, ParseHeaderBlock;
    DrainsNothing(p.buffer);
    ReadHeaderBlockDrains(p.buffer, p.cfg.maxBufferSize);
  }

  lemma FinishHeadersDrains(p: Parser)
    requires p.WellFormed()
    ensures Drains(p.buffer, p.FinishHeaders().buffer) && Drains(p.buffer, p.NextHeaderInner().1.buffer)
  {
    hide Drains;
    DrainsNothing(p.buffer);
    if p.headers.Some? {
      SplitDrains(p.buffer, p.headers.value.dataStart);
    }
  }

  lemma NextDataChunkDrains(p: Parser)
    requires p.WellFormed()
    ensures Drains(p.buffer, p.NextDataChunk().1.buffer)
  {
    hide Drains, NextData;
    DrainsNothing(p.buffer);
    NextDataDrains(p.buffer, p.cfg.Delim(), IncompleteStream);
  }

  lemma {:induction false} SkipPartDataDrains(p: Parser)
    requires p.WellFormed() && p.state in {ReadingPartData, ReadingBoundary}
    ensures Drains(p.buffer, p.SkipPartData().1.buffer)
    decreases |p.buffer.source.events|, |p.buffer.buf|
  {
    hide Parser.NextDataChunk, Drains;
    NextDataChunkDrains(p);
    var (r, p1) := p.NextDataChunk();
    if r.Done() && r.result.value.Some? {
      SkipPartDataDrains(p1);
      DrainsOn(p.buffer, p1.buffer, p1.SkipPartData().1.buffer);
    }
  }

  lemma {:induction false} NextPartDrains(p: Parser)
    requires p.WellFormed()
    ensures Drains(p.buffer, p.NextPart().1.buffer)
    decreases |p.buffer.source.events|, |p.buffer.buf|, p.Rank(), 1
  {
    hide Drains, Parser.EnsureHeaders, Parser.SkipPartData, Parser.AdvanceAfterBoundary, Parser.FinishHeaders;
    DrainsNothing(p.buffer);
    match p.state
    case Done =>
    case StreamTaken =>
    case ReadingPartHeaders =>
      if p.partHandedOut {
        EnsureHeadersDrains(p);
        var (r, p1) := p.EnsureHeaders();
        if r.Done() {
          FinishHeadersDrains(p1);
          DrainsOn(p.buffer, p1.buffer, p1.FinishHeaders().buffer);
          NextPartDrainsOn(p, p1.FinishHeaders());
        }
      }
    case ReadingPartData =>
      SkipPartDataDrains(p);
      var (r, p1) := p.SkipPartData();
      if r.Done() {
        StepDrains(p1);
        var (r2, p2) := p1.AdvanceAfterBoundary();
        DrainsOn(p.buffer, p1.buffer, p2.buffer);
        if r2.Done() { NextPartDrainsOn(p, p2); }
      }
    case _ =>
      StepDrains(p);
      var (r, p1) := p.Step();
      if r.Done() { NextPartDrainsOn(p, p1); }
  }

  lemma {:induction false} NextPartDrainsOn(p: Parser, p1: Parser)
    requires p1.WellFormed() && Drains(p.buffer, p1.buffer)
    requires Behind(p1.buffer, p.buffer) || (NotAhead(p1.buffer, p.buffer) && p1.Rank() < p.Rank())
    ensures Drains(p.buffer, p1.NextPart().1.buffer)
    decreases |p.buffer.source.events|, |p.buffer.buf|, p.Rank(), 0
  {
    hide Drains, Parser.NextPart;
    NextPartDrains(p1);
    DrainsOn(p.buffer, p1.buffer, p1.NextPart().1.buffer);
  }

  lemma UseDrains(p: Parser, op: ClientOp)
    requires p.WellFormed() && (p.state == ReadingPartHeaders ==> p.partHandedOut)
    ensures Drains(p.buffer, Use(p, op).1.buffer)
  {
    hide Drains, Parser.EnsureHeaders, Parser.NextDataChunk, Parser.FinishHeaders, Parser.NextHeaderInner;
    EnsureHeadersDrains(p);
    var (h, p1) := p.EnsureHeaders();
    if h.Done() {
      FinishHeadersDrains(p1);
      DrainsOn(p.buffer, p1.buffer, p1.NextHeaderInner().1.buffer);
      var p2 := p1.FinishHeaders();
      DrainsOn(p.buffer, p1.buffer, p2.buffer);
      NextDataChunkDrains(p2);
      DrainsOn(p.buffer, p2.buffer, p2.NextDataChunk().1.buffer);
    }
  }

  // ----- Every sequence of calls, failed or not

  /** Makes one call and goes on whatever it answers. A part is only used while one is out. */
  function Attempt(p: Parser, call: Call): (p1: Parser)
    requires p.WellFormed()
    ensures p1.WellFormed() && p1.cfg == p.cfg
  {
    match call
    case PollNextPart => p.NextPart().1
    case PollPart(op) =>
      if p.state == ReadingPartHeaders && !p.partHandedOut then p else Use(p, op).1
  }

  function Attempts(p: Parser, calls: seq<Call>): (p1: Parser)
    requires p.WellFormed()
    ensures p1.WellFormed() && p1.cfg == p.cfg
    decreases |calls|
  {
    if calls == [] then p else Attempts(Attempt(p, calls[0]), calls[1..])
  }

  lemma AttemptKeeps(p: Parser, call: Call, cap: nat)
    requires p.WellFormed() && Bounded(p, cap)
    ensures Drains(p.buffer, Attempt(p, call).buffer) && Bounded(Attempt(p, call), cap)
  {
    hide Drains, Bounded, Parser.NextPart, Use;
    DrainsNothing(p.buffer);
    match call
    case PollNextPart =>
      NextPartDrains(p);
      NextPartBounded(p, cap);
    case PollPart(op) =>
      if !(p.state == ReadingPartHeaders && !p.partHandedOut) {
        UseDrains(p, op);
        UseBounded(p, op, cap);
      }
  }

  lemma {:induction false} AttemptsKeep(p: Parser, calls: seq<Call>, cap: nat)
    requires p.WellFormed() && Bounded(p, cap)
    ensures Drains(p.buffer, Attempts(p, calls).buffer) && Bounded(Attempts(p, calls), cap)
    decreases |calls|
  {
    hide Drains, Bounded, Attempt;
    DrainsNothing(p.buffer);
    if calls != [] {
      var p1 := Attempt(p, calls[0]);
      AttemptKeeps(p, calls[0], cap);
      AttemptsKeep(p1, calls[1..], cap);
      DrainsOn(p.buffer, p1.buffer, Attempts(p1, calls[1..]).buffer);
    }
  }

  /**
   * In every state that any sequence of calls reaches, failed ones included: held headers, resumed
   * searches and waiting parts are consistent; what the stream delivers is the consumed prefix, then the
   * buffer, then the chunks to come, with `consumed()` the length of the prefix; and the buffer holds at
   * most one chunk beyond the larger of the header limit and a partial delimiter.
   */
  lemma EveryReachableState(cfg: Config, events: seq<Event>, calls: seq<Call>, cap: nat)
    requires cfg.lib.Bounded() && Source(events, 0).Capped(cap)
    ensures Start(cfg, events).WellFormed()
    ensures var all := AllBytes(events);
            var p := Attempts(Start(cfg, events), calls);
            var consumed := p.buffer.polledTotal - |p.buffer.buf|;
            && p.WellFormed()
            && 0 <= consumed <= |all|
            && all == all[..consumed] + p.buffer.buf + AllBytes(p.buffer.source.events)
            && |p.buffer.buf| <= Max(cfg.maxBufferSize, |cfg.Delim()| - 1) + cap
  {
    hide AllBytes, Source.Capped, Attempts, Drains, Bounded;
    var p0 := Start(cfg, events);
    Opening(cfg, events, cap);
    AttemptsKeep(p0, calls, cap);
    var p := Attempts(p0, calls);
    Accounted(AllBytes(events), p0.buffer, p.buffer);
    BoundedBuffer(p, cap);
  }

  lemma Opening(cfg: Config, events: seq<Event>, cap: nat)
    requires cfg.lib.Bounded() && Source(events, 0).Capped(cap)
    ensures var p := Start(cfg, events);
            p.WellFormed() && Bounded(p, cap) && Left(p.buffer) == AllBytes(events)
  {
    hide AllBytes, Source.Capped;
  }

  lemma BoundedBuffer(p: Parser, cap: nat)
    requires Bounded(p, cap)
    ensures |p.buffer.buf| <= Max(p.cfg.maxBufferSize, |p.cfg.Delim()| - 1) + cap
  {
  }

  lemma Accounted(all: seq<Byte>, b0: BufferState, b: BufferState)
    requires Drains(b0, b) && Left(b0) == all && b0.polledTotal == 0 && b0.buf == []
    ensures var consumed := b.polledTotal - |b.buf|;
            && 0 <= consumed <= |all|
            && all == all[..consumed] + b.buf + AllBytes(b.source.events)
  {
    hide AllBytes;
    var consumed := b.polledTotal - |b.buf|;
    assert Left(b) == all[consumed..];
    assert all == all[..consumed] + all[consumed..];
  }

  /** After the end every call leaves the parser as it is. */
  lemma {:induction false} DoneForGood(p: Parser, calls: seq<Call>)
    requires p.WellFormed() && p.state == Done
    ensures Attempts(p, calls) == p && p.NextPart() == (Ready(Ok(false)), p)
    decreases |calls|
  {
    if calls != [] {
      assert Attempt(p, calls[0]) == p;
      DoneForGood(p, calls[1..]);
    }
  }
}
