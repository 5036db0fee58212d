/**
 * The state machine against the one-shot parse: whatever the chunks, suspensions and empty chunks,
 * each step leaves the outcome still ahead as the whole of the bytes determines it.
 */
module Refinement {
  import opened Bytes
  import opened Errors
  import opened Stream
  import opened Delimiter
  import opened Headers
  import opened Grammar
  import opened Lines
  import opened Machine

  /** The body from some part's data on, without that part. */
  function BeyondData(cfg: Config, lenient: bool, rest: seq<Byte>, ending: Ending): Outcome {
    match AfterNeedle(rest, cfg.Delim())
    case None => Outcome([], Failed(ending.Cut(IncompleteStream)))
    case Some(after) => FromBoundary(cfg, lenient, after, ending)
  }

  /** The body from the header block of a part on, without that part. */
  function BeyondHeaders(cfg: Config, lenient: bool, rest: seq<Byte>, ending: Ending): Outcome {
    match BlockAt(cfg, rest, ending)
    case Err(e) => Outcome([], Failed(e))
    case Ok(block) =>
      if block.Inside(|rest|) then BeyondData(cfg, lenient, rest[block.dataStart..], ending)
      else Outcome([], Failed(InvalidFormat))
  }

  /** What the parser has still to hand out, and how it will end. */
  function Ahead(p: Parser, lenient: bool): Outcome {
    var (rest, ending) := (p.buffer.Rest(), p.buffer.source.Ending());
    match p.state
    case FindingFirstBoundary => OneShot(p.cfg, lenient, rest, ending)
    case ReadingBoundary => FromBoundary(p.cfg, lenient, rest, ending)
    case ReadingPartHeaders =>
      if p.partHandedOut then BeyondHeaders(p.cfg, lenient, rest, ending)
      else FromHeaders(p.cfg, lenient, rest, ending)
    case ReadingPartData => BeyondData(p.cfg, lenient, rest, ending)
    case ReadingClosingDelimiter => Outcome([], Closing(rest, ending))
    case ReadingEpilogue => Outcome([], Epilogue(rest, ending))
    case Done => Outcome([], Finished)
    case StreamTaken => Outcome([], Failed(StreamAlreadyTaken))
  }

  /** The invariant of every state reached without a failure. */
  ghost predicate Inv(p: Parser) {
    && p.WellFormed()
    && Sane(p.buffer)
    && Resumable(p.buffer)
    && (p.headers.Some? ==>
          BlockAt(p.cfg, p.buffer.Rest(), p.buffer.source.Ending()) == Ok(p.headers.value.(next := 0)))
  }

  /** Both readings of what is ahead are unchanged. */
  predicate Same(p0: Parser, p1: Parser) {
    Ahead(p1, true) == Ahead(p0, true) && Ahead(p1, false) == Ahead(p0, false)
  }

  /** After a suspension the strict reading may have turned into the lenient one. */
  predicate Agrees(p0: Parser, p1: Parser) {
    Ahead(p1, true) == Ahead(p0, true) && (Ahead(p1, false) == Ahead(p0, false) || Ahead(p1, false) == Ahead(p0, true))
  }

  ghost predicate Goes(p: Parser, p1: Parser) {
    Inv(p1) && p1.cfg == p.cfg && MovesOn(p.buffer, p1.buffer)
  }

  /** One step answered `r`. */
  ghost predicate Stepped(p: Parser, r: Poll<()>, p1: Parser) {
    match r
    case Pending => Goes(p, p1) && Agrees(p, p1) && Waits(p.buffer.source, p1.buffer.source)
    case Ready(Ok(_)) => Goes(p, p1) && Same(p, p1)
    case Ready(Err(e)) => Ahead(p, false) == Outcome([], Failed(e))
  }

  // ----- Strict and lenient reading

  lemma LenientLine(rest: seq<Byte>, ending: Ending)
    ensures var strict, lenient := BoundaryLine(false, rest, ending), BoundaryLine(true, rest, ending);
            strict == lenient || strict == Wrong(InvalidFormat)
  {
    hide PadLen;
    var n := PadLen(rest);
    PadDropped(rest, n);
    if n == 0 {
      assert rest[0..] == rest;
    } else {
      assert IsPad(rest[0]);
    }
  }

  /** The two readings differ only where the strict one rejects the format. */
  lemma {:induction false} StrictOrLenient(cfg: Config, rest: seq<Byte>, ending: Ending)
    ensures var strict := FromBoundary(cfg, false, rest, ending);
            var lenient := FromBoundary(cfg, true, rest, ending);
            strict == lenient || (strict.last == Failed(InvalidFormat) && strict.parts <= lenient.parts)
    decreases |rest|
  {
    hide BoundaryLine;
    LenientLine(rest, ending);
    var line := BoundaryLine(false, rest, ending);
    if line.ToHeaders? {
      StrictOrLenientPart(cfg, line.rest, ending);
    }
  }

  lemma {:induction false} StrictOrLenientPart(cfg: Config, rest: seq<Byte>, ending: Ending)
    ensures var strict := FromHeaders(cfg, false, rest, ending);
            var lenient := FromHeaders(cfg, true, rest, ending);
            strict == lenient || (strict.last == Failed(InvalidFormat) && strict.parts <= lenient.parts)
    decreases |rest|
  {
    hide BlockAt, Find, FromBoundary, FieldsOf;
    var block := BlockAt(cfg, rest, ending);
    if block.Ok? && block.value.Inside(|rest|) {
      var data := rest[block.value.dataStart..];
      var at := Find(data, cfg.Delim());
      if at.Some? {
        StrictOrLenient(cfg, data[at.value + |cfg.Delim()|..], ending);
      }
    }
  }

  lemma PaddingResumedLine(rest: seq<Byte>, ending: Ending, k: nat)
    requires k <= PadLen(rest)
    ensures BoundaryLine(true, rest[k..], ending) == BoundaryLine(true, rest, ending)
    ensures var resumed := BoundaryLine(false, rest[k..], ending);
            || resumed == BoundaryLine(false, rest, ending)
            || (!resumed.ToHeaders? && resumed == BoundaryLine(true, rest, ending))
  {
    hide PadLen, BoundaryLine;
    LenientResumed(rest, ending, k);
    if k == 0 {
      assert rest[0..] == rest;
    } else if k < PadLen(rest) {
      SomePaddingLeft(rest, ending, k);
    } else {
      NoPaddingLeft(rest, ending);
    }
  }

  lemma LenientResumed(rest: seq<Byte>, ending: Ending, k: nat)
    requires k <= PadLen(rest)
    ensures BoundaryLine(true, rest[k..], ending) == BoundaryLine(true, rest, ending)
  {
    hide PadLen, LineEnd;
    PadDropped(rest, k);
  }

  /** A line that still starts with padding is read to its line end either way. */
  lemma SomePaddingLeft(rest: seq<Byte>, ending: Ending, k: nat)
    requires k < PadLen(rest)
    ensures BoundaryLine(false, rest[k..], ending) == BoundaryLine(false, rest, ending)
  {
    hide PadLen, LineEnd;
    LineEndResumed(rest, ending, IncompleteStream, k);
    assert IsPad(rest[0]) && IsPad(rest[k..][0]);
  }

  /** Without its padding a line reads as the lenient reading has it; a line end reads the same with it. */
  lemma NoPaddingLeft(rest: seq<Byte>, ending: Ending)
    requires PadLen(rest) > 0
    ensures var resumed := BoundaryLine(false, rest[PadLen(rest)..], ending);
            && resumed == BoundaryLine(true, rest, ending)
            && (resumed.ToHeaders? ==> resumed == BoundaryLine(false, rest, ending))
  {
    hide PadLen, LineEnd;
    LineEndResumed(rest, ending, IncompleteStream, PadLen(rest));
    assert IsPad(rest[0]);
  }

  /** Dropping padding in front of a boundary line keeps the lenient reading, and the strict one up to it. */
  lemma PaddingResumed(cfg: Config, rest: seq<Byte>, ending: Ending, k: nat)
    requires k <= PadLen(rest)
    ensures FromBoundary(cfg, true, rest[k..], ending) == FromBoundary(cfg, true, rest, ending)
    ensures || FromBoundary(cfg, false, rest[k..], ending) == FromBoundary(cfg, false, rest, ending)
            || FromBoundary(cfg, false, rest[k..], ending) == FromBoundary(cfg, true, rest, ending)
  {
    hide PadLen, BoundaryLine, FromHeaders;
    PaddingResumedLine(rest, ending, k);
  }

  // ----- The structural steps

  lemma FirstBoundaryStepped(p: Parser)
    requires Inv(p) && p.state == FindingFirstBoundary
    ensures var (r, p1) := p.AdvanceFirstBoundary(); Stepped(p, r, p1)
  {
    hide Source.Bytes, Source.Ending, Source.Smooth, AfterNeedle, FromBoundary;
    ReadToReads(p.buffer, p.cfg.First());
  }

  lemma BoundaryTaken(cfg: Config, lenient: bool, rest: seq<Byte>, ending: Ending)
    ensures var o := FromBoundary(cfg, lenient, rest, ending);
            match BoundaryLine(lenient, rest, ending)
            case Wrong(e) => o == Outcome([], Failed(e))
            case ToClosing(s) => o == Outcome([], Closing(s, ending))
            case ToHeaders(s) => o == FromHeaders(cfg, lenient, s, ending)
  {
  }

  lemma AfterBoundaryStepped(p: Parser)
    requires Inv(p) && p.state == ReadingBoundary
    ensures var (r, p1) := p.AdvanceAfterBoundary(); Stepped(p, r, p1)
  {
    hide Source.Bytes, Source.Ending, Source.Smooth, Advances, PadLen, BoundaryLine, Goes, BoundaryStep;
    hide OneShot, FromBoundary, FromHeaders, BeyondHeaders, BeyondData, Closing, Epilogue;
    var rest, ending := p.buffer.Rest(), p.buffer.source.Ending();
    BoundaryReads(p.buffer);
    LenientLine(rest, ending);
    BoundaryTaken(p.cfg, false, rest, ending);
    BoundaryTaken(p.cfg, true, rest, ending);
    var (r, b) := BoundaryStep(p.buffer);
    if r.Pending? {
      PaddingResumed(p.cfg, rest, ending, |rest| - |b.Rest()|);
    }
    if !r.Failed() {
      MovedTo(p.buffer, b);
      GoesOn(p, p.AdvanceAfterBoundary().1);
    }
  }

  /** What is known of the bytes still to come once some have been consumed. */
  lemma MovedTo(b: BufferState, b1: BufferState)
    requires MovesOn(b, b1)
    ensures |b1.Rest()| <= |b.Rest()| && b1.Rest() == b.Rest()[|b.Rest()| - |b1.Rest()|..]
    ensures b1.source.Ending() == b.source.Ending() && Sane(b1)
  {
  }

  /** Without held headers the invariant only speaks of the buffer. */
  lemma GoesOn(p: Parser, p1: Parser)
    requires Inv(p) && p1.WellFormed() && p1.cfg == p.cfg && p1.headers.None? && !p1.buffer.active
    requires MovesOn(p.buffer, p1.buffer)
    ensures Goes(p, p1)
  {
  }

  lemma LineEndResumed(rest: seq<Byte>, ending: Ending, atEnd: Error, k: nat)
    requires k <= PadLen(rest)
    ensures LineEnd(rest[k..], ending, atEnd) == LineEnd(rest, ending, atEnd)
  {
    hide PadLen;
    PadDropped(rest, k);
  }

  lemma ClosingStepped(p: Parser)
    requires Inv(p) && p.state == ReadingClosingDelimiter
    ensures var (r, p1) := p.AdvanceClosing(); Stepped(p, r, p1)
  {
    hide Source.Bytes, Source.Ending, Source.Smooth, Advances, PadLen, LineEnd, Goes, ConsumePaddingAndCrlf;
    hide OneShot, FromBoundary, FromHeaders, BeyondHeaders, BeyondData, Epilogue;
    ConsumePaddingEnds(p.buffer, IncompleteStream);
    var (r, b) := ConsumePaddingAndCrlf(p.buffer, IncompleteStream);
    if !r.Failed() {
      MovedTo(p.buffer, b);
      GoesOn(p, p.AdvanceClosing().1);
    }
    if r.Pending? {
      var rest := p.buffer.Rest();
      LineEndResumed(rest, p.buffer.source.Ending(), IncompleteStream, |rest| - |b.Rest()|);
    }
  }

  lemma EpilogueStepped(p: Parser)
    requires Inv(p) && p.state == ReadingEpilogue
    ensures var (r, p1) := p.AdvanceEpilogue(); Stepped(p, r, p1)
  {
    hide Source.Bytes, Source.Ending, Source.Smooth;
    EpilogueReads(p.buffer);
  }

  // ----- The header stage

  lemma EnsureHeadersStepped(p: Parser)
    requires Inv(p) && (p.state == ReadingPartHeaders ==> p.partHandedOut)
    ensures var (r, p1) := p.EnsureHeaders();
            && Stepped(p, r, p1)
            && (!r.Failed() ==> Advances(p.buffer, p1.buffer, 0) && Same(p, p1))
            && (r.Failed() ==>
                  p.state == ReadingPartHeaders
                  && BlockAt(p.cfg, p.buffer.Rest(), p.buffer.source.Ending()) == Err(r.result.error))
  {
    hide Source.Bytes, Source.Ending, Source.Smooth, EndOfHeaderBlock, BlockAt;
    hide OneShot, FromBoundary, FromHeaders, BeyondData, Closing, Epilogue;
    if p.headers.None? && p.state == ReadingPartHeaders {
      EnsureHeadersReads(p);
      var (r, p1) := p.EnsureHeaders();
      if !r.Failed() { assert p1.buffer.Rest() == p.buffer.Rest(); }
    }
  }

  lemma EnsureHeadersReads(p: Parser)
    requires Inv(p) && p.state == ReadingPartHeaders && p.partHandedOut && p.headers.None?
    ensures var (r, p1) := p.EnsureHeaders();
            && (!r.Failed() ==> Inv(p1) && Advances(p.buffer, p1.buffer, 0))
            && (r.Pending? ==> Waits(p.buffer.source, p1.buffer.source))
            && (r.Failed() ==> BlockAt(p.cfg, p.buffer.Rest(), p.buffer.source.Ending()) == Err(r.result.error))
  {
    hide Source.Bytes, Source.Ending, Source.Smooth, EndOfHeaderBlock;
    ReadHeaderBlockReads(p.buffer, p.cfg.maxBufferSize);
    var (r, b) := p.buffer.ReadHeaderBlock(p.cfg.maxBufferSize);
    if r.Done() {
      var end := r.result.value;
      assert b.buf[..end] == p.buffer.Rest()[..end];
      ParsedBlockInside(p.cfg.lib, b.buf[..end]);
    }
  }

  lemma FinishHeadersGoes(p: Parser)
    requires Inv(p)
    ensures Goes(p, p.FinishHeaders()) && Same(p, p.FinishHeaders())
  {
    hide Source.Bytes, Source.Ending, Source.Smooth, BlockAt, BeyondData;
    if p.headers.Some? {
      SplitAdvances(p.buffer, p.headers.value.dataStart);
    }
  }

  // ----- The data stage

  lemma NextDataChunkStepped(p: Parser)
    requires Inv(p)
    ensures var (r, p1) := p.NextDataChunk();
            && Stepped(p, Relabel2(r), p1)
            && (!r.Failed() ==> Same(p, p1))
  {
    hide Source.Bytes, Source.Ending, Source.Smooth, Find, AfterNeedle;
    hide OneShot, FromBoundary, FromHeaders, BeyondHeaders, Closing, Epilogue;
    if p.state == ReadingPartData {
      NextDataChunkReads(p);
    }
  }

  lemma NextDataChunkReads(p: Parser)
    requires Inv(p) && p.state == ReadingPartData
    ensures var (r, p1) := p.NextDataChunk();
            && (!r.Failed() ==> Goes(p, p1) && p1.buffer.source.Ending() == p.buffer.source.Ending())
            && (r.Pending? ==> Waits(p.buffer.source, p1.buffer.source))
            && var after := AfterNeedle(p.buffer.Rest(), p.cfg.Delim());
               if r.Failed() then
                 after == None && r.result.error == p.buffer.source.Ending().Cut(IncompleteStream)
               else if p1.state == ReadingBoundary then after == Some(p1.buffer.Rest())
               else after == AfterNeedle(p1.buffer.Rest(), p.cfg.Delim())
  {
    hide Source.Bytes, Source.Ending, Source.Smooth, FindFrom, Shifted, NextData;
    NextDataReads(p.buffer, p.cfg.Delim(), IncompleteStream);
    var (r, b) := NextData(p.buffer, p.cfg.Delim(), IncompleteStream);
    if r.Done() {
      SameAfterData(p.buffer.Rest(), b.Rest(), r.result.value, p.cfg.Delim());
    }
  }

  lemma SameAfterData(rest: seq<Byte>, rest1: seq<Byte>, item: DataItem, delim: seq<Byte>)
    requires item.last ==>
               Find(rest, delim) == Some(|item.data|) && rest1 == rest[|item.data| + |delim|..]
    requires !item.last ==>
               |item.data| <= |rest| && rest1 == rest[|item.data|..]
               && Find(rest, delim) == Shifted(Find(rest1, delim), |item.data|)
    ensures if item.last then AfterNeedle(rest, delim) == Some(rest1)
            else AfterNeedle(rest, delim) == AfterNeedle(rest1, delim)
  {
    hide Find;
    if !item.last && Find(rest1, delim).Some? {
      var i := Find(rest1, delim).value;
      assert rest[|item.data|..][i + |delim|..] == rest[|item.data| + i + |delim|..];
    }
  }

  function Relabel2<T>(r: Poll<T>): Poll<()> {
    match r
    case Pending => Pending
    case Ready(Ok(_)) => Ready(Ok(()))
    case Ready(Err(e)) => Ready(Err(e))
  }

  lemma SteppedOn(p: Parser, p2: Parser, r: Poll<()>, p1: Parser)
    requires Goes(p, p2) && Same(p, p2) && Stepped(p2, r, p1)
    ensures Stepped(p, r, p1)
  {
    hide Source.Bytes, Source.Ending, Source.Smooth, Ahead, Inv, Advances;
    if !r.Failed() { MovesOnTwice(p.buffer, p2.buffer, p1.buffer); }
    if r.Pending? { MovedTo2(p.buffer, p2.buffer, p1.buffer); }
  }

  lemma MovedTo2(b: BufferState, b2: BufferState, b1: BufferState)
    requires MovesOn(b, b2) && Waits(b2.source, b1.source)
    ensures Waits(b.source, b1.source)
  {
    hide Source.Bytes, Source.Ending, Source.Smooth;
  }

  lemma {:induction false} SkipPartDataStepped(p: Parser)
    requires Inv(p) && p.state in {ReadingPartData, ReadingBoundary}
    ensures var (r, p1) := p.SkipPartData(); Stepped(p, r, p1)
    decreases |p.buffer.source.events|, |p.buffer.buf|
  {
    hide Source.Bytes, Source.Ending, Source.Smooth, Ahead, Advances, Parser.NextDataChunk;
    NextDataChunkStepped(p);
    var (r, p2) := p.NextDataChunk();
    if r.Done() && r.result.value.Some? {
      SkipPartDataStepped(p2);
      var (r1, p1) := p2.SkipPartData();
      SteppedOn(p, p2, r1, p1);
    }
  }

  // ----- Handing out parts

  /** The walk to the next part answered `r`. */
  ghost predicate Walked(p: Parser, r: Poll<bool>, p1: Parser) {
    match r
    case Pending => Goes(p, p1) && Agrees(p, p1) && Waits(p.buffer.source, p1.buffer.source)
    case Ready(Ok(true)) => Goes(p, p1) && AtPart(p1) && Offers(p, false, p1) && Offers(p, true, p1)
    case Ready(Ok(false)) => Goes(p, p1) && p1.state == Done && Ahead(p, false) == Outcome([], Finished)
    case Ready(Err(e)) => Ahead(p, false) == Outcome([], Failed(e))
  }

  /** A part has just been handed out. */
  predicate AtPart(p: Parser) {
    p.state == ReadingPartHeaders && p.partHandedOut && p.headers.None?
  }

  /** What was ahead of `p` starts with the part `p1` stands at. */
  predicate Offers(p: Parser, lenient: bool, p1: Parser) {
    Ahead(p, lenient) == FromHeaders(p.cfg, lenient, p1.buffer.Rest(), p1.buffer.source.Ending())
  }

  lemma WalkedOn(p: Parser, p2: Parser, r: Poll<bool>, p1: Parser)
    requires Goes(p, p2) && Same(p, p2) && Walked(p2, r, p1)
    ensures Walked(p, r, p1)
  {
    hide Source.Bytes, Source.Ending, Source.Smooth, Ahead, Inv, Advances, FromHeaders;
    if !r.Failed() { MovesOnTwice(p.buffer, p2.buffer, p1.buffer); }
    if r.Pending? { MovedTo2(p.buffer, p2.buffer, p1.buffer); }
  }

  lemma WalkStops(p: Parser, r: Poll<()>, p1: Parser)
    requires Stepped(p, r, p1) && !r.Done()
    ensures Walked(p, Relabel(r, false), p1)
  {
    hide Ahead, Goes;
  }

  lemma StepStepped(p: Parser)
    requires Inv(p)
    requires p.state in {FindingFirstBoundary, ReadingBoundary, ReadingClosingDelimiter, ReadingEpilogue}
    ensures var (r, p1) := p.Step(); Stepped(p, r, p1)
  {
    hide Stepped, Inv;
    match p.state
    case FindingFirstBoundary => FirstBoundaryStepped(p);
    case ReadingBoundary => AfterBoundaryStepped(p);
    case ReadingClosingDelimiter => ClosingStepped(p);
    case ReadingEpilogue => EpilogueStepped(p);
  }

  /** However the bytes arrive, `NextPart` hands out the part the one-shot parse has next, or ends as it does. */
  lemma {:induction false} NextPartWalks(p: Parser)
    requires Inv(p)
    ensures var (r, p1) := p.NextPart(); Walked(p, r, p1)
    decreases |p.buffer.source.events|, |p.buffer.buf|, p.Rank()
  {
    hide Source.Bytes, Source.Ending, Source.Smooth, Ahead, Advances, Walked;
    hide Parser.EnsureHeaders, Parser.SkipPartData, Parser.AdvanceAfterBoundary, Parser.Step, Parser.FinishHeaders;
    match p.state
    case Done => NextPartAtRest(p);
    case StreamTaken =>
    case ReadingPartHeaders =>
      if !p.partHandedOut {
        NextPartAtRest(p);
      } else {
        EnsureHeadersStepped(p);
        var (r, p2) := p.EnsureHeaders();
        if !r.Done() {
          WalkStops(p, r, p2);
        } else {
          FinishHeadersGoes(p2);
          GoesTwice(p, p2, p2.FinishHeaders());
          NextPartWalksOn(p, p2.FinishHeaders());
        }
      }
    case ReadingPartData =>
      SkipPartDataStepped(p);
      var (r, p2) := p.SkipPartData();
      if !r.Done() {
        WalkStops(p, r, p2);
      } else {
        AfterBoundaryStepped(p2);
        var (r2, p3) := p2.AdvanceAfterBoundary();
        SteppedOn(p, p2, r2, p3);
        if !r2.Done() { WalkStops(p, r2, p3); } else { NextPartWalksOn(p, p3); }
      }
    case _ =>
      StepStepped(p);
      var (r, p2) := p.Step();
      if !r.Done() { WalkStops(p, r, p2); } else { NextPartWalksOn(p, p2); }
  }

  lemma {:induction false} NextPartWalksOn(p: Parser, p2: Parser)
    requires Inv(p) && Goes(p, p2) && Same(p, p2)
    requires Behind(p2.buffer, p.buffer) || (NotAhead(p2.buffer, p.buffer) && p2.Rank() < p.Rank())
    ensures var (r, p1) := p2.NextPart(); Walked(p, r, p1)
    decreases |p.buffer.source.events|, |p.buffer.buf|, p.Rank(), 0
  {
    hide Walked, Same, MovesOn, Parser.NextPart;
    NextPartWalks(p2);
    var (r, p1) := p2.NextPart();
    WalkedOn(p, p2, r, p1);
  }

  lemma GoesTwice(p: Parser, p2: Parser, p1: Parser)
    requires Goes(p, p2) && Same(p, p2) && Goes(p2, p1) && Same(p2, p1)
    ensures Goes(p, p1) && Same(p, p1)
  {
    hide Source.Bytes, Source.Ending, Source.Smooth, Ahead, Inv, Advances;
    MovesOnTwice(p.buffer, p2.buffer, p1.buffer);
  }

  lemma NextPartAtRest(p: Parser)
    requires Inv(p) && (p.state == Done || (p.state == ReadingPartHeaders && !p.partHandedOut))
    ensures var (r, p1) := p.NextPart(); Walked(p, r, p1)
  {
    hide Source.Bytes, Source.Ending, Source.Smooth, FromHeaders, OneShot, FromBoundary, BeyondHeaders, BeyondData;
  }
}
