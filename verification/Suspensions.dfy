/**
 * Exactly which bodies a suspension can make a difference for: the ones with an exposed line within
 * reach. Away from such lines every delivery gives the strict parse.
 */
module Suspensions {
  import opened Bytes
  import opened Errors
  import opened Stream
  import opened Delimiter
  import opened Headers
  import opened Grammar
  import opened Lines
  import opened Machine
  import opened Refinement
  import opened Walks
  import opened Padding

  // ----- Without an exposed line within reach

  /** A suspension can still matter to this parser. */
  predicate AtRisk(p: Parser) {
    var (rest, ending, held) := (p.buffer.Rest(), p.buffer.source.Ending(), |p.buffer.buf|);
    match p.state
    case FindingFirstBoundary =>
      var after := AfterNeedle(rest, p.cfg.First());
      after.Some? && Sensitive(p.cfg, after.value, ending, Less(held, |rest| - |after.value|))
    case ReadingBoundary => Sensitive(p.cfg, rest, ending, held)
    case ReadingPartHeaders => SensitivePart(p.cfg, rest, ending, held)
    case _ => false
  }

  /** What is consumed comes from the front of the buffer; the rest of it stays. */
  lemma BufferStays(b: BufferState, b1: BufferState)
    requires MovesOn(b, b1)
    ensures |b1.buf| >= Less(|b.buf|, |b.Rest()| - |b1.Rest()|)
  {
    hide Source.Bytes, Source.Ending, Source.Smooth;
  }

  lemma AfterIsTail(hay: seq<Byte>, needle: seq<Byte>)
    ensures AfterNeedle(hay, needle).Some? ==> |AfterNeedle(hay, needle).value| <= |hay|
  {
  }

  lemma FirstBoundaryCalm(p: Parser)
    requires Inv(p) && p.state == FindingFirstBoundary
    ensures var (r, p1) := p.AdvanceFirstBoundary();
            && (!r.Failed() && AtRisk(p1) ==> AtRisk(p))
            && (r.Pending? ==> Ahead(p1, false) == Ahead(p, false))
  {
    hide Source.Bytes, Source.Ending, Source.Smooth, AfterNeedle, FromBoundary, Sensitive, BufferState.ReadTo;
    ReadToReads(p.buffer, p.cfg.First());
    var (r, b) := p.buffer.ReadTo(p.cfg.First());
    var after := AfterNeedle(p.buffer.Rest(), p.cfg.First());
    AfterIsTail(p.buffer.Rest(), p.cfg.First());
    AfterIsTail(b.Rest(), p.cfg.First());
    if !r.Failed() {
      MovedTo(p.buffer, b);
      BufferStays(p.buffer, b);
      if after.Some? && AtRisk(p.AdvanceFirstBoundary().1) {
        var n := |after.value|;
        var more := if r.Done() then |b.buf| else Less(|b.buf|, |b.Rest()| - n);
        HeldMore(p.cfg, after.value, p.buffer.source.Ending(), Less(|p.buffer.buf|, |p.buffer.Rest()| - n), more);
      }
    }
  }

  /** A line that suspends inside or behind its padding has nothing but a line end in the buffer. */
  lemma {:induction false} PaddingSuspends(b: BufferState, atEnd: Error)
    ensures var (r, b1) := ConsumePaddingAndCrlf(b, atEnd);
            r.Pending? ==> b1.buf == [] || b1.buf[0] == CR
    decreases |b.source.events|, |b.buf|
  {
    hide PadLen;
    EnsureOneSuspends(b, atEnd);
    var (r, b1) := EnsureLen(b, 1, atEnd);
    if r.Done() {
      if b1.buf[0] == CR {
        CrlfSuspends(b1, atEnd);
      } else if IsPad(b1.buf[0]) {
        PaddingSuspends(b1.Split(PadLen(b1.buf)), atEnd);
      }
    }
  }

  lemma EnsureOneSuspends(b: BufferState, atEnd: Error)
    ensures EnsureLen(b, 1, atEnd).0.Pending? ==> EnsureLen(b, 1, atEnd).1.buf == []
  {
    if b.buf == [] && b.Pull().0.Next? {
      assert EnsureLen(b.Pull().1, 1, atEnd) == (Ready(Ok(())), b.Pull().1);
    }
  }

  lemma {:induction false} CrlfSuspends(b: BufferState, atEnd: Error)
    requires b.buf != [] && b.buf[0] == CR
    ensures var (r, b1) := ConsumeCrlf(b, atEnd); r.Pending? ==> b1.buf != [] && b1.buf[0] == CR
  {
    hide Source.Poll;
    EnsureKeepsFront(b, 2, atEnd);
  }

  lemma {:induction false} EnsureKeepsFront(b: BufferState, len: nat, atEnd: Error)
    requires b.buf != []
    ensures EnsureLen(b, len, atEnd).1.buf != [] && EnsureLen(b, len, atEnd).1.buf[0] == b.buf[0]
    decreases |b.source.events|
  {
    hide Source.Poll;
    if |b.buf| < len && b.Pull().0.Next? {
      EnsureKeepsFront(b.Pull().1, len, atEnd);
    }
  }

  /** A boundary line that suspends after consuming something shows no dash. */
  lemma BoundarySuspends(b: BufferState)
    requires Sane(b)
    ensures var (r, b1) := BoundaryStep(b);
            r.Pending? && |b1.Rest()| < |b.Rest()| ==> b1.buf == [] || b1.buf[0] == CR
  {
    hide Source.Bytes, Source.Ending, Source.Smooth, PadLen, ConsumePaddingAndCrlf, ConsumeCrlf, EnsureLen;
    EnsureLenWaits(b, 1, IncompleteStream);
    var (r, b1) := EnsureLen(b, 1, IncompleteStream);
    if r.Done() {
      if b1.buf[0] == DASH {
        EnsureLenWaits(b1, 2, IncompleteStream);
      } else if IsPad(b1.buf[0]) {
        PaddingSuspends(b1, IncompleteStream);
      } else if b1.buf[0] == CR {
        CrlfSuspends(b1, IncompleteStream);
      }
    }
  }

  lemma BoundaryCalm(p: Parser)
    requires Inv(p) && p.state == ReadingBoundary && !AtRisk(p)
    ensures var (r, p1) := p.AdvanceAfterBoundary();
            && (!r.Failed() ==> !AtRisk(p1))
            && (r.Pending? ==> Ahead(p1, false) == Ahead(p, false))
  {
    hide Source.Bytes, Source.Ending, Source.Smooth, PadLen, BoundaryLine, BoundaryStep, Sensitive, SensitivePart;
    hide FromBoundary;
    var rest, ending := p.buffer.Rest(), p.buffer.source.Ending();
    BoundaryReads(p.buffer);
    var (r, b) := BoundaryStep(p.buffer);
    if !r.Failed() {
      MovedTo(p.buffer, b);
      BufferStays(p.buffer, b);
    }
    if r.Done() && !r.result.value {
      HeadersCalm(p.cfg, rest, ending, |p.buffer.buf|, b.Rest(), |b.buf|);
    } else if r.Pending? {
      BoundarySuspends(p.buffer);
      var k := |rest| - |b.Rest()|;
      if k == 0 {
        assert rest[0..] == rest;
        PendingCalm(p.cfg, rest, ending, |p.buffer.buf|, 0, |b.buf|);
      } else {
        assert b.buf != [] ==> b.Rest()[0] == b.buf[0] == rest[k];
        PendingCalm(p.cfg, rest, ending, |p.buffer.buf|, k, |b.buf|);
      }
    }
  }

  /** On to a header block. */
  lemma HeadersCalm(cfg: Config, rest: seq<Byte>, ending: Ending, held: nat, s: seq<Byte>, more: nat)
    requires BoundaryLine(false, rest, ending) == ToHeaders(s) && !Sensitive(cfg, rest, ending, held)
    requires |s| <= |rest| && more >= Less(held, |rest| - |s|)
    ensures !SensitivePart(cfg, s, ending, more)
  {
    hide BoundaryLine, SensitivePart, PadLen;
    if SensitivePart(cfg, s, ending, more) {
      HeldMorePart(cfg, s, ending, Less(held, |rest| - |s|), more);
    }
  }

  /** A pause that consumed `k` bytes of padding. */
  lemma PendingCalm(cfg: Config, rest: seq<Byte>, ending: Ending, held: nat, k: nat, more: nat)
    requires !Sensitive(cfg, rest, ending, held)
    requires k <= PadLen(rest) && k <= |rest| && more >= Less(held, k)
    requires k > 0 && more > 0 ==> k < |rest| && rest[k] == CR
    ensures !Sensitive(cfg, rest[k..], ending, more)
    ensures FromBoundary(cfg, false, rest[k..], ending) == FromBoundary(cfg, false, rest, ending)
  {
    hide BoundaryLine, SensitivePart, FromBoundary, Unpadded, PadLen;
    var s := rest[k..];
    PadDropped(rest, k);
    if k == 0 {
      assert s == rest;
      if Sensitive(cfg, s, ending, more) { HeldMore(cfg, s, ending, held, more); }
    } else {
      PausedReading(cfg, rest, ending, held, k);
      PausedRisk(cfg, rest, ending, held, k, more);
    }
  }

  lemma PausedReading(cfg: Config, rest: seq<Byte>, ending: Ending, held: nat, k: nat)
    requires !Sensitive(cfg, rest, ending, held) && 0 < k <= PadLen(rest)
    requires held <= k || (k < |rest| && rest[k] == CR)
    ensures FromBoundary(cfg, false, rest[k..], ending) == FromBoundary(cfg, false, rest, ending)
  {
    hide BoundaryLine, SensitivePart, FromBoundary, PadLen;
    if PaddedDashes(rest) {
      PaddedReadings(cfg, rest, ending);
      PadDropped(rest, k);
      var s := rest[k..];
      if k < PadLen(rest) {
        StillPadded(rest, k);
        PaddedReadings(cfg, s, ending);
      } else {
        assert held <= PadLen(rest) && !Exposed(rest, ending);
      }
    } else {
      UnpaddedResumes(cfg, rest, ending, k);
    }
  }

  /** Dropping some of the padding leaves the line padded. */
  lemma StillPadded(rest: seq<Byte>, k: nat)
    requires PaddedDashes(rest) && k < PadLen(rest)
    ensures PaddedDashes(rest[k..]) && PadLen(rest[k..]) == PadLen(rest) - k
    ensures forall ending :: Unpadded(rest[k..], ending) == Unpadded(rest, ending)
  {
    hide PadLen, Closing;
    PadDropped(rest, k);
    var n := PadLen(rest);
    assert n + 1 < |rest| ==> rest[k..][n - k + 2..] == rest[n + 2..];
  }

  lemma UnpaddedResumes(cfg: Config, rest: seq<Byte>, ending: Ending, k: nat)
    requires !PaddedDashes(rest) && k <= PadLen(rest)
    ensures BoundaryLine(false, rest[k..], ending) == BoundaryLine(false, rest, ending)
    ensures FromBoundary(cfg, false, rest[k..], ending) == FromBoundary(cfg, false, rest, ending)
  {
    hide BoundaryLine, PadLen;
    PaddingResumedLine(rest, ending, k);
    UnpaddedReadings(rest, ending);
    BoundaryTaken(cfg, false, rest, ending);
    BoundaryTaken(cfg, false, rest[k..], ending);
  }

  lemma PausedRisk(cfg: Config, rest: seq<Byte>, ending: Ending, held: nat, k: nat, more: nat)
    requires !Sensitive(cfg, rest, ending, held) && 0 < k <= PadLen(rest) && more >= Less(held, k)
    ensures !Sensitive(cfg, rest[k..], ending, more)
  {
    hide BoundaryLine, SensitivePart, FromBoundary, PadLen, Unpadded;
    var s := rest[k..];
    PadDropped(rest, k);
    if PaddedDashes(rest) {
      PaddedReadings(cfg, rest, ending);
      if k < PadLen(rest) {
        StillPadded(rest, k);
        PaddedReadings(cfg, s, ending);
      } else {
        NoPadding(cfg, s, ending);
      }
    } else {
      UnpaddedResumes(cfg, rest, ending, k);
      var t := BoundaryLine(false, rest, ending);
      if t.ToHeaders? {
        HeadersCalm(cfg, rest, ending, held, t.rest, Less(more, |s| - |t.rest|));
      }
      StillUnpadded(rest, k);
    }
  }

  lemma StillUnpadded(rest: seq<Byte>, k: nat)
    requires !PaddedDashes(rest) && k <= PadLen(rest)
    ensures !PaddedDashes(rest[k..])
  {
    hide PadLen;
    PadDropped(rest, k);
  }

  /** Dashes without padding are read at once. */
  lemma NoPadding(cfg: Config, s: seq<Byte>, ending: Ending)
    requires s != [] && s[0] == DASH
    ensures forall held :: !Sensitive(cfg, s, ending, held)
  {
    hide SensitivePart;
  }

  /** Between parts, or at one that is not out yet. */
  predicate Between(p: Parser) {
    p.state in {FindingFirstBoundary, ReadingBoundary, ReadingClosingDelimiter, ReadingEpilogue, Done}
    || (p.state == ReadingPartHeaders && !p.partHandedOut)
  }

  lemma StepCalm(p: Parser)
    requires Inv(p) && !AtRisk(p)
    requires p.state in {FindingFirstBoundary, ReadingBoundary, ReadingClosingDelimiter, ReadingEpilogue}
    ensures var (r, p1) := p.Step();
            && (!r.Failed() ==> !AtRisk(p1) && Between(p1))
            && (r.Pending? ==> Ahead(p1, false) == Ahead(p, false))
  {
    hide AtRisk, Ahead, Inv, Goes, Parser.AdvanceFirstBoundary, Parser.AdvanceAfterBoundary, Parser.AdvanceClosing;
    hide Parser.AdvanceEpilogue;
    WhereTo(p);
    match p.state
    case FindingFirstBoundary => FirstBoundaryCalm(p);
    case ReadingBoundary => BoundaryCalm(p);
    case ReadingClosingDelimiter => ClosingCalm(p);
    case ReadingEpilogue => EpilogueCalm(p);
  }

  /** A structural step stays between parts; behind the closing delimiter there is no risk. */
  lemma WhereTo(p: Parser)
    requires Inv(p)
    requires p.state in {FindingFirstBoundary, ReadingBoundary, ReadingClosingDelimiter, ReadingEpilogue}
    ensures Between(p.Step().1)
    ensures p.state in {ReadingClosingDelimiter, ReadingEpilogue} ==> !AtRisk(p.Step().1)
  {
    hide BoundaryStep, BufferState.ReadTo, ConsumePaddingAndCrlf, EpilogueStep, Sensitive, SensitivePart;
    hide Source.Bytes, Source.Ending, AfterNeedle, BlockAt;
  }

  lemma EpilogueCalm(p: Parser)
    requires Inv(p) && p.state == ReadingEpilogue
    ensures var (r, p1) := p.AdvanceEpilogue(); r.Pending? ==> Ahead(p1, false) == Ahead(p, false)
  {
    hide Source.Bytes, Source.Ending, Source.Smooth;
    EpilogueStepped(p);
  }

  lemma ClosingCalm(p: Parser)
    requires Inv(p) && p.state == ReadingClosingDelimiter
    ensures var (r, p1) := p.AdvanceClosing(); r.Pending? ==> Ahead(p1, false) == Ahead(p, false)
  {
    hide Source.Bytes, Source.Ending, Source.Smooth;
    ClosingStepped(p);
  }

  lemma {:induction false} NextPartCalm(p: Parser)
    requires Inv(p) && Between(p) && !AtRisk(p)
    ensures var (r, p1) := p.NextPart();
            && (!r.Failed() ==> !AtRisk(p1))
            && (r.Pending? ==> Between(p1) && Ahead(p1, false) == Ahead(p, false))
    decreases |p.buffer.source.events|, |p.buffer.buf|, p.Rank()
  {
    hide Source.Bytes, Source.Ending, Source.Smooth, Ahead, AtRisk, Parser.Step, Advances, Parser.EnsureHeaders;
    hide Parser.SkipPartData, Parser.AdvanceAfterBoundary, Parser.FinishHeaders;
    match p.state
    case Done =>
    case StreamTaken =>
    case ReadingPartHeaders => HandedOutCalm(p);
    case ReadingPartData =>
    case _ =>
      StepCalm(p);
      StepStepped(p);
      var (r, p1) := p.Step();
      if r.Done() { NextPartCalm(p1); }
  }

  lemma HandedOutCalm(p: Parser)
    requires Inv(p) && p.state == ReadingPartHeaders && !p.partHandedOut && !AtRisk(p)
    ensures p.NextPart().0.Done() && !AtRisk(p.NextPart().1)
  {
    hide Source.Bytes, Source.Ending, SensitivePart;
  }

  /** A calm wait for the next part ends as the strict reading says. */
  lemma {:induction false} AwaitPartCalm(p: Parser)
    requires Inv(p) && Between(p) && !AtRisk(p)
    ensures var (r, p1) := AwaitPart(p);
            match r
            case Err(e) => Ahead(p, false) == Outcome([], Failed(e))
            case Ok(false) => Ahead(p, false) == Outcome([], Finished)
            case Ok(true) => Goes(p, p1) && AtPart(p1) && Offers(p, false, p1) && !AtRisk(p1)
    decreases |p.buffer.source.events|
  {
    hide Source.Bytes, Source.Ending, Source.Smooth, Ahead, Advances, FromHeaders, Parser.NextPart, AtRisk, BlockAt;
    NextPartWalks(p);
    NextPartCalm(p);
    var (r, p2) := p.NextPart();
    if r.Pending? {
      AwaitPartCalm(p2);
      var (r1, p1) := AwaitPart(p2);
      if r1 == Ok(true) { MovesOnTwice(p.buffer, p2.buffer, p1.buffer); }
    }
  }

  /** Awaiting the header block leaves at least the block in the buffer. */
  lemma {:induction false} AwaitHeadersHolds(p: Parser)
    requires Inv(p) && AtPart(p)
    ensures var (r, p1) := AwaitHeaders(p);
            r.Ok? ==> var end := EndOfHeaderBlock(p.buffer.Rest(), p.buffer.source.Ending(), p.cfg.maxBufferSize);
                      end.Ok? && end.value <= |p1.buffer.buf|
    decreases |p.buffer.source.events|
  {
    hide Source.Bytes, Source.Ending, Source.Smooth, EndOfHeaderBlock, BufferState.ReadHeaderBlock, Ahead, BlockAt;
    hide ParseHeaderBlock;
    EnsureHeadersStepped(p);
    ReadHeaderBlockReads(p.buffer, p.cfg.maxBufferSize);
    var (r, p1) := p.EnsureHeaders();
    if r.Pending? {
      AwaitHeadersHolds(p1);
      Advanced(p.buffer, p1.buffer, 0);
      assert p1.buffer.Rest() == p.buffer.Rest();
    }
  }

  /** A part read to its end leaves no new risk. */
  lemma ReadPartCalm(p: Parser)
    requires Inv(p) && AtPart(p) && !AtRisk(p)
    ensures var (r, p1) := ReadPart(p); r.Ok? ==> !AtRisk(p1)
  {
    hide Source.Bytes, Source.Ending, Source.Smooth, Find, BlockAt, EndOfHeaderBlock, FieldsOf, HeaderLib.ReadsNames;
    hide AwaitHeaders, ReadFields, ReadData, Inv, Advances, Parser.FinishHeaders, Sensitive;
    var rest, ending := p.buffer.Rest(), p.buffer.source.Ending();
    AwaitHeadersReads(p);
    AwaitHeadersHolds(p);
    var (h, p1) := AwaitHeaders(p);
    if h.Ok? {
      HeldInside(p1);
      var block := p1.headers.value;
      Advanced(p.buffer, p1.buffer, 0);
      BufferStays(p.buffer, p1.buffer);
      BlockAtInside(p.cfg, rest, ending);
      HeldFields(p, p1);
      SameFields(p1.buffer.buf, p1.buffer.source.Bytes(), block.spans);
      if p.cfg.lib.ReadsNames(FieldsOf(rest, block.spans)) {
        var p2 := ReadFields(p1).1;
        Advanced(p.buffer, p2.buffer, block.dataStart);
        FinishHolds(p1);
        ReadDataReads(p2);
        var (d, p3) := ReadData(p2);
        if d.Ok? {
          MovedTo(p2.buffer, p3.buffer);
          BufferStays(p2.buffer, p3.buffer);
          if AtRisk(p3) { RiskBefore(p, p2, p3, |p1.buffer.buf|, block, |d.value|); }
        }
      }
    }
  }

  lemma FinishHolds(p: Parser)
    requires Inv(p) && p.headers.Some?
    ensures |p.FinishHeaders().buffer.buf| == |p.buffer.buf| - p.headers.value.dataStart
  {
  }

  /** A risk behind a part was a risk before it. */
  lemma RiskBefore(p: Parser, p2: Parser, p3: Parser, held: nat, block: HeaderBlock, i: nat)
    requires AtPart(p) && p3.state == ReadingBoundary && AtRisk(p3) && p2.cfg == p.cfg && p3.cfg == p.cfg
    requires BlockOf(p) == Ok(block) && block.Inside(|p.buffer.Rest()|)
    requires p.cfg.lib.ReadsNames(FieldsOf(p.buffer.Rest(), block.spans))
    requires var end := EndOfHeaderBlock(p.buffer.Rest(), p.buffer.source.Ending(), p.cfg.maxBufferSize);
             end.Ok? && end.value <= held
    requires |p.buffer.buf| <= held && block.dataStart <= held && |p2.buffer.buf| == held - block.dataStart
    requires p2.buffer.Rest() == p.buffer.Rest()[block.dataStart..]
    requires Find(p2.buffer.Rest(), p.cfg.Delim()) == Some(i)
    requires p3.buffer.Rest() == p2.buffer.Rest()[i + |p.cfg.Delim()|..]
    requires p3.buffer.source.Ending() == p.buffer.source.Ending()
    requires |p3.buffer.buf| >= Less(|p2.buffer.buf|, i + |p.cfg.Delim()|)
    ensures AtRisk(p)
  {
    hide Source.Bytes, Source.Ending, Find, BlockAt, EndOfHeaderBlock, FieldsOf, HeaderLib.ReadsNames, Sensitive;
    var rest, ending := p.buffer.Rest(), p.buffer.source.Ending();
    var end := EndOfHeaderBlock(rest, ending, p.cfg.maxBufferSize).value;
    var n := i + |p.cfg.Delim()|;
    var less := Less(Less(Most(|p.buffer.buf|, end), block.dataStart), n);
    HeldMore(p.cfg, p3.buffer.Rest(), ending, less, |p3.buffer.buf|);
    assert SensitiveData(p.cfg, p2.buffer.Rest(), ending, Less(Most(|p.buffer.buf|, end), block.dataStart));
  }

  /** Without a risk ahead every delivery gives the strict reading. */
  lemma {:induction false} ReadAllCalm(p: Parser)
    requires Inv(p) && Between(p) && !AtRisk(p)
    ensures ReadAll(p) == Ahead(p, false)
    decreases |p.buffer.Rest()|
  {
    hide Source.Bytes, Source.Ending, Source.Smooth, Ahead, Inv, Advances, FromHeaders, AwaitPart, ReadPart, AtRisk;
    AwaitPartAwaits(p);
    AwaitPartCalm(p);
    var (r, p1) := AwaitPart(p);
    if r == Ok(true) {
      ReadPartReads(p1, false);
      ReadPartCalm(p1);
      var (part, p2) := ReadPart(p1);
      if part.Ok? { ReadAllCalm(p2); }
    }
  }

  /** Whatever the delivery, a body without an exposed line within reach parses as it does in one piece. */
  lemma InsensitiveParse(cfg: Config, events: seq<Event>)
    requires cfg.lib.Bounded()
    requires !SensitiveBody(cfg, Source(events, 0).Bytes(), Source(events, 0).Ending())
    ensures Parse(cfg, events) == OneShot(cfg, false, Source(events, 0).Bytes(), Source(events, 0).Ending())
  {
    hide Source.Bytes, Source.Ending, Source.Smooth, OneShot, ReadAll, Sensitive, AfterNeedle;
    StartInv(cfg, events);
    var p := Start(cfg, events);
    AfterIsTail(p.buffer.Rest(), cfg.First());
    assert Less(0, |p.buffer.Rest()|) == 0;
    ReadAllCalm(p);
  }
}
