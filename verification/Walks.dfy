/**
 * Whole runs: a client that awaits every answer and reads every part gets the one-shot parse of the
 * bytes, whatever the delivery.
 */
module Walks {
  import opened Bytes
  import opened Errors
  import opened Stream
  import opened Delimiter
  import opened Headers
  import opened Grammar
  import opened Lines
  import opened Machine
  import opened Refinement

  /** A new parser over a stream. */
  function Start(cfg: Config, events: seq<Event>): Parser {
    Parser(cfg, FindingFirstBoundary, None, false, BufferState([], Source(events, 0), false, 0, 0, false))
  }

  lemma StartInv(cfg: Config, events: seq<Event>)
    requires cfg.lib.Bounded()
    ensures var p := Start(cfg, events);
            && Inv(p)
            && p.buffer.Rest() == Source(events, 0).Bytes()
            && forall lenient :: Ahead(p, lenient) ==
                                 OneShot(cfg, lenient, Source(events, 0).Bytes(), Source(events, 0).Ending())
  {
    hide OneShot, Source.Bytes, Source.Ending;
    assert [] + Source(events, 0).Bytes() == Source(events, 0).Bytes();
  }

  /** `o` is what was ahead of `p`: read strictly, or leniently once the stream suspended. */
  predicate Among(p: Parser, o: Outcome) {
    && (o == Ahead(p, false) || o == Ahead(p, true))
    && (p.buffer.source.Smooth() ==> o == Ahead(p, false))
  }

  // ----- Awaiting

  /** Polls for the next part until the answer is ready. */
  ghost function AwaitPart(p: Parser): (r: (Result<bool>, Parser))
    requires Inv(p)
    decreases |p.buffer.source.events|
  {
    NextPartWalks(p);
    var (r, p1) := p.NextPart();
    if r.Pending? then AwaitPart(p1) else (r.result, p1)
  }

  ghost predicate Awaited(p: Parser, r: Result<bool>, p1: Parser) {
    match r
    case Err(e) => Among(p, Outcome([], Failed(e)))
    case Ok(false) => Goes(p, p1) && p1.state == Done && Among(p, Outcome([], Finished))
    case Ok(true) =>
      && Goes(p, p1) && AtPart(p1)
      && Offers(p, true, p1)
      && Among(p, FromHeaders(p.cfg, false, p1.buffer.Rest(), p1.buffer.source.Ending()))
  }

  lemma AwaitedOn(p: Parser, p2: Parser, r: Result<bool>, p1: Parser)
    requires Goes(p, p2) && Agrees(p, p2) && Waits(p.buffer.source, p2.buffer.source) && Awaited(p2, r, p1)
    ensures Awaited(p, r, p1)
  {
    hide Source.Bytes, Source.Ending, Source.Smooth, Ahead, Inv, Advances, FromHeaders;
    if r.Ok? { MovesOnTwice(p.buffer, p2.buffer, p1.buffer); }
  }

  lemma {:induction false} AwaitPartAwaits(p: Parser)
    requires Inv(p)
    ensures var (r, p1) := AwaitPart(p); Awaited(p, r, p1)
    decreases |p.buffer.source.events|
  {
    hide Source.Bytes, Source.Ending, Source.Smooth, Ahead, Advances, FromHeaders, Parser.NextPart;
    NextPartWalks(p);
    var (r, p2) := p.NextPart();
    if r.Pending? {
      AwaitPartAwaits(p2);
      var (r1, p1) := AwaitPart(p2);
      AwaitedOn(p, p2, r1, p1);
    }
  }

  // ----- Reading one part

  /** Polls for the header block of the current part until the answer is ready. */
  ghost function AwaitHeaders(p: Parser): (r: (Result<()>, Parser))
    requires Inv(p) && p.state == ReadingPartHeaders && p.partHandedOut
    decreases |p.buffer.source.events|
  {
    EnsureHeadersStepped(p);
    var (r, p1) := p.EnsureHeaders();
    if r.Pending? then AwaitHeaders(p1) else (r.result, p1)
  }

  /** The header block the bytes of `p` have in front. */
  function BlockOf(p: Parser): Result<HeaderBlock> {
    BlockAt(p.cfg, p.buffer.Rest(), p.buffer.source.Ending())
  }

  lemma {:induction false} AwaitHeadersReads(p: Parser)
    requires Inv(p) && p.state == ReadingPartHeaders && p.partHandedOut
    ensures var (r, p1) := AwaitHeaders(p);
            match r
            case Err(e) => BlockOf(p) == Err(e)
            case Ok(_) =>
              && Inv(p1) && p1.cfg == p.cfg && Advances(p.buffer, p1.buffer, 0)
              && p1.state == ReadingPartHeaders && p1.partHandedOut && p1.headers.Some?
              && (p.headers.None? ==> BlockOf(p) == Ok(p1.headers.value))
    decreases |p.buffer.source.events|
  {
    hide Source.Bytes, Source.Ending, Source.Smooth, Ahead, BlockAt, Parser.EnsureHeaders;
    EnsureHeadersStepped(p);
    var (r, p2) := p.EnsureHeaders();
    if r.Pending? {
      AwaitHeadersReads(p2);
      var (r1, p1) := AwaitHeaders(p2);
      if r1.Ok? { AdvancesOn(p.buffer, p2.buffer, p1.buffer, 0, 0); }
    } else if r.Done() && p.headers.None? {
      HeadersFresh(p);
    }
  }

  /** A block that was just read has not yielded a field yet. */
  lemma HeadersFresh(p: Parser)
    requires Inv(p) && p.state == ReadingPartHeaders && p.partHandedOut && p.headers.None?
    ensures var (r, p1) := p.EnsureHeaders(); r.Done() ==> p1.headers.value.next == 0
  {
    hide Source.Bytes, Source.Ending, Source.Smooth, BufferState.ReadHeaderBlock, EndOfHeaderBlock;
    var (r, b) := p.buffer.ReadHeaderBlock(p.cfg.maxBufferSize);
    if r.Done() {
      ParsedBlockInside(p.cfg.lib, b.buf[..r.result.value]);
    }
  }

  /** Asks for fields until there are none left. */
  ghost function ReadFields(p: Parser): (r: (Result<seq<Field>>, Parser))
    requires p.WellFormed() && p.headers.Some?
    decreases |p.headers.value.spans| - p.headers.value.next
  {
    var (r, p1) := p.NextHeaderInner();
    match r
    case Err(e) => (Err(e), p1)
    case Ok(None) => (Ok([]), p1)
    case Ok(Some(field)) =>
      var (more, p2) := ReadFields(p1);
      (if more.Ok? then Ok([field] + more.value) else more, p2)
  }

  /** The fields still to be handed out come out up to the first name that is not UTF-8. */
  lemma {:induction false} ReadFieldsReads(p: Parser)
    requires p.WellFormed() && p.headers.Some? && p.headers.value.next <= |p.headers.value.spans|
    ensures var block := p.headers.value;
            var (r, p1) := ReadFields(p);
            var left := FieldsOf(p.buffer.buf, block.spans)[block.next..];
            if p.cfg.lib.ReadsNames(left) then r == Ok(left) && p1 == p.FinishHeaders() else r == Err(InvalidFormat)
    decreases |p.headers.value.spans| - p.headers.value.next
  {
    hide HeaderLib.Bounded, Parser.FinishHeaders;
    var block := p.headers.value;
    var all := FieldsOf(p.buffer.buf, block.spans);
    if block.next < |block.spans| {
      var p1 := p.(headers := Some(block.(next := block.next + 1)));
      var left, more := all[block.next..], all[block.next + 1..];
      assert left == [all[block.next]] + more;
      if p.cfg.lib.utf8(all[block.next].name) {
        assert p.NextHeaderInner() == (Ok(Some(all[block.next])), p1);
        ReadFieldsReads(p1);
        SameFinish(p, p1);
        assert p.cfg.lib.ReadsNames(left) <==> p.cfg.lib.ReadsNames(more);
      } else {
        assert left[0] in left;
      }
    } else {
      assert all[block.next..] == [];
    }
  }

  lemma SameFinish(p: Parser, p1: Parser)
    requires p.WellFormed() && p1.WellFormed() && p.headers.Some? && p1.headers.Some?
    requires p1 == p.(headers := p1.headers) && p1.headers.value.dataStart == p.headers.value.dataStart
    ensures p1.FinishHeaders() == p.FinishHeaders()
  {
  }

  /** Asks for data until the end of the part is reported. */
  ghost function ReadData(p: Parser): (r: (Result<seq<Byte>>, Parser))
    requires Inv(p) && p.state in {ReadingPartData, ReadingBoundary}
    decreases |p.buffer.source.events|, |p.buffer.buf|
  {
    NextDataChunkStepped(p);
    var (r, p1) := p.NextDataChunk();
    match r
    case Pending => ReadData(p1)
    case Ready(Err(e)) => (Err(e), p1)
    case Ready(Ok(None)) => (Ok([]), p1)
    case Ready(Ok(Some(data))) =>
      var (more, p2) := ReadData(p1);
      (if more.Ok? then Ok(data + more.value) else more, p2)
  }

  /** The data of the current part are the bytes up to the leftmost delimiter. */
  ghost predicate DataRead(p: Parser, r: Result<seq<Byte>>, p1: Parser) {
    var (rest, delim) := (p.buffer.Rest(), p.cfg.Delim());
    match r
    case Err(e) => Find(rest, delim) == None && e == p.buffer.source.Ending().Cut(IncompleteStream)
    case Ok(data) =>
      && Find(rest, delim) == Some(|data|) && data <= rest
      && p1.state == ReadingBoundary && Goes(p, p1) && p1.buffer.Rest() == rest[|data| + |delim|..]
  }

  lemma DataReadOn(p: Parser, data: seq<Byte>, p2: Parser, r: Result<seq<Byte>>, p1: Parser)
    requires p2.cfg == p.cfg && Goes(p, p2)
    requires data <= p.buffer.Rest() && Advances(p.buffer, p2.buffer, |data|)
    requires Find(p.buffer.Rest(), p.cfg.Delim()) == Shifted(Find(p2.buffer.Rest(), p.cfg.Delim()), |data|)
    requires DataRead(p2, r, p1)
    ensures DataRead(p, if r.Ok? then Ok(data + r.value) else r, p1)
  {
    hide Source.Bytes, Source.Ending, Source.Smooth, Find, Inv, Advances;
    Advanced(p.buffer, p2.buffer, |data|);
    if r.Ok? {
      MovesOnTwice(p.buffer, p2.buffer, p1.buffer);
      PrefixOfDrop(p.buffer.Rest(), data, r.value, |p.cfg.Delim()|);
    }
  }

  lemma Advanced(b: BufferState, b1: BufferState, k: nat)
    requires Advances(b, b1, k)
    ensures k <= |b.Rest()| && b1.Rest() == b.Rest()[k..] && b1.source.Ending() == b.source.Ending()
    ensures MovesOn(b, b1)
  {
  }

  lemma PrefixOfDrop(rest: seq<Byte>, data: seq<Byte>, more: seq<Byte>, n: nat)
    requires data <= rest && more <= rest[|data|..] && |data| + |more| + n <= |rest|
    ensures data + more <= rest
    ensures rest[|data|..][|more| + n..] == rest[|data + more| + n..]
  {
    assert rest == data + rest[|data|..];
  }

  lemma {:induction false} ReadDataReads(p: Parser)
    requires Inv(p) && p.state == ReadingPartData
    ensures var (r, p1) := ReadData(p); DataRead(p, r, p1)
    decreases |p.buffer.source.events|, |p.buffer.buf|
  {
    hide Source.Bytes, Source.Ending, Source.Smooth, Find, Ahead, DataRead, NextData;
    NextDataChunkStepped(p);
    NextDataReads(p.buffer, p.cfg.Delim(), IncompleteStream);
    var (r, b) := NextData(p.buffer, p.cfg.Delim(), IncompleteStream);
    var (_, p2) := p.NextDataChunk();
    if r.Failed() || (r.Done() && r.result.value.last) {
      ReadDataEnds(p);
    } else {
      ReadDataReads(p2);
      var (r1, p1) := ReadData(p2);
      var data := if r.Done() then r.result.value.data else [];
      ShiftedNone(Find(p2.buffer.Rest(), p.cfg.Delim()));
      DataReadOn(p, data, p2, r1, p1);
      assert r1.Ok? ==> [] + r1.value == r1.value;
    }
  }

  lemma ShiftedNone(at: Option<nat>)
    ensures Shifted(at, 0) == at
  {
  }

  lemma ReadDataEnds(p: Parser)
    requires Inv(p) && p.state == ReadingPartData
    requires var r := NextData(p.buffer, p.cfg.Delim(), IncompleteStream).0;
             r.Failed() || (r.Done() && r.result.value.last)
    ensures var (r, p1) := ReadData(p); DataRead(p, r, p1)
  {
    hide Source.Bytes, Source.Ending, Source.Smooth, Find, Ahead, NextData;
    NextDataChunkStepped(p);
    NextDataReads(p.buffer, p.cfg.Delim(), IncompleteStream);
    var (r, b) := NextData(p.buffer, p.cfg.Delim(), IncompleteStream);
    if r.Done() {
      var data := r.result.value.data;
      var p2 := p.(buffer := b, state := ReadingBoundary);
      assert ReadData(p2) == (Ok([]), p2);
      assert data + [] == data;
      assert ReadData(p) == (Ok(data), p2);
    }
  }

  /** Reads a part that was handed out: all its fields, then all its data. */
  ghost function ReadPart(p: Parser): (r: (Result<PartValue>, Parser))
    requires Inv(p) && AtPart(p)
  {
    AwaitHeadersReads(p);
    var (h, p1) := AwaitHeaders(p);
    if h.Err? then (Err(h.error), p1)
    else
      HeldFields(p, p1);
      var (f, p2) := ReadFields(p1);
      if f.Err? then (Err(f.error), p2)
      else
        var (d, p3) := ReadData(p2);
        (if d.Err? then Err(d.error) else Ok(PartValue(f.value, d.value)), p3)
  }

  /** Reading the fields of a held block ends at the part's data, or at a name that is not UTF-8. */
  lemma HeldFields(p: Parser, p1: Parser)
    requires Inv(p1) && p1.headers.Some? && p1.headers.value.next == 0
    requires p1.cfg == p.cfg && Advances(p.buffer, p1.buffer, 0)
    ensures var (f, p2) := ReadFields(p1);
            var fields := FieldsOf(p1.buffer.buf, p1.headers.value.spans);
            if p.cfg.lib.ReadsNames(fields) then
              && f == Ok(fields)
              && p2 == p1.FinishHeaders()
              && Inv(p2) && p2.state == ReadingPartData && p2.cfg == p.cfg
              && Advances(p.buffer, p2.buffer, p1.headers.value.dataStart)
            else f == Err(InvalidFormat)
  {
    hide Source.Bytes, Source.Ending, Source.Smooth, Ahead, Inv, ReadFields, HeaderLib.ReadsNames;
    HeldInside(p1);
    ReadFieldsReads(p1);
    assert FieldsOf(p1.buffer.buf, p1.headers.value.spans)[0..] == FieldsOf(p1.buffer.buf, p1.headers.value.spans);
    FinishHeadersGoes(p1);
    SplitAdvances(p1.buffer, p1.headers.value.dataStart);
    AdvancesOn(p.buffer, p1.buffer, p1.FinishHeaders().buffer, 0, p1.headers.value.dataStart);
  }

  lemma HeldInside(p: Parser)
    requires Inv(p) && p.headers.Some?
    ensures p.WellFormed() && Sane(p.buffer) && p.headers.value.dataStart <= |p.buffer.buf|
  {
  }

  /** `FromHeaders` on a part whose block and data are known. */
  lemma PartUnfolds(cfg: Config, lenient: bool, rest: seq<Byte>, ending: Ending, block: HeaderBlock)
    requires BlockAt(cfg, rest, ending) == Ok(block) && block.Inside(|rest|)
    requires cfg.lib.ReadsNames(FieldsOf(rest, block.spans))
    ensures var data := rest[block.dataStart..];
            var o := FromHeaders(cfg, lenient, rest, ending);
            match Find(data, cfg.Delim())
            case None => o == Outcome([], Failed(ending.Cut(IncompleteStream)))
            case Some(i) =>
              var more := FromBoundary(cfg, lenient, data[i + |cfg.Delim()|..], ending);
              o == Outcome([PartValue(FieldsOf(rest, block.spans), data[..i])] + more.parts, more.last)
  {
    hide BlockAt, Find, FieldsOf, HeaderLib.ReadsNames;
  }

  /** A part without a header block, or with a name that is not UTF-8. */
  lemma PartFails(cfg: Config, lenient: bool, rest: seq<Byte>, ending: Ending)
    ensures var block := BlockAt(cfg, rest, ending);
            var o := FromHeaders(cfg, lenient, rest, ending);
            && (block.Err? ==> o == Outcome([], Failed(block.error)))
            && (block.Ok? && block.value.Inside(|rest|) ==>
                  cfg.lib.ReadsNames(FieldsOf(rest, block.value.spans)) || o == Outcome([], Failed(InvalidFormat)))
  {
    hide BlockAt, FieldsOf, HeaderLib.ReadsNames;
  }

  /** The outcome of a body whose first part is `part`, with `o` after it. */
  function Preceded(part: PartValue, o: Outcome): Outcome {
    Outcome([part] + o.parts, o.last)
  }

  predicate PartRead(p: Parser, lenient: bool, r: Result<PartValue>, p1: Parser) {
    var o := FromHeaders(p.cfg, lenient, p.buffer.Rest(), p.buffer.source.Ending());
    match r
    case Err(e) => o == Outcome([], Failed(e))
    case Ok(part) => o == Preceded(part, Ahead(p1, lenient))
  }

  /** A part read to its end is the part the one-shot parse has there. */
  lemma ReadPartReads(p: Parser, lenient: bool)
    requires Inv(p) && AtPart(p)
    ensures var (r, p1) := ReadPart(p);
            && PartRead(p, lenient, r, p1)
            && (r.Ok? ==> Goes(p, p1) && p1.state == ReadingBoundary && |p1.buffer.Rest()| < |p.buffer.Rest()|)
  {
    hide Source.Bytes, Source.Ending, Source.Smooth, Find, FromHeaders, FromBoundary, BlockAt;
    hide AwaitHeaders, ReadFields, ReadData, Inv, Advances, Parser.FinishHeaders, FieldsOf, HeaderLib.ReadsNames;
    var rest, ending := p.buffer.Rest(), p.buffer.source.Ending();
    AwaitHeadersReads(p);
    var (h, p1) := AwaitHeaders(p);
    PartFails(p.cfg, lenient, rest, ending);
    if h.Ok? {
      HeldInside(p1);
      var block := p1.headers.value;
      Advanced(p.buffer, p1.buffer, 0);
      BlockAtInside(p.cfg, rest, ending);
      HeldFields(p, p1);
      SameFields(p1.buffer.buf, p1.buffer.source.Bytes(), block.spans);
      if p.cfg.lib.ReadsNames(FieldsOf(rest, block.spans)) {
        var (f, p2) := ReadFields(p1);
        ReadableReads(p, lenient, p2, block);
        var (d, p3) := ReadData(p2);
        assert ReadPart(p) == (if d.Err? then Err(d.error) else Ok(PartValue(f.value, d.value)), p3);
      }
    }
  }

  /** With all its fields read, the part's data follow. */
  lemma ReadableReads(p: Parser, lenient: bool, p2: Parser, block: HeaderBlock)
    requires Inv(p2) && p2.state == ReadingPartData && p2.cfg == p.cfg && Advances(p.buffer, p2.buffer, block.dataStart)
    requires BlockOf(p) == Ok(block) && block.Inside(|p.buffer.Rest()|)
    requires p.cfg.lib.ReadsNames(FieldsOf(p.buffer.Rest(), block.spans))
    ensures var (d, p3) := ReadData(p2);
            var fields := FieldsOf(p.buffer.Rest(), block.spans);
            && PartRead(p, lenient, if d.Err? then Err(d.error) else Ok(PartValue(fields, d.value)), p3)
            && (d.Ok? ==> Goes(p, p3) && p3.state == ReadingBoundary && |p3.buffer.Rest()| < |p.buffer.Rest()|)
  {
    hide Source.Bytes, Source.Ending, Source.Smooth, Find, FromHeaders, FromBoundary, BlockAt;
    hide ReadData, Inv, Advances, FieldsOf, HeaderLib.ReadsNames;
    Advanced(p.buffer, p2.buffer, block.dataStart);
    ReadDataReads(p2);
    var (d, p3) := ReadData(p2);
    PartUnfolds(p.cfg, lenient, p.buffer.Rest(), p.buffer.source.Ending(), block);
    if d.Ok? { ReadPartEnds(p, p2, d.value, p3); }
  }

  lemma SameFields(front: seq<Byte>, back: seq<Byte>, spans: seq<FieldSpan>)
    requires forall i :: 0 <= i < |spans| ==> spans[i].Inside(|front|)
    ensures forall i :: 0 <= i < |spans| ==> spans[i].Inside(|front + back|)
    ensures FieldsOf(front + back, spans) == FieldsOf(front, spans)
  {
    forall i | 0 <= i < |spans|
      ensures spans[i].Inside(|front + back|) && FieldOf(front + back, spans[i]) == FieldOf(front, spans[i])
    {
      var s := spans[i];
      assert (front + back)[s.name.start..s.name.end] == front[s.name.start..s.name.end];
      assert (front + back)[s.value.start..s.value.end] == front[s.value.start..s.value.end];
    }
  }

  lemma ReadPartEnds(p: Parser, p2: Parser, data: seq<Byte>, p3: Parser)
    requires p2.cfg == p.cfg && MovesOn(p.buffer, p2.buffer) && DataRead(p2, Ok(data), p3)
    ensures Goes(p, p3) && |p3.buffer.Rest()| < |p.buffer.Rest()|
    ensures p3.buffer.source.Ending() == p.buffer.source.Ending() && data == p2.buffer.Rest()[..|data|]
  {
    hide Source.Bytes, Source.Ending, Source.Smooth, Find, Inv;
    MovesOnTwice(p.buffer, p2.buffer, p3.buffer);
  }

  // ----- Reading everything

  /** The client of the fuzz harness: takes each part, reads it whole, and stops at the end or at an error. */
  ghost function ReadAll(p: Parser): Outcome
    requires Inv(p)
    decreases |p.buffer.Rest()|
  {
    AwaitPartAwaits(p);
    var (r, p1) := AwaitPart(p);
    match r
    case Err(e) => Outcome([], Failed(e))
    case Ok(false) => Outcome([], Finished)
    case Ok(true) =>
      ReadPartReads(p1, false);
      var (part, p2) := ReadPart(p1);
      if part.Err? then Outcome([], Failed(part.error)) else Preceded(part.value, ReadAll(p2))
  }

  lemma StillSmooth(b: BufferState, b1: BufferState)
    requires MovesOn(b, b1)
    ensures b.source.Smooth() ==> b1.source.Smooth()
  {
  }

  /** Every run gives the one-shot parse of what was ahead, read strictly unless the stream suspended. */
  lemma {:induction false} ReadAllReads(p: Parser)
    requires Inv(p)
    ensures Among(p, ReadAll(p))
    decreases |p.buffer.Rest()|
  {
    hide Source.Bytes, Source.Ending, Source.Smooth, Ahead, Inv, Advances, FromHeaders, AwaitPart, ReadPart;
    AwaitPartAwaits(p);
    var (r, p1) := AwaitPart(p);
    if r == Ok(true) {
      ReadPartReads(p1, false);
      ReadPartReads(p1, true);
      var (part, p2) := ReadPart(p1);
      if part.Ok? {
        StillSmooth(p.buffer, p1.buffer);
        StillSmooth(p1.buffer, p2.buffer);
        ReadAllReads(p2);
      }
    }
  }

  /** What a client that reads everything gets from a delivery. */
  ghost function Parse(cfg: Config, events: seq<Event>): Outcome
    requires cfg.lib.Bounded()
  {
    StartInv(cfg, events);
    ReadAll(Start(cfg, events))
  }

  /** Chunk independence: without suspension the outcome is that of the one-shot parse of the bytes. */
  lemma ChunkIndependence(cfg: Config, events: seq<Event>)
    requires cfg.lib.Bounded() && Source(events, 0).Smooth()
    ensures Parse(cfg, events) == OneShot(cfg, false, Source(events, 0).Bytes(), Source(events, 0).Ending())
  {
    hide OneShot, Ahead, Source.Bytes, Source.Ending, Source.Smooth, ReadAll;
    StartInv(cfg, events);
    ReadAllReads(Start(cfg, events));
  }

  /**
   * Resume safety: whatever suspensions and empty chunks a delivery has, its outcome is that of the
   * strict one-shot parse, unless that parse rejects the format; then it may be the lenient one.
   */
  lemma ResumeSafety(cfg: Config, events: seq<Event>)
    requires cfg.lib.Bounded()
    ensures var (bytes, ending) := (Source(events, 0).Bytes(), Source(events, 0).Ending());
            var strict := OneShot(cfg, false, bytes, ending);
            && (Parse(cfg, events) == strict || Parse(cfg, events) == OneShot(cfg, true, bytes, ending))
            && (strict.last != Failed(InvalidFormat) ==> Parse(cfg, events) == strict)
  {
    hide Ahead, Source.Bytes, Source.Ending, Source.Smooth, ReadAll, FromBoundary, AfterNeedle;
    StartInv(cfg, events);
    ReadAllReads(Start(cfg, events));
    var (bytes, ending) := (Source(events, 0).Bytes(), Source(events, 0).Ending());
    var after := AfterNeedle(bytes, cfg.First());
    if after.Some? {
      StrictOrLenient(cfg, after.value, ending);
    }
  }
}
