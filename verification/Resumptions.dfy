/**
 * The delivery that makes a difference: everything up to the padding of an exposed line, a suspension,
 * then the rest. With it, suspension independence has its exact condition.
 */
module Resumptions {
  import opened Bytes
  import opened Errors
  import opened Stream
  import opened Delimiter
  import opened Headers
  import opened Grammar
  import opened Lines
  import opened Machine
  import opened Refinement
  import opened Walks
  import opened Padding
  import opened Suspensions
  import opened Deliveries

  // ----- What is decided by a front part of the bytes

  /** `front` alone takes the strict parse to an exposed line, whose padding ends with it. */
  predicate Leads(cfg: Config, front: seq<Byte>, tail: seq<Byte>)
    decreases |front|, 2
  {
    || (0 < |front| == PadLen(front + tail) && Exposed(front + tail, AtEnd))
    || (var t := BoundaryLine(false, front, AtEnd); t.ToHeaders? && LeadsPart(cfg, t.rest, tail))
  }

  predicate LeadsPart(cfg: Config, front: seq<Byte>, tail: seq<Byte>)
    decreases |front|, 1
  {
    var block := BlockAt(cfg, front, AtEnd);
    && block.Ok? && block.value.Inside(|front|) && cfg.lib.ReadsNames(FieldsOf(front, block.value.spans))
    && var data := front[block.value.dataStart..];
       var at := Find(data, cfg.Delim());
       at.Some? && Leads(cfg, data[at.value + |cfg.Delim()|..], tail)
  }

  lemma FindInFront(hay: seq<Byte>, needle: seq<Byte>, k: nat)
    requires Find(hay, needle).Some? && Find(hay, needle).value + |needle| <= k <= |hay|
    ensures Find(hay[..k], needle) == Find(hay, needle)
  {
    var i, front := Find(hay, needle).value, hay[..k];
    FindIsLeftmost(hay, needle);
    assert front[i..i + |needle|] == hay[i..i + |needle|];
    forall j | 0 <= j < i ensures !OccursAt(front, needle, j) {
      assert !OccursAt(hay, needle, j);
      assert j + |needle| <= k ==> front[j..j + |needle|] == hay[j..j + |needle|];
    }
    FindIs(front, needle, i);
  }

  lemma {:induction false} PadLenIs(s: seq<Byte>, n: nat)
    requires n <= |s| && (forall i :: 0 <= i < n ==> IsPad(s[i])) && (n < |s| ==> !IsPad(s[n]))
    ensures PadLen(s) == n
  {
    if n > 0 {
      PadLenIs(s[1..], n - 1);
    }
  }

  /** A line end decides a boundary line, whatever follows. */
  lemma LineInFront(rest: seq<Byte>, k: nat)
    requires BoundaryLine(false, rest, AtEnd).ToHeaders? && k <= |rest|
    requires |rest| - |BoundaryLine(false, rest, AtEnd).rest| <= k
    ensures var c := |rest| - |BoundaryLine(false, rest, AtEnd).rest|;
            && BoundaryLine(false, rest, AtEnd) == ToHeaders(rest[c..])
            && BoundaryLine(false, rest[..k], AtEnd) == ToHeaders(rest[c..k])
  {
    hide PadLen;
    var n := PadLen(rest);
    var front := rest[..k];
    LineShape(rest);
    PadLenIs(front, n);
    assert rest[n..][2..] == rest[n + 2..];
    assert front[n..][2..] == rest[n + 2..k];
    assert front[0] == rest[0];
  }

  lemma LineShape(rest: seq<Byte>)
    requires BoundaryLine(false, rest, AtEnd).ToHeaders?
    ensures var n := PadLen(rest);
            && n + 2 <= |rest| && rest[n] == CR && rest[n + 1] == LF
            && BoundaryLine(false, rest, AtEnd).rest == rest[n..][2..]
  {
    hide PadLen;
  }

  /** A header block decides itself. */
  lemma BlockInFront(cfg: Config, rest: seq<Byte>, k: nat)
    requires cfg.lib.Bounded() && EndOfHeaderBlock(rest, AtEnd, cfg.maxBufferSize).Ok?
    requires EndOfHeaderBlock(rest, AtEnd, cfg.maxBufferSize).value <= k <= |rest|
    ensures BlockAt(cfg, rest[..k], AtEnd) == BlockAt(cfg, rest, AtEnd)
    ensures BlockAt(cfg, rest, AtEnd).Ok? ==> BlockAt(cfg, rest, AtEnd).value.Inside(k)
  {
    hide Find, ParseHeaderBlock;
    var end, front := EndOfHeaderBlock(rest, AtEnd, cfg.maxBufferSize).value, rest[..k];
    assert front[..end] == rest[..end];
    assert k >= 2 ==> front[..2] == rest[..2];
    if !StartsWith(rest, CRLF) {
      FindInFront(rest, CRLF + CRLF, k);
    }
    ParsedBlockInside(cfg.lib, rest[..end]);
  }

  /** Some front part leads to the exposed line, and reaches at least as far as the buffer must. */
  lemma {:induction false} FrontLeads(cfg: Config, rest: seq<Byte>, held: nat) returns (k: nat)
    requires cfg.lib.Bounded() && Sensitive(cfg, rest, AtEnd, held)
    ensures held <= k && 0 < k < |rest| && Leads(cfg, rest[..k], rest[k..])
    decreases |rest|, 2
  {
    hide BoundaryLine, PadLen, SensitivePart, LeadsPart, Unpadded;
    if Exposed(rest, AtEnd) && held <= PadLen(rest) {
      k := PadLen(rest);
      assert rest[..k] + rest[k..] == rest;
    } else {
      var s := BoundaryLine(false, rest, AtEnd).rest;
      var c := |rest| - |s|;
      var k1 := FrontLeadsPart(cfg, s, Less(held, c));
      k := c + k1;
      LineInFront(rest, k);
      assert rest[c..k] == s[..k1] && rest[k..] == s[k1..];
    }
  }

  lemma {:induction false} FrontLeadsPart(cfg: Config, rest: seq<Byte>, held: nat) returns (k: nat)
    requires cfg.lib.Bounded() && SensitivePart(cfg, rest, AtEnd, held)
    ensures held <= k < |rest| && LeadsPart(cfg, rest[..k], rest[k..])
    decreases |rest|, 1
  {
    hide Find, BlockAt, EndOfHeaderBlock, FieldsOf, HeaderLib.ReadsNames, Sensitive, Leads;
    var end := EndOfHeaderBlock(rest, AtEnd, cfg.maxBufferSize).value;
    var block := BlockAt(cfg, rest, AtEnd).value;
    var start := block.dataStart;
    var data := rest[start..];
    var n := Find(data, cfg.Delim()).value + |cfg.Delim()|;
    var k1 := FrontLeads(cfg, data[n..], Less(Less(Most(held, end), start), n));
    k := start + n + k1;
    BlockInFront(cfg, rest, k);
    PartInFront(cfg, rest, block, k);
    assert rest[..k][start..][n..] == data[n..][..k1] && rest[k..] == data[n..][k1..];
  }

  /** The fields and the delimiter of a part that is in front. */
  lemma PartInFront(cfg: Config, rest: seq<Byte>, block: HeaderBlock, k: nat)
    requires block.Inside(|rest|) && k <= |rest| && block.Inside(k)
    requires Find(rest[block.dataStart..], cfg.Delim()).Some?
    requires block.dataStart + Find(rest[block.dataStart..], cfg.Delim()).value + |cfg.Delim()| <= k
    ensures FieldsOf(rest[..k], block.spans) == FieldsOf(rest, block.spans)
    ensures Find(rest[..k][block.dataStart..], cfg.Delim()) == Find(rest[block.dataStart..], cfg.Delim())
  {
    hide Find, FieldsOf;
    var front, data := rest[..k], rest[block.dataStart..];
    assert front + rest[k..] == rest;
    SameFields(front, rest[k..], block.spans);
    assert front[block.dataStart..] == data[..k - block.dataStart];
    FindInFront(data, cfg.Delim(), k - block.dataStart);
  }

  // ----- What the parser does on such a front part

  /** The next answer is a suspension; then the rest comes in one piece. */
  predicate Paused(b: BufferState, tail: seq<Byte>) {
    b.source == Source([Suspend, Chunk(tail)], 0) && tail != [] && !b.eof && !b.active
  }

  lemma PausedRest(b: BufferState, tail: seq<Byte>)
    requires Paused(b, tail)
    ensures b.Rest() == b.buf + tail && b.source.Ending() == AtEnd
    ensures b.source.Tail() == Source([Chunk(tail)], 0) && b.source.Tail().Smooth()
  {
    var s1, s2 := Source([Chunk(tail)], 0), Source([], 0);
    assert b.source.Tail() == s1 && s1.Tail() == s2;
    assert s1.Bytes() == tail + [] == tail;
    assert b.source.Bytes() == [] + tail == tail;
    assert s1.Ending() == s2.Ending() == AtEnd;
  }

  /** A line that is in the buffer is read without the stream. */
  lemma LineBuffered(b: BufferState)
    requires BoundaryLine(false, b.buf, AtEnd).ToHeaders?
    ensures var s := BoundaryLine(false, b.buf, AtEnd).rest;
            BoundaryStep(b) == (Ready(Ok(false)), b.Split(|b.buf| - |s|))
  {
    hide PadLen;
    LineShape(b.buf);
    var n := PadLen(b.buf);
    var b1 := b.Split(n);
    assert b1.buf[..2] == CRLF by { assert b1.buf[0] == b.buf[n] && b1.buf[1] == b.buf[n + 1]; }
    assert EnsureLen(b, 1, IncompleteStream) == (Ready(Ok(())), b);
    assert EnsureLen(b1, 1, IncompleteStream) == EnsureLen(b1, 2, IncompleteStream) == (Ready(Ok(())), b1);
    assert ConsumeCrlf(b1, IncompleteStream) == (Ready(Ok(())), b1.Split(2));
    assert b1.Split(2) == b.Split(n + 2);
    if n == 0 {
      assert b1 == b;
    } else {
      assert IsPad(b.buf[0]);
      assert ConsumePaddingAndCrlf(b1, IncompleteStream) == ConsumeCrlf(b1, IncompleteStream);
      assert ConsumePaddingAndCrlf(b, IncompleteStream) == ConsumePaddingAndCrlf(b1, IncompleteStream);
    }
  }

  lemma NextPartBuffered(p: Parser)
    requires Inv(p) && p.state == ReadingBoundary && BoundaryLine(false, p.buffer.buf, AtEnd).ToHeaders?
    ensures var s := BoundaryLine(false, p.buffer.buf, AtEnd).rest;
            AwaitPart(p) == (Ok(true), p.(buffer := p.buffer.Split(|p.buffer.buf| - |s|),
                                          state := ReadingPartHeaders, partHandedOut := true))
  {
    hide BoundaryLine, BoundaryStep, Source.Bytes, Source.Ending, Source.Smooth, Ahead, BlockAt;
    LineBuffered(p.buffer);
    var s := BoundaryLine(false, p.buffer.buf, AtEnd).rest;
    var p1 := p.(buffer := p.buffer.Split(|p.buffer.buf| - |s|), state := ReadingPartHeaders);
    assert p.AdvanceAfterBoundary() == (Ready(Ok(())), p1);
    assert p.Step() == (Ready(Ok(())), p1);
    assert p1.NextPart() == (Ready(Ok(true)), p1.(partHandedOut := true));
    assert p.NextPart() == p1.NextPart();
    NextPartWalks(p);
  }

  /** A header block that is in the buffer is read without the stream. */
  lemma BlockBuffered(p: Parser)
    requires Inv(p) && AtPart(p) && !p.buffer.active && BlockAt(p.cfg, p.buffer.buf, AtEnd).Ok?
    requires |p.buffer.buf| >= 2
    ensures var (r, p1) := p.EnsureHeaders();
            && r.Done() && p1.headers == Some(BlockAt(p.cfg, p.buffer.buf, AtEnd).value)
            && p1 == p.(headers := p1.headers, buffer := p1.buffer)
            && p1.buffer == p.buffer.(cursor := p1.buffer.cursor)
  {
    hide Find, ParseHeaderBlock;
    var b := p.buffer;
    assert b.buf[0..] == b.buf;
    var b0 := b.(cursor := 0, active := true);
    SearchOnUnfolds(b0, CRLF + CRLF, p.cfg.maxBufferSize);
  }

  /** A part that is in the buffer is read without the stream. */
  lemma PartBuffered(p: Parser, tail: seq<Byte>)
    requires Inv(p) && AtPart(p) && Paused(p.buffer, tail) && LeadsPart(p.cfg, p.buffer.buf, tail)
    ensures var block := BlockAt(p.cfg, p.buffer.buf, AtEnd).value;
            var data := p.buffer.buf[block.dataStart..];
            var n := Find(data, p.cfg.Delim()).value + |p.cfg.Delim()|;
            var (r, p3) := ReadPart(p);
            && r.Ok? && p3.cfg == p.cfg && p3.state == ReadingBoundary
            && Paused(p3.buffer, tail) && p3.buffer.buf == data[n..]
  {
    hide Find, BlockAt, FieldsOf, HeaderLib.ReadsNames, Leads, Source.Bytes, Source.Ending, Source.Smooth, Ahead;
    hide ReadFields, Parser.EnsureHeaders, ReadData, Parser.FinishHeaders;
    TwoBytes(p.cfg, p.buffer.buf);
    BlockBuffered(p);
    EnsureHeadersStepped(p);
    AwaitHeadersReads(p);
    var (r, p1) := p.EnsureHeaders();
    assert AwaitHeaders(p) == (r.result, p1);
    HeldFields(p, p1);
    var p2 := ReadFields(p1).1;
    DataBuffered(p1, p2);
  }

  /** A header block has at least its blank line. */
  lemma TwoBytes(cfg: Config, front: seq<Byte>)
    requires BlockAt(cfg, front, AtEnd).Ok?
    ensures |front| >= 2
  {
    hide ParseHeaderBlock, FindFrom;
  }

  lemma DataBuffered(p1: Parser, p2: Parser)
    requires Inv(p1) && p1.headers.Some? && p2 == p1.FinishHeaders() && Inv(p2) && p2.state == ReadingPartData
    requires Find(p1.buffer.buf[p1.headers.value.dataStart..], p1.cfg.Delim()).Some?
    ensures var data := p1.buffer.buf[p1.headers.value.dataStart..];
            var at := Find(data, p1.cfg.Delim()).value;
            var after := p2.buffer.Split(at + |p1.cfg.Delim()|);
            ReadData(p2) == (Ok(data[..at]), p2.(state := ReadingBoundary, buffer := after))
    ensures p2.buffer == p1.buffer.Split(p1.headers.value.dataStart)
  {
    hide Find, Source.Bytes, Source.Ending, Source.Smooth, Ahead, BlockAt, NextData, Source.Poll;
    var b := p2.buffer;
    var at := Find(b.buf, p2.cfg.Delim()).value;
    assert b.buf != [];
    NextDataUnfolds(b, p2.cfg.Delim(), IncompleteStream);
    var p3 := p2.(state := ReadingBoundary, buffer := b.Split(at + |p2.cfg.Delim()|));
    NextDataChunkStepped(p2);
    assert ReadData(p3) == (Ok([]), p3);
    assert b.buf[..at] + [] == b.buf[..at];
  }

  /** Suspended behind the padding, the parser comes to the lenient reading. */
  lemma {:induction false} PausedReadsLeniently(p: Parser, tail: seq<Byte>)
    requires Inv(p) && p.state == ReadingBoundary && Paused(p.buffer, tail) && Leads(p.cfg, p.buffer.buf, tail)
    ensures ReadAll(p) == Ahead(p, true)
    decreases |p.buffer.buf|
  {
    hide Source.Bytes, Source.Ending, Source.Smooth, Ahead, BoundaryLine, PadLen, LeadsPart, Inv, AwaitPart, ReadPart;
    hide Unpadded, Parser.NextPart, FromHeaders;
    var front := p.buffer.buf;
    PausedRest(p.buffer, tail);
    if 0 < |front| == PadLen(front + tail) && Exposed(front + tail, AtEnd) {
      PausedAtPadding(p, tail);
    } else {
      var s := BoundaryLine(false, front, AtEnd).rest;
      NextPartBuffered(p);
      AwaitPartAwaits(p);
      var p1 := AwaitPart(p).1;
      assert p1.buffer.buf == s by { LineInFront(front, |front|); }
      PartBuffered(p1, tail);
      PartLeadsOn(p1, tail);
      ReadPartReads(p1, true);
      ReadPartReads(p1, false);
      PausedReadsLeniently(ReadPart(p1).1, tail);
    }
  }

  lemma PartLeadsOn(p: Parser, tail: seq<Byte>)
    requires LeadsPart(p.cfg, p.buffer.buf, tail)
    ensures var block := BlockAt(p.cfg, p.buffer.buf, AtEnd).value;
            var data := p.buffer.buf[block.dataStart..];
            var n := Find(data, p.cfg.Delim()).value + |p.cfg.Delim()|;
            Leads(p.cfg, data[n..], tail) && |data[n..]| < |p.buffer.buf|
  {
    hide Find, BlockAt, Leads;
  }

  lemma PausedAtPadding(p: Parser, tail: seq<Byte>)
    requires Inv(p) && p.state == ReadingBoundary && Paused(p.buffer, tail)
    requires 0 < |p.buffer.buf| == PadLen(p.buffer.buf + tail) && Exposed(p.buffer.buf + tail, AtEnd)
    ensures ReadAll(p) == Ahead(p, true)
  {
    hide Source.Bytes, Source.Ending, Source.Smooth, Ahead, PadLen, Parser.NextPart, Unpadded, FromHeaders, ReadPart;
    PausedRest(p.buffer, tail);
    SuspensionBehindPadding(p);
    NextPartWalks(p);
    var p1 := p.NextPart().1;
    assert AwaitPart(p) == AwaitPart(p1);
    assert ReadAll(p) == ReadAll(p1);
    ReadAllReads(p1);
  }

  // ----- The whole body

  /** The body in two pieces with a suspension in between. */
  function PausedAt(body: seq<Byte>, k: nat): seq<Event>
    requires k <= |body|
  {
    [Chunk(body[..k]), Suspend, Chunk(body[k..])]
  }

  lemma PausedAtDelivers(body: seq<Byte>, k: nat)
    requires 0 < k < |body|
    ensures Tolerable(PausedAt(body, k), 0) && AllBytes(PausedAt(body, k)) == body
  {
    var events := PausedAt(body, k);
    assert events[1..] == [Suspend, Chunk(body[k..])];
    assert events[1..][1..] == [Chunk(body[k..])] && [Chunk(body[k..])][1..] == [];
    assert AllBytes(events[1..]) == [] + AllBytes([Chunk(body[k..])]);
    assert AllBytes([Chunk(body[k..])]) == body[k..] + [];
    assert body[..k] + body[k..] == body;
    assert Tolerable([Chunk(body[k..])], 0);
    assert Tolerable(events[1..], 0);
  }

  lemma PausedStart(cfg: Config, body: seq<Byte>, k: nat)
    requires cfg.lib.Bounded() && k < |body| && Find(body, cfg.First()).Some?
    requires Find(body, cfg.First()).value + |cfg.First()| < k
    ensures var n := Find(body, cfg.First()).value + |cfg.First()|;
            var p := Start(cfg, PausedAt(body, k));
            var (r, p1) := p.AdvanceFirstBoundary();
            && p.WellFormed() && r.Done() && p1.state == ReadingBoundary && p1.cfg == cfg
            && Paused(p1.buffer, body[k..]) && p1.buffer.buf == body[n..k]
  {
    hide Find, Source.Bytes, Source.Ending, Source.Smooth, HeaderLib.Bounded;
    var p := Start(cfg, PausedAt(body, k));
    var front, s1 := body[..k], Source([Suspend, Chunk(body[k..])], 0);
    assert p.buffer.source.Tail() == s1;
    assert p.buffer.source.Poll(EMPTY_CHUNKS_PER_POLL) == (Next(front), s1);
    FindInEmpty(cfg.First());
    assert [] + front == front;
    FindInFront(body, cfg.First(), k);
    var n := Find(body, cfg.First()).value + |cfg.First()|;
    assert front[n..] == body[n..k];
  }

  /** Paused behind the padding of an exposed line, a body parses to its lenient reading. */
  lemma PausedParse(cfg: Config, body: seq<Byte>) returns (k: nat)
    requires cfg.lib.Bounded() && SensitiveBody(cfg, body, AtEnd)
    ensures 0 < k < |body| && Parse(cfg, PausedAt(body, k)) == OneShot(cfg, true, body, AtEnd)
  {
    hide Find, Sensitive, Leads, Parse, OneShot;
    var n := Find(body, cfg.First()).value + |cfg.First()|;
    var rest := body[n..];
    var k1 := FrontLeads(cfg, rest, 0);
    k := n + k1;
    assert body[n..k] == rest[..k1] && body[k..] == rest[k1..];
    PausedRun(cfg, body, k);
  }

  lemma PausedRun(cfg: Config, body: seq<Byte>, k: nat)
    requires cfg.lib.Bounded() && k < |body| && Find(body, cfg.First()).Some?
    requires Find(body, cfg.First()).value + |cfg.First()| < k
    requires Leads(cfg, body[Find(body, cfg.First()).value + |cfg.First()|..k], body[k..])
    ensures Parse(cfg, PausedAt(body, k)) == OneShot(cfg, true, body, AtEnd)
  {
    hide Find, Source.Bytes, Source.Ending, Source.Smooth, Leads, OneShot, Ahead, ReadAll, Parser.AdvanceFirstBoundary;
    hide Paused;
    var events := PausedAt(body, k);
    var p := Start(cfg, events);
    StartInv(cfg, events);
    PausedStart(cfg, body, k);
    FirstBoundaryStepped(p);
    var p1 := p.AdvanceFirstBoundary().1;
    PausedReadsLeniently(p1, body[k..]);
    SameRun(p, p1);
    PausedAtDelivers(body, k);
    TolerableDelivers(events, 0);
  }

  lemma SameRun(p: Parser, p1: Parser)
    requires Inv(p) && p.state == FindingFirstBoundary && Inv(p1)
    requires p.AdvanceFirstBoundary().0.Done() && p.AdvanceFirstBoundary().1 == p1
    ensures ReadAll(p) == ReadAll(p1)
  {
    hide Source.Bytes, Source.Ending, Source.Smooth, Parser.AdvanceFirstBoundary, ReadPart, Ahead;
    hide Parser.AdvanceAfterBoundary;
    assert p.NextPart() == p1.NextPart();
    NextPartWalks(p);
    NextPartWalks(p1);
    assert AwaitPart(p) == AwaitPart(p1);
  }

  /**
   * Suspension independence has an exact condition: every delivery of a body, with suspensions and
   * tolerated empty chunks anywhere, gives the strict one-shot parse if and only if the body has no
   * exposed line within reach.
   */
  lemma SuspensionIndependence(cfg: Config, body: seq<Byte>)
    requires cfg.lib.Bounded()
    ensures (forall events :: Tolerable(events, 0) && AllBytes(events) == body ==>
                                Parse(cfg, events) == OneShot(cfg, false, body, AtEnd)) <==>
            !SensitiveBody(cfg, body, AtEnd)
  {
    hide Parse, OneShot, Tolerable, AllBytes, Sensitive;
    if SensitiveBody(cfg, body, AtEnd) {
      var k := PausedParse(cfg, body);
      PausedAtDelivers(body, k);
      SensitiveIsRejected(cfg, body, AtEnd);
    } else {
      forall events | Tolerable(events, 0) && AllBytes(events) == body
        ensures Parse(cfg, events) == OneShot(cfg, false, body, AtEnd)
      {
        DeliveryDoesNotMatter(cfg, events, body);
      }
    }
  }
}
