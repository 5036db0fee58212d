/** Deliveries of the same bytes: which of them cannot matter, and the one shape that can. */
module Deliveries {
  import opened Bytes
  import opened Errors
  import opened Stream
  import opened Delimiter
  import opened Headers
  import opened Grammar
  import opened Lines
  import opened Machine
  import opened Refinement
  import opened Walks
  import opened Padding
  import opened Suspensions

  /** The bytes of all chunks. */
  function AllBytes(events: seq<Event>): seq<Byte> {
    if events == [] then []
    else (if events[0].Chunk? then events[0].bytes else []) + AllBytes(events[1..])
  }

  /** No failure, and no more than the tolerated number of empty chunks without a byte in between. */
  predicate Tolerable(events: seq<Event>, run: nat) {
    events == [] ||
    match events[0]
    case Fail(_) => false
    case Suspend => Tolerable(events[1..], run)
    case Chunk(b) =>
      if b != [] then Tolerable(events[1..], 0)
      else run < 1024 && Tolerable(events[1..], run + 1)
  }

  lemma {:induction false} TolerableDelivers(events: seq<Event>, run: nat)
    requires Tolerable(events, run)
    ensures Source(events, run).Bytes() == AllBytes(events)
    ensures Source(events, run).Ending() == AtEnd
  {
    if events != [] {
      var s := Source(events, run);
      TolerableDelivers(events[1..], s.Tail().empties);
      assert s.Tail().events == events[1..];
      assert events[0].Suspend? ==> s.First().bytes == [];
    }
  }

  /**
   * Suspensions anywhere and tolerated runs of empty chunks anywhere leave the parse of a body without
   * an exposed line within reach unchanged.
   */
  lemma DeliveryDoesNotMatter(cfg: Config, events: seq<Event>, body: seq<Byte>)
    requires cfg.lib.Bounded()
    requires Tolerable(events, 0) && AllBytes(events) == body
    requires !SensitiveBody(cfg, body, AtEnd)
    ensures Parse(cfg, events) == OneShot(cfg, false, body, AtEnd)
  {
    hide OneShot, Parse, Source.Bytes, Source.Ending, SensitiveBody;
    TolerableDelivers(events, 0);
    InsensitiveParse(cfg, events);
  }

  /** One empty chunk more than tolerated is a stream failure, wherever the run stands. */
  lemma {:induction false} StalledStream(run: nat, n: nat, rest: seq<Event>)
    requires run + n > 1024 >= run
    ensures var s := Source(seq(n, _ => Chunk([])) + rest, run); s.Bytes() == [] && s.Ending() == Broken(STALLED)
    decreases n
  {
    var events := seq(n, _ => Chunk([])) + rest;
    var s := Source(events, run);
    assert events[0] == Chunk([]);
    if run < MAX_CONSECUTIVE_EMPTY_CHUNKS {
      assert events[1..] == seq(n - 1, _ => Chunk([])) + rest;
      assert s.Tail() == Source(seq(n - 1, _ => Chunk([])) + rest, run + 1);
      StalledStream(run + 1, n - 1, rest);
      assert s.First().bytes == [];
    }
  }

  // ----- Padding before the closing dashes

  /** When the stream suspends right behind the padding of a line, the lenient reading comes true. */
  lemma SuspensionBehindPadding(p: Parser)
    requires Inv(p) && p.state == ReadingBoundary && p.buffer.buf != []
    requires PadLen(p.buffer.Rest()) == |p.buffer.buf| && PaddedDashes(p.buffer.Rest())
    requires p.buffer.source.events != [] && p.buffer.source.events[0].Suspend?
    ensures var (r, p1) := p.NextPart();
            r.Pending? && Ahead(p1, false) == Ahead(p, true) && p1.buffer.source == p.buffer.source.Tail()
  {
    hide Source.Bytes, Source.Ending, Source.Smooth, PadLen, FromBoundary, FromHeaders;
    var rest := p.buffer.Rest();
    var n := |p.buffer.buf|;
    assert rest[0] == p.buffer.buf[0] && IsPad(rest[0]);
    AllPads(p.buffer.buf, p.buffer.source.Bytes());
    var b := p.buffer.Split(n);
    assert b.buf == [];
    var s := p.buffer.source.Tail();
    assert p.buffer.source.Poll(EMPTY_CHUNKS_PER_POLL) == (Waiting, s);
    assert EnsureLen(b, 1, IncompleteStream) == (Pending, b.(source := s));
    var p1 := p.(buffer := b.(source := s));
    assert ConsumePaddingAndCrlf(p.buffer, IncompleteStream) == (Pending, p1.buffer);
    assert p.AdvanceAfterBoundary() == (Pending, p1);
    PollDelivers(p.buffer.source, EMPTY_CHUNKS_PER_POLL);
    assert p1.buffer.Rest() == rest[n..];
    PaddedReadings(p.cfg, rest, p.buffer.source.Ending());
  }

  lemma AllPads(front: seq<Byte>, back: seq<Byte>)
    requires PadLen(front + back) == |front|
    ensures PadLen(front) == |front|
  {
    if front != [] {
      assert (front + back)[1..] == front[1..] + back;
      AllPads(front[1..], back);
    }
  }

  const CLOSING: seq<Byte> := [DASH, DASH, CR, LF]

  /** `--boundary --CRLF`: the padding spoils the closing delimiter. */
  function PaddedClosing(cfg: Config): seq<Byte> {
    cfg.First() + [SP] + CLOSING
  }

  lemma PaddedClosingIsMalformed(cfg: Config)
    ensures OneShot(cfg, false, PaddedClosing(cfg), AtEnd) == Outcome([], Failed(InvalidFormat))
    ensures OneShot(cfg, true, PaddedClosing(cfg), AtEnd) == Outcome([], Finished)
  {
    hide Find, PadLen;
    var body, rest := PaddedClosing(cfg), [SP] + CLOSING;
    assert body == cfg.First() + rest;
    assert OccursAt(body, cfg.First(), 0);
    FindIs(body, cfg.First(), 0);
    assert body[|cfg.First()|..] == rest;
    OnePad();
    BoundaryTaken(cfg, false, rest, AtEnd);
    BoundaryTaken(cfg, true, rest, AtEnd);
    assert CLOSING[2..] == CRLF && CRLF[0..] == CRLF;
  }

  lemma OnePad()
    ensures PadLen([SP] + CLOSING) == 1 && ([SP] + CLOSING)[1..] == CLOSING && PadLen(CRLF) == 0
    ensures PadLen([SP]) == 1
  {
    assert ([SP] + CLOSING)[1..] == CLOSING;
    assert PadLen(CLOSING) == 0;
    assert [SP][1..] == [];
  }

  /** The same bytes, suspended right after the padding. */
  function SuspendedAtPadding(cfg: Config): seq<Event> {
    [Chunk(cfg.First() + [SP]), Suspend, Chunk(CLOSING)]
  }

  /** The parser when the suspension reaches its client: the padding is gone. */
  function AtSuspension(cfg: Config): Parser {
    Parser(cfg, ReadingBoundary, None, false,
           BufferState([], Source([Chunk(CLOSING)], 0), false, |cfg.First()| + 1, 0, false))
  }

  lemma SuspensionForgetsPadding(cfg: Config)
    requires cfg.lib.Bounded()
    ensures var p := Start(cfg, SuspendedAtPadding(cfg));
            p.WellFormed() && p.NextPart() == (Pending, AtSuspension(cfg))
  {
    hide Find, PadLen, Source.Bytes, Source.Ending, Source.Smooth, HeaderLib.Bounded;
    var p := Start(cfg, SuspendedAtPadding(cfg));
    var front := cfg.First() + [SP];
    var s1 := Source([Suspend, Chunk(CLOSING)], 0);
    var b1 := BufferState([SP], s1, false, |front|, 0, false);
    assert p.buffer.source.Tail() == s1;
    assert p.buffer.source.Poll(EMPTY_CHUNKS_PER_POLL) == (Next(front), s1);
    FindInEmpty(cfg.First());
    assert [] + front == front;
    assert OccursAt(front, cfg.First(), 0);
    FindIs(front, cfg.First(), 0);
    assert front[|cfg.First()|..] == [SP];
    var p1 := p.(buffer := b1, state := ReadingBoundary);
    assert p.AdvanceFirstBoundary() == (Ready(Ok(())), p1);
    OnePad();
    var b2 := b1.Split(1);
    assert b2.buf == [];
    var s2 := Source([Chunk(CLOSING)], 0);
    assert s1.Tail() == s2;
    assert s1.Poll(EMPTY_CHUNKS_PER_POLL) == (Waiting, s2);
    assert EnsureLen(b2, 1, IncompleteStream) == (Pending, b2.(source := s2));
    assert ConsumePaddingAndCrlf(b1, IncompleteStream) == ConsumePaddingAndCrlf(b2, IncompleteStream);
    assert p1.AdvanceAfterBoundary() == (Pending, AtSuspension(cfg));
    assert p1.NextPart() == (Pending, AtSuspension(cfg));
  }

  lemma FindInEmpty(needle: seq<Byte>)
    requires needle != []
    ensures Find([], needle) == None
  {
  }

  /**
   * Suspension can matter: for every boundary there is a malformed body that is rejected when it
   * arrives in one piece and accepted when the stream suspends behind the padding.
   */
  lemma SuspensionCanMatter(cfg: Config)
    requires cfg.lib.Bounded()
    ensures AllBytes([Chunk(PaddedClosing(cfg))]) == AllBytes(SuspendedAtPadding(cfg)) == PaddedClosing(cfg)
    ensures Parse(cfg, [Chunk(PaddedClosing(cfg))]) == Outcome([], Failed(InvalidFormat))
    ensures Parse(cfg, SuspendedAtPadding(cfg)) == Outcome([], Finished)
  {
    SameBytes(cfg);
    InOnePiece(cfg);
    Suspended(cfg);
  }

  lemma SameBytes(cfg: Config)
    ensures AllBytes([Chunk(PaddedClosing(cfg))]) == AllBytes(SuspendedAtPadding(cfg)) == PaddedClosing(cfg)
  {
    var body, events := PaddedClosing(cfg), SuspendedAtPadding(cfg);
    assert [Chunk(body)][1..] == [];
    assert events[1..] == [Suspend, Chunk(CLOSING)];
    assert events[1..][1..] == [Chunk(CLOSING)];
    assert [Chunk(CLOSING)][1..] == [];
    assert AllBytes(events[1..]) == [] + AllBytes([Chunk(CLOSING)]);
    assert AllBytes([Chunk(CLOSING)]) == CLOSING + [];
  }

  lemma InOnePiece(cfg: Config)
    requires cfg.lib.Bounded()
    ensures Parse(cfg, [Chunk(PaddedClosing(cfg))]) == Outcome([], Failed(InvalidFormat))
  {
    hide OneShot, Parse;
    var events := [Chunk(PaddedClosing(cfg))];
    SameBytes(cfg);
    TolerableDelivers(events, 0);
    ChunkIndependence(cfg, events);
    PaddedClosingIsMalformed(cfg);
  }

  lemma Suspended(cfg: Config)
    requires cfg.lib.Bounded()
    ensures Parse(cfg, SuspendedAtPadding(cfg)) == Outcome([], Finished)
  {
    hide Source.Bytes, Source.Ending, Source.Smooth, FromBoundary, Parser.NextPart;
    var p, p1 := Start(cfg, SuspendedAtPadding(cfg)), AtSuspension(cfg);
    StartInv(cfg, SuspendedAtPadding(cfg));
    NextPartWalks(p);
    SuspensionForgetsPadding(cfg);
    assert AwaitPart(p) == AwaitPart(p1);
    assert ReadAll(p) == ReadAll(p1);
    ReadAllReads(p1);
    ClosingAhead(cfg);
  }

  lemma ClosingAhead(cfg: Config)
    ensures Ahead(AtSuspension(cfg), false) == Outcome([], Finished)
    ensures AtSuspension(cfg).buffer.source.Smooth()
  {
    hide PadLen, FromBoundary, BoundaryLine, Closing;
    var s := Source([Chunk(CLOSING)], 0);
    assert s.Tail() == Source([], 0);
    assert s.Bytes() == CLOSING + [] == CLOSING && s.Ending() == AtEnd;
    assert AtSuspension(cfg).buffer.Rest() == CLOSING;
    BoundaryTaken(cfg, false, CLOSING, AtEnd);
    ClosingRead();
  }

  lemma ClosingRead()
    ensures BoundaryLine(false, CLOSING, AtEnd) == ToClosing(CRLF) && Closing(CRLF, AtEnd) == Finished
  {
    hide PadLen;
    OnePad();
    assert CLOSING[2..] == CRLF && CRLF[0..] == CRLF && CRLF[2..] == [];
    assert LineEnd(CRLF, AtEnd, IncompleteStream) == Ok([]);
  }
}
