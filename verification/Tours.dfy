/** Clients that leave parts half read: every part of a well-formed body is handed out once, in order. */
module Tours {
  import opened Bytes
  import opened Errors
  import opened Stream
  import opened Headers
  import opened Grammar
  import opened Lines
  import opened Machine
  import opened Refinement
  import opened Walks

  /** What a client may do with a part it was handed: one poll for a header, or one for data. */
  datatype ClientOp = PollHeader | PollData

  ghost predicate InPart(p: Parser) {
    Inv(p) && (p.state == ReadingPartHeaders ==> p.partHandedOut)
  }

  /** `Part::poll_next_header` and `Part::poll_next_data`, without their answers. */
  function Use(p: Parser, op: ClientOp): (r: (Poll<()>, Parser))
    requires p.WellFormed() && (p.state == ReadingPartHeaders ==> p.partHandedOut)
  {
    var (h, p1) := p.EnsureHeaders();
    if !h.Done() then (h, p1)
    else match op
      case PollHeader => (Ready(Ok(())), p1.NextHeaderInner().1)
      case PollData =>
        var (d, p2) := p1.FinishHeaders().NextDataChunk();
        (Relabel2(d), p2)
  }

  lemma NextHeaderGoes(p: Parser)
    requires InPart(p)
    ensures var p1 := p.NextHeaderInner().1; InPart(p1) && Goes(p, p1) && Same(p, p1)
  {
    hide Source.Bytes, Source.Ending, Source.Smooth, BlockAt, BeyondHeaders;
    if p.headers.Some? && p.headers.value.next >= |p.headers.value.spans| {
      FinishHeadersGoes(p);
    } else {
      assert Advances(p.buffer, p.buffer, 0);
    }
  }

  /** Reading from a part does not change what is ahead of it; it can only fail as that says. */
  lemma UseKeeps(p: Parser, op: ClientOp)
    requires InPart(p)
    ensures var (r, p1) := Use(p, op);
            if r.Failed() then Ahead(p, false) == Outcome([], Failed(r.result.error))
            else InPart(p1) && Goes(p, p1) && Same(p, p1)
  {
    hide Source.Bytes, Source.Ending, Source.Smooth, Ahead, Advances;
    hide Parser.EnsureHeaders, Parser.NextHeaderInner, Parser.FinishHeaders, Parser.NextDataChunk;
    EnsureHeadersStepped(p);
    var (h, p1) := p.EnsureHeaders();
    if h.Done() {
      match op
      case PollHeader =>
        NextHeaderGoes(p1);
        GoesTwice(p, p1, p1.NextHeaderInner().1);
      case PollData =>
        FinishHeadersGoes(p1);
        var p2 := p1.FinishHeaders();
        GoesTwice(p, p1, p2);
        NextDataChunkStepped(p2);
        var (d, p3) := p2.NextDataChunk();
        if !d.Failed() { GoesTwice(p, p2, p3); }
    }
  }

  /** A client that makes the given polls on its part, as long as they do not fail. */
  ghost function UseAll(p: Parser, ops: seq<ClientOp>): Parser
    requires InPart(p)
    decreases |ops|
  {
    if ops == [] then p
    else
      UseKeeps(p, ops[0]);
      var (r, p1) := Use(p, ops[0]);
      if r.Failed() then p else UseAll(p1, ops[1..])
  }

  lemma {:induction false} UseAllKeeps(p: Parser, ops: seq<ClientOp>)
    requires InPart(p)
    ensures var p1 := UseAll(p, ops); InPart(p1) && p1.cfg == p.cfg && Same(p, p1)
    decreases |ops|
  {
    hide Ahead, Use, MovesOn;
    if ops != [] {
      UseKeeps(p, ops[0]);
      var (r, p1) := Use(p, ops[0]);
      if !r.Failed() { UseAllKeeps(p1, ops[1..]); }
    }
  }

  /** What is ahead parses to the end. */
  predicate EndsWell(p: Parser) {
    Ahead(p, false).last == Finished
  }

  lemma NoLeniency(p: Parser)
    requires EndsWell(p)
    ensures Ahead(p, true) == Ahead(p, false)
  {
    hide Source.Bytes, Source.Ending, FromBoundary, FromHeaders, BlockAt;
    var (rest, ending) := (p.buffer.Rest(), p.buffer.source.Ending());
    match p.state
    case FindingFirstBoundary =>
      if AfterNeedle(rest, p.cfg.First()).Some? {
        StrictOrLenient(p.cfg, AfterNeedle(rest, p.cfg.First()).value, ending);
      }
    case ReadingBoundary => StrictOrLenient(p.cfg, rest, ending);
    case ReadingPartHeaders =>
      if p.partHandedOut {
        var block := BlockAt(p.cfg, rest, ending);
        if block.Ok? && block.value.Inside(|rest|) {
          DataStrictOrLenient(p.cfg, rest[block.value.dataStart..], ending);
        }
      } else {
        StrictOrLenientPart(p.cfg, rest, ending);
      }
    case ReadingPartData => DataStrictOrLenient(p.cfg, rest, ending);
    case _ =>
  }

  lemma DataStrictOrLenient(cfg: Config, rest: seq<Byte>, ending: Ending)
    requires BeyondData(cfg, false, rest, ending).last == Finished
    ensures BeyondData(cfg, true, rest, ending) == BeyondData(cfg, false, rest, ending)
  {
    hide FromBoundary, AfterNeedle;
    var after := AfterNeedle(rest, cfg.Delim());
    if after.Some? {
      StrictOrLenient(cfg, after.value, ending);
    }
  }

  /** The parts of a body from a header block on are that part and the parts beyond it. */
  lemma PartThenBeyond(cfg: Config, rest: seq<Byte>, ending: Ending)
    requires FromHeaders(cfg, false, rest, ending).last == Finished
    ensures var o := FromHeaders(cfg, false, rest, ending);
            o.parts != [] && BeyondHeaders(cfg, false, rest, ending) == Outcome(o.parts[1..], Finished)
  {
    hide FromBoundary, BlockAt, Find, FieldsOf;
    var block := BlockAt(cfg, rest, ending).value;
    PartUnfolds(cfg, false, rest, ending, block);
  }

  // ----- Clients that may not care for names

  /** The configuration of a client that takes any field name. */
  function Blind(cfg: Config): Config {
    cfg.(lib := cfg.lib.(utf8 := (name: seq<Byte>) => true))
  }

  function Blinded(p: Parser): Parser {
    p.(cfg := Blind(p.cfg))
  }

  /** No step of the parser depends on which names are readable; only the answer of a header read does. */
  lemma BlindBlock(cfg: Config, rest: seq<Byte>, ending: Ending)
    ensures forall block :: ParseHeaderBlock(Blind(cfg).lib, block) == ParseHeaderBlock(cfg.lib, block)
    ensures BlockAt(Blind(cfg), rest, ending) == BlockAt(cfg, rest, ending)
    ensures cfg.lib.Bounded() <==> Blind(cfg).lib.Bounded()
  {
    hide HeaderBlockFallback;
  }

  lemma BlindInv(p: Parser)
    ensures p.WellFormed() <==> Blinded(p).WellFormed()
    ensures Inv(p) <==> Inv(Blinded(p))
  {
    hide BlockAt, HeaderLib.Bounded, Source.Bytes, Source.Ending;
    BlindBlock(p.cfg, p.buffer.Rest(), p.buffer.source.Ending());
  }

  lemma BlindHeaders(p: Parser)
    requires p.WellFormed() && Blinded(p).WellFormed()
    ensures p.state == ReadingPartHeaders ==> p.partHandedOut ==>
              Blinded(p).EnsureHeaders() == (p.EnsureHeaders().0, Blinded(p.EnsureHeaders().1))
    ensures Blinded(p).FinishHeaders() == Blinded(p.FinishHeaders())
    ensures Blinded(p).NextHeaderInner().1 == Blinded(p.NextHeaderInner().1)
  {
    hide ParseHeaderBlock, BufferState.ReadHeaderBlock, HeaderLib.Bounded, BlockAt;
    BlindBlock(p.cfg, [], AtEnd);
  }

  lemma BlindData(p: Parser)
    requires p.WellFormed() && Blinded(p).WellFormed()
    ensures Blinded(p).NextDataChunk() == (p.NextDataChunk().0, Blinded(p.NextDataChunk().1))
  {
    hide NextData, HeaderLib.Bounded;
  }

  lemma {:induction false} BlindSkip(p: Parser)
    requires p.WellFormed() && Blinded(p).WellFormed() && p.state in {ReadingPartData, ReadingBoundary}
    ensures Blinded(p).SkipPartData() == (p.SkipPartData().0, Blinded(p.SkipPartData().1))
    decreases |p.buffer.source.events|, |p.buffer.buf|
  {
    hide Parser.NextDataChunk, HeaderLib.Bounded;
    BlindData(p);
    var (r, p1) := p.NextDataChunk();
    if r.Done() && r.result.value.Some? {
      BlindInv(p1);
      BlindSkip(p1);
    }
  }

  lemma BlindStep(p: Parser)
    requires p.WellFormed() && Blinded(p).WellFormed()
    requires p.state in {FindingFirstBoundary, ReadingBoundary, ReadingClosingDelimiter, ReadingEpilogue}
    ensures Blinded(p).Step() == (p.Step().0, Blinded(p.Step().1))
  {
    hide BufferState.ReadTo, BoundaryStep, ConsumePaddingAndCrlf, EpilogueStep, HeaderLib.Bounded;
  }

  lemma {:induction false} BlindNextPart(p: Parser)
    requires p.WellFormed() && Blinded(p).WellFormed()
    ensures Blinded(p).NextPart() == (p.NextPart().0, Blinded(p.NextPart().1))
    decreases |p.buffer.source.events|, |p.buffer.buf|, p.Rank()
  {
    hide Parser.EnsureHeaders, Parser.SkipPartData, Parser.Step, Parser.FinishHeaders, HeaderLib.Bounded;
    hide Parser.AdvanceAfterBoundary;
    match p.state
    case Done =>
    case StreamTaken =>
    case ReadingPartHeaders =>
      if p.partHandedOut {
        BlindHeaders(p);
        var (r, p1) := p.EnsureHeaders();
        if r.Done() {
          BlindInv(p1);
          BlindHeaders(p1);
          BlindInv(p1.FinishHeaders());
          BlindNextPart(p1.FinishHeaders());
        }
      }
    case ReadingPartData =>
      BlindSkip(p);
      var (r, p1) := p.SkipPartData();
      if r.Done() {
        BlindInv(p1);
        BlindBoundary(p1);
        var (r2, p2) := p1.AdvanceAfterBoundary();
        if r2.Done() {
          BlindInv(p2);
          BlindNextPart(p2);
        }
      }
    case _ =>
      BlindStep(p);
      var (r, p1) := p.Step();
      if r.Done() {
        BlindInv(p1);
        BlindNextPart(p1);
      }
  }

  lemma BlindBoundary(p: Parser)
    requires p.WellFormed() && Blinded(p).WellFormed() && p.state == ReadingBoundary
    ensures Blinded(p).AdvanceAfterBoundary() == (p.AdvanceAfterBoundary().0, Blinded(p.AdvanceAfterBoundary().1))
  {
    hide BoundaryStep, HeaderLib.Bounded;
  }

  lemma BlindUse(p: Parser, op: ClientOp)
    requires p.WellFormed() && Blinded(p).WellFormed() && (p.state == ReadingPartHeaders ==> p.partHandedOut)
    ensures Use(Blinded(p), op) == (Use(p, op).0, Blinded(Use(p, op).1))
  {
    hide Parser.NextDataChunk, Parser.FinishHeaders, Parser.NextHeaderInner, HeaderLib.Bounded, ParseHeaderBlock;
    hide BufferState.ReadHeaderBlock;
    BlindHeaders(p);
    var (h, p1) := p.EnsureHeaders();
    if h.Done() {
      BlindInv(p1);
      BlindHeaders(p1);
      BlindInv(p1.FinishHeaders());
      BlindData(p1.FinishHeaders());
    }
  }

  lemma {:induction false} BlindAwait(p: Parser)
    requires Inv(p) && Inv(Blinded(p))
    ensures AwaitPart(Blinded(p)) == (AwaitPart(p).0, Blinded(AwaitPart(p).1))
    decreases |p.buffer.source.events|
  {
    hide Parser.NextPart, Ahead, Source.Bytes, Source.Ending, Source.Smooth;
    NextPartWalks(p);
    NextPartWalks(Blinded(p));
    BlindNextPart(p);
    var (r, p1) := p.NextPart();
    if r.Pending? {
      BlindInv(p1);
      BlindAwait(p1);
    }
  }

  lemma {:induction false} BlindUseAll(p: Parser, ops: seq<ClientOp>)
    requires InPart(p) && InPart(Blinded(p))
    ensures UseAll(Blinded(p), ops) == Blinded(UseAll(p, ops))
    decreases |ops|
  {
    hide Use, Ahead, Source.Bytes, Source.Ending, Source.Smooth, MovesOn;
    if ops != [] {
      UseKeeps(p, ops[0]);
      UseKeeps(Blinded(p), ops[0]);
      BlindUse(p, ops[0]);
      var (r, p1) := Use(p, ops[0]);
      if !r.Failed() {
        BlindUseAll(p1, ops[1..]);
      }
    }
  }

  // ----- The tour

  /** What is ahead for a client that takes any name. */
  function Structure(p: Parser): Outcome {
    Ahead(Blinded(p), false)
  }

  /** Where the parser stands each time it hands out a part; `plan` says what the client does with each. */
  ghost function Tour(p: Parser, plan: nat -> seq<ClientOp>, i: nat): seq<seq<Byte>>
    requires InPart(p) && Structure(p).last == Finished
    decreases |Structure(p).parts|
  {
    TourStep(p, plan(i));
    var (r, p1) := AwaitPart(p);
    if r == Ok(true) then [p1.buffer.Rest()] + Tour(UseAll(p1, plan(i)), plan, i + 1) else []
  }

  lemma TourStep(p: Parser, ops: seq<ClientOp>)
    requires Inv(p) && Structure(p).last == Finished
    ensures var (r, p1) := AwaitPart(p);
            match r
            case Err(_) => false
            case Ok(false) => Structure(p).parts == []
            case Ok(true) =>
              && InPart(p1) && p1.cfg == p.cfg
              && FromHeaders(Blind(p.cfg), false, p1.buffer.Rest(), p1.buffer.source.Ending()) == Structure(p)
              && p1.buffer.source.Ending() == p.buffer.source.Ending()
              && Structure(p).parts != []
              && var q := UseAll(p1, ops);
                 InPart(q) && q.cfg == p.cfg && Structure(q) == Outcome(Structure(p).parts[1..], Finished)
  {
    hide Source.Bytes, Source.Ending, Source.Smooth, Inv, Advances, FromHeaders, AwaitPart, UseAll, Ahead, Blind;
    BlindInv(p);
    BlindAwait(p);
    ReadableTourStep(Blinded(p), ops);
    var (r, p1) := AwaitPart(p);
    AwaitPartAwaits(p);
    if r == Ok(true) {
      BlindInv(p1);
      BlindUseAll(p1, ops);
      UseAllKeeps(p1, ops);
    }
  }

  lemma ReadableTourStep(p: Parser, ops: seq<ClientOp>)
    requires Inv(p) && EndsWell(p)
    ensures var (r, p1) := AwaitPart(p);
            match r
            case Err(_) => false
            case Ok(false) => Ahead(p, false).parts == []
            case Ok(true) =>
              && InPart(p1) && p1.cfg == p.cfg
              && FromHeaders(p.cfg, false, p1.buffer.Rest(), p1.buffer.source.Ending()) == Ahead(p, false)
              && p1.buffer.source.Ending() == p.buffer.source.Ending()
              && Ahead(p, false).parts != []
              && var q := UseAll(p1, ops);
                 InPart(q) && q.cfg == p.cfg && Ahead(q, false) == Outcome(Ahead(p, false).parts[1..], Finished)
  {
    hide Source.Bytes, Source.Ending, Source.Smooth, Inv, Advances, FromHeaders, AwaitPart, UseAll, BeyondHeaders;
    hide FromBoundary, OneShot, BeyondData;
    AwaitPartAwaits(p);
    NoLeniency(p);
    var (r, p1) := AwaitPart(p);
    if r == Ok(true) {
      PartThenBeyond(p.cfg, p1.buffer.Rest(), p1.buffer.source.Ending());
      UseAllKeeps(p1, ops);
      MovedTo(p.buffer, p1.buffer);
    }
  }

  /**
   * Each part of a body that ends well is handed out exactly once and in order, whatever mix of headers
   * and data the client reads before it drops each part, and whether or not the names it skips are
   * readable; and the walk ends.
   */
  lemma {:induction false} EachPartOnce(p: Parser, plan: nat -> seq<ClientOp>, i: nat)
    requires InPart(p) && Structure(p).last == Finished
    ensures |Tour(p, plan, i)| == |Structure(p).parts|
    ensures forall j :: 0 <= j < |Tour(p, plan, i)| ==>
                          FromHeaders(Blind(p.cfg), false, Tour(p, plan, i)[j], p.buffer.source.Ending()).parts
                          == Structure(p).parts[j..]
    decreases |Structure(p).parts|
  {
    hide Structure, FromHeaders, AwaitPart, UseAll, Blind;
    TourStep(p, plan(i));
    var (r, p1) := AwaitPart(p);
    if r == Ok(true) {
      var q := UseAll(p1, plan(i));
      EndingKept(p1, plan(i));
      EachPartOnce(q, plan, i + 1);
      var rest := Tour(q, plan, i + 1);
      var parts := Structure(p).parts;
      forall j | 0 <= j < |Tour(p, plan, i)|
        ensures FromHeaders(Blind(p.cfg), false, Tour(p, plan, i)[j], p.buffer.source.Ending()).parts == parts[j..]
      {
        if j > 0 {
          assert Tour(p, plan, i)[j] == rest[j - 1];
          assert parts[1..][j - 1..] == parts[j..];
        } else {
          assert parts[0..] == parts;
        }
      }
    }
  }

  lemma {:induction false} EndingKept(p: Parser, ops: seq<ClientOp>)
    requires InPart(p)
    ensures UseAll(p, ops).buffer.source.Ending() == p.buffer.source.Ending()
    decreases |ops|
  {
    hide Ahead, Use, Source.Ending;
    if ops != [] {
      UseKeeps(p, ops[0]);
      var (r, p1) := Use(p, ops[0]);
      if !r.Failed() {
        MovedTo(p.buffer, p1.buffer);
        EndingKept(p1, ops[1..]);
      }
    }
  }
}
