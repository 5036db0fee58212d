/** The streams that take over the buffer in mid-parse: part data alone, and part data with a strict closing. */
module Taken {
  import opened Bytes
  import opened Errors
  import opened Stream
  import opened Delimiter
  import opened Grammar
  import opened Lines
  import opened Headers
  import opened Machine
  import opened Refinement
  import opened Walks
  import opened Padding
  import opened Suspensions
  import opened Tours
  import opened Accounts

  /** An answer of these streams: nothing yet, a chunk, an error, or the end. */
  datatype Item = NotReady | Piece(bytes: seq<Byte>) | Fault(error: Error) | Over

  /** The state of a `PartDataStream`. */
  datatype PartStream = PartStream(
    buffer: BufferState,
    delim: seq<Byte>,
    multipartConsumed: nat,
    done: bool,
    terminated: bool
  ) {
    predicate Valid() {
      delim != [] && Sane(buffer) && !(done && terminated)
    }

    function PollData(): (r: (Item, PartStream))
      requires delim != []
    {
      if done || terminated then (Over, this)
      else
        var (r, b) := NextData(buffer, delim, IncompleteStreamPart);
        match r
        case Pending => (NotReady, this.(buffer := b))
        case Ready(Err(e)) => (Fault(e), this.(buffer := b, terminated := true))
        case Ready(Ok(item)) =>
          (if item.data == [] then Over else Piece(item.data), this.(buffer := b, done := item.last))
    }

    function IntoFinal(): FinalStream {
      FinalStream(buffer, delim, if done then AfterBoundary else Data, multipartConsumed, terminated, false)
    }
  }

  datatype DataState = Data | AfterBoundary | FinalCRLF | Eof | Closed

  /** The state of a `FinalPartDataStream`. */
  datatype FinalStream = FinalStream(
    buffer: BufferState,
    delim: seq<Byte>,
    state: DataState,
    multipartConsumed: nat,
    aborted: bool,
    terminated: bool
  ) {
    /** One turn through the trailer: the `--`, then padding and CRLF, then the end of the stream. */
    function TrailerStep(): (r: (Poll<()>, FinalStream))
      requires state != Data && state != Closed
      ensures NotAhead(r.1.buffer, buffer)
      ensures r.0.Done() ==>
                r.1.state == if state == AfterBoundary then FinalCRLF else if state == FinalCRLF then Eof else Closed
      ensures r.1 == this.(buffer := r.1.buffer, state := r.1.state)
      ensures !r.0.Done() ==> r.1.state == state
    {
      match state
      case AfterBoundary =>
        var (r, b) := EnsureLen(buffer, 2, IncompleteStreamPart);
        if !r.Done() then (r, this.(buffer := b))
        else if !StartsWith(b.buf, [DASH, DASH]) then (Ready(Err(NotClosing(b.buf[0]))), this.(buffer := b))
        else (r, this.(buffer := b.Split(2), state := FinalCRLF))
      case FinalCRLF =>
        var (r, b) := ConsumePaddingAndCrlf(buffer, IncompleteStreamPart);
        (r, this.(buffer := b, state := if r.Done() then Eof else state))
      case Eof =>
        var (r, b) := EpilogueStep(buffer);
        (r, this.(buffer := b, state := if r.Done() then Closed else state))
    }

    function Rank(): nat {
      match state
      case Data => 4
      case AfterBoundary => 3
      case FinalCRLF => 2
      case Eof => 1
      case Closed => 0
    }

    function PollNext(): (r: (Item, FinalStream))
      requires delim != []
      ensures r.1.delim == delim
      decreases |buffer.source.events|, |buffer.buf|, Rank()
    {
      if terminated || state == Closed then (Over, this)
      else if state == Data then
        if aborted then (Fault(IncompleteStreamPart), this.(terminated := true))
        else
          var (r, b) := NextData(buffer, delim, IncompleteStreamPart);
          match r
          case Pending => (NotReady, this.(buffer := b))
          case Ready(Err(e)) => (Fault(e), this.(buffer := b, terminated := true))
          case Ready(Ok(item)) =>
            var f := this.(buffer := b, state := if item.last then AfterBoundary else Data);
            if item.data == [] then f.PollNext() else (Piece(item.data), f)
      else
        var (r, f) := TrailerStep();
        match r
        case Pending => (NotReady, f)
        case Ready(Err(e)) => (Fault(e), f.(terminated := true))
        case Ready(Ok(_)) => f.PollNext()
    }
  }

  /** Another part after the delimiter is told apart from garbage. */
  function NotClosing(first: Byte): Error {
    if first == CR || IsPad(first) then StreamPartNotLast else InvalidFormat
  }

  // ----- What the strict closing demands of the whole of the bytes

  function TrailerEnd(state: DataState, rest: seq<Byte>, ending: Ending): Last
    requires state != Data
  {
    match state
    case AfterBoundary =>
      if |rest| < 2 then Failed(ending.Cut(IncompleteStreamPart))
      else if rest[0] != DASH || rest[1] != DASH then Failed(NotClosing(rest[0]))
      else CrlfEnd(rest[2..], ending)
    case FinalCRLF => CrlfEnd(rest, ending)
    case Eof => Epilogue(rest, ending)
    case Closed => Finished
  }

  function CrlfEnd(rest: seq<Byte>, ending: Ending): Last {
    match LineEnd(rest, ending, IncompleteStreamPart)
    case Err(e) => Failed(e)
    case Ok(after) => Epilogue(after, ending)
  }

  /** The data a strict stream still yields, and how it ends. */
  datatype Drained = Drained(data: seq<Byte>, last: Last)

  function StrictDrain(delim: seq<Byte>, state: DataState, rest: seq<Byte>, ending: Ending): Drained {
    if state != Data then Drained([], TrailerEnd(state, rest, ending))
    else match Find(rest, delim)
      case None => Drained([], Failed(ending.Cut(IncompleteStreamPart)))
      case Some(i) => Drained(rest[..i], TrailerEnd(AfterBoundary, rest[i + |delim|..], ending))
  }

  /**
   * The two ways of closing agree: the strict trailer is met exactly when the walk over the parts
   * ends right after this one.
   */
  lemma TwoClosings(cfg: Config, rest: seq<Byte>, ending: Ending)
    ensures TrailerEnd(AfterBoundary, rest, ending) == Finished <==>
            FromBoundary(cfg, false, rest, ending) == Outcome([], Finished)
  {
    hide PadLen, FromBoundary, FromHeaders;
    BoundaryTaken(cfg, false, rest, ending);
    if |rest| >= 2 && rest[0] == DASH && rest[1] == DASH {
      SameLineEnd(rest[2..], ending);
    } else if BoundaryLine(false, rest, ending).ToHeaders? {
      PartsOrFailure(cfg, BoundaryLine(false, rest, ending).rest, ending);
    }
  }

  lemma SameLineEnd(rest: seq<Byte>, ending: Ending)
    ensures CrlfEnd(rest, ending) == Finished <==> Closing(rest, ending) == Finished
  {
    hide PadLen;
  }

  /** A body with a part ahead does not end without one. */
  lemma PartsOrFailure(cfg: Config, rest: seq<Byte>, ending: Ending)
    ensures FromHeaders(cfg, false, rest, ending) != Outcome([], Finished)
  {
    hide BlockAt, Find;
  }

  // ----- The strict stream against that

  ghost predicate Live(f: FinalStream) {
    f.delim != [] && Sane(f.buffer) && !f.terminated && (f.aborted ==> f.state == Data)
  }

  function Rest(f: FinalStream): Drained {
    if f.aborted then Drained([], Failed(IncompleteStreamPart))
    else StrictDrain(f.delim, f.state, f.buffer.Rest(), f.buffer.source.Ending())
  }

  /** From `f` to `f1` the stream yielded `data` and changed nothing else about how it ends. */
  predicate Yields(f: FinalStream, data: seq<Byte>, f1: FinalStream) {
    && Rest(f).last == Rest(f1).last
    && (Rest(f).last == Finished ==> Rest(f).data == data + Rest(f1).data)
  }

  ghost predicate Answers(f: FinalStream, r: Item, f1: FinalStream) {
    match r
    case NotReady => Live(f1) && Waits(f.buffer.source, f1.buffer.source) && Yields(f, [], f1)
    case Piece(data) => Live(f1) && data != [] && Yields(f, data, f1) && Behind(f1.buffer, f.buffer)
    case Fault(e) => Rest(f).last == Failed(e) && f1.terminated
    case Over => Rest(f) == Drained([], Finished) && f1.state == Closed
  }

  lemma TrailerStepped(f: FinalStream)
    requires Live(f) && f.state != Data && f.state != Closed
    ensures var (r, f1) := f.TrailerStep();
            match r
            case Pending => Live(f1) && Waits(f.buffer.source, f1.buffer.source) && Rest(f1) == Rest(f)
            case Ready(Ok(_)) => Live(f1) && Keeps(f.buffer.source, f1.buffer.source) && Rest(f1) == Rest(f)
            case Ready(Err(e)) => Rest(f) == Drained([], Failed(e))
  {
    hide Source.Bytes, Source.Ending, Source.Smooth, PadLen, Find, Rest;
    match f.state
    case AfterBoundary => TrailerDashes(f);
    case FinalCRLF => TrailerLine(f);
    case Eof => TrailerEof(f);
  }

  lemma TrailerDashes(f: FinalStream)
    requires Live(f) && f.state == AfterBoundary
    ensures var (r, f1) := f.TrailerStep();
            match r
            case Pending => Live(f1) && Waits(f.buffer.source, f1.buffer.source) && Rest(f1) == Rest(f)
            case Ready(Ok(_)) => Live(f1) && Keeps(f.buffer.source, f1.buffer.source) && Rest(f1) == Rest(f)
            case Ready(Err(e)) => Rest(f) == Drained([], Failed(e))
  {
    hide Source.Bytes, Source.Ending, Source.Smooth, PadLen, Find, EnsureLen, CrlfEnd, Epilogue;
    EnsureLenWaits(f.buffer, 2, IncompleteStreamPart);
    var (r, b) := EnsureLen(f.buffer, 2, IncompleteStreamPart);
    if r.Done() {
      var rest := f.buffer.Rest();
      assert b.buf[..2] == rest[..2] && b.buf[0] == rest[0] && b.buf[1] == rest[1];
      assert StartsWith(b.buf, [DASH, DASH]) <==> rest[0] == DASH && rest[1] == DASH;
      SplitAdvances(b, 2);
    }
  }

  lemma TrailerLine(f: FinalStream)
    requires Live(f) && f.state == FinalCRLF
    ensures var (r, f1) := f.TrailerStep();
            match r
            case Pending => Live(f1) && Waits(f.buffer.source, f1.buffer.source) && Rest(f1) == Rest(f)
            case Ready(Ok(_)) => Live(f1) && Keeps(f.buffer.source, f1.buffer.source) && Rest(f1) == Rest(f)
            case Ready(Err(e)) => Rest(f) == Drained([], Failed(e))
  {
    hide Source.Bytes, Source.Ending, Source.Smooth, PadLen, Find, ConsumePaddingAndCrlf, LineEnd, Epilogue;
    ConsumePaddingEnds(f.buffer, IncompleteStreamPart);
    var (r, b) := ConsumePaddingAndCrlf(f.buffer, IncompleteStreamPart);
    if r.Pending? {
      var rest := f.buffer.Rest();
      var k := |rest| - |b.Rest()|;
      LineEndResumed(rest, f.buffer.source.Ending(), IncompleteStreamPart, k);
    }
  }

  lemma TrailerEof(f: FinalStream)
    requires Live(f) && f.state == Eof
    ensures var (r, f1) := f.TrailerStep();
            match r
            case Pending => Live(f1) && Waits(f.buffer.source, f1.buffer.source) && Rest(f1) == Rest(f)
            case Ready(Ok(_)) => Live(f1) && Keeps(f.buffer.source, f1.buffer.source) && Rest(f1) == Rest(f)
            case Ready(Err(e)) => Rest(f) == Drained([], Failed(e))
  {
    hide Source.Bytes, Source.Ending, Source.Smooth, Find, EpilogueStep, Epilogue;
    EpilogueReads(f.buffer);
  }

  /** Reading a piece of data shortens what `StrictDrain` has to yield by it. */
  lemma DrainShortens(delim: seq<Byte>, rest: seq<Byte>, rest1: seq<Byte>, item: DataItem, ending: Ending)
    requires item.data <= rest
    requires item.last ==> Find(rest, delim) == Some(|item.data|) && rest1 == rest[|item.data| + |delim|..]
    requires !item.last ==>
               rest1 == rest[|item.data|..] && Find(rest, delim) == Shifted(Find(rest1, delim), |item.data|)
    ensures var d := StrictDrain(delim, Data, rest, ending);
            var d1 := StrictDrain(delim, if item.last then AfterBoundary else Data, rest1, ending);
            d.last == d1.last && (d.last == Finished ==> d.data == item.data + d1.data)
  {
    hide Find, TrailerEnd;
    if !item.last && Find(rest1, delim).Some? {
      var i := Find(rest1, delim).value;
      assert rest == item.data + rest1;
      assert rest[|item.data| + i + |delim|..] == rest1[i + |delim|..];
      assert rest[..|item.data| + i] == item.data + rest1[..i];
    }
  }

  /** What one read of data does to a strict stream, or to a plain one that is then made strict. */
  lemma DataStepped(b: BufferState, delim: seq<Byte>)
    requires Sane(b) && delim != []
    ensures var (r, b1) := NextData(b, delim, IncompleteStreamPart);
            var d := StrictDrain(delim, Data, b.Rest(), b.source.Ending());
            && Sane(b1)
            && match r
               case Pending =>
                 Waits(b.source, b1.source) && StrictDrain(delim, Data, b1.Rest(), b1.source.Ending()) == d
               case Ready(Err(e)) => d == Drained([], Failed(e))
               case Ready(Ok(item)) =>
                 var d1 := StrictDrain(delim, if item.last then AfterBoundary else Data, b1.Rest(), b1.source.Ending());
                 && Keeps(b.source, b1.source)
                 && d.last == d1.last && (d.last == Finished ==> d.data == item.data + d1.data)
  {
    hide Source.Bytes, Source.Ending, Source.Smooth, Find, NextData, TrailerEnd;
    NextDataReads(b, delim, IncompleteStreamPart);
    var (r, b1) := NextData(b, delim, IncompleteStreamPart);
    if r.Done() {
      DrainShortens(delim, b.Rest(), b1.Rest(), r.result.value, b.source.Ending());
    }
  }

  lemma AnswersOn(f: FinalStream, f2: FinalStream, r: Item, f1: FinalStream)
    requires Yields(f, [], f2) && NotAhead(f2.buffer, f.buffer) && Keeps(f.buffer.source, f2.buffer.source)
    requires Answers(f2, r, f1)
    ensures Answers(f, r, f1)
  {
    hide Source.Bytes, Source.Ending, Source.Smooth, Rest;
    assert [] + Rest(f2).data == Rest(f2).data;
  }

  lemma DrainedTrailer(f: FinalStream)
    requires f.state != Data && !f.aborted
    ensures Rest(f).data == [] && (f.state == Closed ==> Rest(f) == Drained([], Finished))
  {
  }

  /** The strict stream yields the data up to the leftmost delimiter and judges the closing as the bytes say. */
  lemma {:induction false} PollNextAnswers(f: FinalStream)
    requires Live(f)
    ensures var (r, f1) := f.PollNext(); Answers(f, r, f1)
    decreases |f.buffer.source.events|, |f.buffer.buf|, f.Rank()
  {
    hide Source.Bytes, Source.Ending, Source.Smooth, StrictDrain, NextData, FinalStream.TrailerStep;
    if f.state == Data && !f.aborted {
      DataStepped(f.buffer, f.delim);
      var (r, b) := NextData(f.buffer, f.delim, IncompleteStreamPart);
      if r.Done() && r.result.value.data == [] {
        var f2 := f.(buffer := b, state := AfterBoundary);
        PollNextAnswers(f2);
        var (r1, f1) := f2.PollNext();
        DrainedTrailer(f2);
        AnswersOn(f, f2, r1, f1);
      }
    } else if f.state == Closed {
      DrainedTrailer(f);
    } else if f.state != Data {
      TrailerStepped(f);
      var (r, f2) := f.TrailerStep();
      if r.Done() {
        PollNextAnswers(f2);
        var (r1, f1) := f2.PollNext();
        AnswersOn(f, f2, r1, f1);
      }
    }
  }

  /** Polls a strict stream until it is over. */
  ghost function DrainAll(f: FinalStream): Drained
    requires Live(f)
    decreases |f.buffer.source.events|, |f.buffer.buf|
  {
    PollNextAnswers(f);
    var (r, f1) := f.PollNext();
    match r
    case NotReady => DrainAll(f1)
    case Piece(data) => var d := DrainAll(f1); Drained(data + d.data, d.last)
    case Fault(e) => Drained([], Failed(e))
    case Over => Drained([], Finished)
  }

  lemma {:induction false} DrainAllDrains(f: FinalStream)
    requires Live(f)
    ensures DrainAll(f).last == Rest(f).last
    ensures Rest(f).last == Finished ==> DrainAll(f).data == Rest(f).data
    decreases |f.buffer.source.events|, |f.buffer.buf|
  {
    hide Source.Bytes, Source.Ending, Source.Smooth, Rest, FinalStream.PollNext;
    PollNextAnswers(f);
    var (r, f1) := f.PollNext();
    if r.NotReady? || r.Piece? {
      DrainAllDrains(f1);
      assert [] + Rest(f1).data == Rest(f1).data;
    }
  }

  /** Polls a strict stream `n` times, whatever it answers. */
  function PollTimes(f: FinalStream, n: nat): (Item, FinalStream)
    requires f.delim != []
    decreases n
  {
    if n == 0 then f.PollNext() else PollTimes(f.PollNext().1, n - 1)
  }

  lemma StaysOver(f: FinalStream)
    requires f.delim != [] && (f.terminated || f.state == Closed)
    ensures f.PollNext() == (Over, f)
  {
  }

  /** A strict stream that has reported an error or its end reports only its end, however often it is polled. */
  lemma {:induction false} OverForGood(f: FinalStream, n: nat)
    requires Live(f) && (f.PollNext().0.Fault? || f.PollNext().0.Over?)
    ensures f.PollNext().1.delim != []
    ensures PollTimes(f.PollNext().1, n) == (Over, f.PollNext().1)
  {
    hide FinalStream.PollNext, Rest, Source.Bytes, Source.Ending, Source.Smooth;
    PollNextAnswers(f);
    var f1 := f.PollNext().1;
    StaysOver(f1);
    if n > 0 {
      OverStays(f1, n - 1);
    }
  }

  lemma {:induction false} OverStays(f: FinalStream, n: nat)
    requires f.delim != [] && (f.terminated || f.state == Closed)
    ensures PollTimes(f, n) == (Over, f)
    decreases n
  {
    hide FinalStream.PollNext;
    StaysOver(f);
    if n > 0 {
      OverStays(f, n - 1);
    }
  }

  // ----- The plain stream, made strict at any point

  /** Polls a plain stream `n` times; the data it yielded and the stream it left. */
  function PollSome(t: PartStream, n: nat): (seq<Byte>, PartStream)
    requires t.delim != []
    decreases n
  {
    if n == 0 then ([], t)
    else
      var (r, t1) := t.PollData();
      var (data, t2) := PollSome(t1, n - 1);
      ((if r.Piece? then r.bytes else []) + data, t2)
  }

  /** What is left of a plain stream when it is made strict now. */
  function Whole(t: PartStream): Drained {
    Rest(t.IntoFinal())
  }

  lemma PollDataKeeps(t: PartStream)
    requires t.Valid()
    ensures var (r, t1) := t.PollData();
            && t1.Valid() && t1.delim == t.delim && (t.terminated ==> t1.terminated)
            && (r.Piece? ==> r.bytes != [])
            && (if r.Fault? then Whole(t).last == Failed(r.error) && t1.terminated
                else Whole(t).last == Whole(t1).last)
            && (Whole(t).last == Finished ==> Whole(t).data == (if r.Piece? then r.bytes else []) + Whole(t1).data)
  {
    hide Source.Bytes, Source.Ending, Source.Smooth, StrictDrain, NextData;
    if !t.done && !t.terminated {
      DataStepped(t.buffer, t.delim);
    }
    assert [] + Whole(t.PollData().1).data == Whole(t.PollData().1).data;
  }

  lemma {:induction false} PollSomeKeeps(t: PartStream, n: nat)
    requires t.Valid()
    ensures var (data, t1) := PollSome(t, n);
            && t1.Valid() && t1.delim == t.delim && (t.terminated ==> t1.terminated)
            && (Whole(t).last == Finished <==> Whole(t1).last == Finished)
            && (Whole(t).last == Finished ==> Whole(t).data == data + Whole(t1).data)
    decreases n
  {
    hide Source.Bytes, Source.Ending, Source.Smooth, Rest, PartStream.PollData;
    if n == 0 {
      assert [] + Whole(t).data == Whole(t).data;
    } else {
      PollDataKeeps(t);
      var (r, t1) := t.PollData();
      AbortedFails(t1);
      PollSomeKeeps(t1, n - 1);
      var (data, t2) := PollSome(t1, n - 1);
      var d := if r.Piece? then r.bytes else [];
      assert d + (data + Whole(t2).data) == (d + data) + Whole(t2).data;
    }
  }

  lemma AbortedFails(t: PartStream)
    ensures t.terminated ==> Whole(t) == Drained([], Failed(IncompleteStreamPart))
  {
  }

  /**
   * A taken stream that failed never becomes a success: once a poll has reported an error, however often
   * the stream is polled again before it is made strict, draining it fails.
   */
  lemma FailedNeverSucceeds(t: PartStream, m: nat)
    requires t.Valid() && t.PollData().0.Fault?
    ensures t.PollData().1.Valid()
    ensures (PollSomeKeeps(t.PollData().1, m);
             DrainAll(PollSome(t.PollData().1, m).1.IntoFinal()).last == Failed(IncompleteStreamPart))
  {
    hide Source.Bytes, Source.Ending, Source.Smooth, Rest, DrainAll, NextData;
    PollDataKeeps(t);
    var t1 := t.PollData().1;
    PollSomeKeeps(t1, m);
    var t2 := PollSome(t1, m).1;
    AbortedFails(t2);
    DrainAllDrains(t2.IntoFinal());
  }

  /** `Multipart::take_data_stream` on a parser that reads part data. */
  function Take(p: Parser): PartStream {
    PartStream(p.buffer, p.cfg.Delim(), Consumed(p.buffer), false, false)
  }

  /**
   * Taking the stream, reading some of it and then closing it strictly succeeds exactly when reading
   * the part through the parser succeeds and the grammar has no further part; and then the data agree.
   */
  lemma StrictClosing(p: Parser, n: nat)
    requires Inv(p) && p.state == ReadingPartData
    ensures (PollSomeKeeps(Take(p), n);
             var (front, t) := PollSome(Take(p), n);
             var d := DrainAll(t.IntoFinal());
             var (r, p1) := ReadData(p);
             && (d.last == Finished <==> r.Ok? && Ahead(p1, false) == Outcome([], Finished))
             && (d.last == Finished ==> front + d.data == r.value))
  {
    hide Source.Bytes, Source.Ending, Source.Smooth, Find, FromBoundary, DrainAll, PollSome, ReadData, TrailerEnd;
    PollSomeKeeps(Take(p), n);
    var (front, t) := PollSome(Take(p), n);
    DrainAllDrains(t.IntoFinal());
    ReadDataReads(p);
    var (r, p1) := ReadData(p);
    if r.Ok? {
      MovedTo(p.buffer, p1.buffer);
      TwoClosings(p.cfg, p1.buffer.Rest(), p.buffer.source.Ending());
    }
  }

  /**
   * Two closings agree. Taking the part's data, reading some of it and then closing it strictly drains
   * successfully with data D only if, in every delivery, reading the part through the parser gives D and
   * the next `next_part` answers that there is none; and exactly then, in a delivery that does not
   * suspend or that leaves the parser behind the part without an exposed line within reach.
   */
  lemma ClosingsAgree(p: Parser, n: nat)
    requires Inv(p) && p.state == ReadingPartData
    ensures (PollSomeKeeps(Take(p), n);
             ReadDataReads(p);
             var (front, t) := PollSome(Take(p), n);
             var d := DrainAll(t.IntoFinal());
             var (r, p1) := ReadData(p);
             && (d.last == Finished ==> r.Ok? && AwaitPart(p1).0 == Ok(false) && front + d.data == r.value)
             && (r.Ok? && (p.buffer.source.Smooth() || !AtRisk(p1)) && AwaitPart(p1).0 == Ok(false) ==>
                   d.last == Finished))
  {
    hide Source.Bytes, Source.Ending, Source.Smooth, Find, DrainAll, PollSome, ReadData, AwaitPart, Ahead;
    hide FromHeaders, PollSome, AtRisk;
    StrictClosing(p, n);
    ReadDataReads(p);
    var (r, p1) := ReadData(p);
    if r.Ok? {
      StillSmooth(p.buffer, p1.buffer);
      EndAwaited(p1);
      AwaitPartAwaits(p1);
      if !AtRisk(p1) { AwaitPartCalm(p1); }
    }
  }

  /** Where the grammar has no further part, the parser answers so, whatever the delivery. */
  lemma EndAwaited(p: Parser)
    requires Inv(p) && p.state == ReadingBoundary
    ensures Ahead(p, false) == Outcome([], Finished) ==> AwaitPart(p).0 == Ok(false)
  {
    hide Source.Bytes, Source.Ending, Source.Smooth, AwaitPart, Ahead, FromHeaders;
    if Ahead(p, false) == Outcome([], Finished) {
      NoLeniency(p);
      AwaitPartAwaits(p);
      var (a, p1) := AwaitPart(p);
      if a == Ok(true) {
        PartsOrFailure(p.cfg, p1.buffer.Rest(), p1.buffer.source.Ending());
      }
    }
  }

  // ----- Byte accounting of a strict success

  /** The trailing padding between the closing `--` and the final CRLF. */
  function ClosingPadding(delim: seq<Byte>, rest: seq<Byte>, n: nat): nat
    requires n + |delim| + 2 <= |rest|
  {
    PadLen(rest[n + |delim| + 2..])
  }

  lemma ClosingLength(delim: seq<Byte>, rest: seq<Byte>, ending: Ending)
    requires StrictDrain(delim, Data, rest, ending).last == Finished
    ensures var n := |StrictDrain(delim, Data, rest, ending).data|;
            n + |delim| + 2 <= |rest| && |rest| == n + |delim| + 4 + ClosingPadding(delim, rest, n)
  {
    hide Find, PadLen;
    var n := |StrictDrain(delim, Data, rest, ending).data|;
    var after := rest[n + |delim|..];
    assert after[2..] == rest[n + |delim| + 2..];
  }

  lemma LengthFrom(p: Parser)
    requires Inv(p) && p.state == ReadingPartData
    ensures var t := Take(p);
            var d := DrainAll(t.IntoFinal());
            d.last == Finished ==>
              && |d.data| + |p.cfg.Delim()| + 2 <= |p.buffer.Rest()|
              && Consumed(p.buffer) + |p.buffer.Rest()| == t.multipartConsumed + |d.data| + |p.cfg.boundary| + 8
                           + ClosingPadding(p.cfg.Delim(), p.buffer.Rest(), |d.data|)
  {
    hide Source.Bytes, Source.Ending, Source.Smooth, Find, DrainAll, StrictDrain, PadLen;
    DrainAllDrains(Take(p).IntoFinal());
    if DrainAll(Take(p).IntoFinal()).last == Finished {
      ClosingLength(p.cfg.Delim(), p.buffer.Rest(), p.buffer.source.Ending());
    }
  }

  /**
   * When a client has come to a part's data by any calls, takes the stream and drains it successfully,
   * the body's length is what was consumed before, the data, the boundary, eight bytes and the padding.
   */
  lemma TakenLength(cfg: Config, events: seq<Event>, calls: seq<Call>)
    requires cfg.lib.Bounded()
    ensures (StartInv(cfg, events);
             RunGoes(Start(cfg, events), calls);
             var p := Run(Start(cfg, events), calls);
             p.state == ReadingPartData ==>
               var t := Take(p);
               var d := DrainAll(t.IntoFinal());
               d.last == Finished ==>
                 && |d.data| + |cfg.Delim()| + 2 <= |p.buffer.Rest()|
                 && |Source(events, 0).Bytes()| == t.multipartConsumed + |d.data| + |cfg.boundary| + 8
                                                   + ClosingPadding(cfg.Delim(), p.buffer.Rest(), |d.data|))
  {
    hide Source.Bytes, Source.Ending, Source.Smooth, DrainAll, Run, PadLen;
    StartInv(cfg, events);
    var p0 := Start(cfg, events);
    RunGoes(p0, calls);
    var p := Run(p0, calls);
    if p.state == ReadingPartData {
      LengthFrom(p);
    }
  }
}
