/** The parser's small reading steps over the buffer, and what they make of the bytes still to come. */
module Lines {
  import opened Bytes
  import opened Errors
  import opened Stream
  import opened Delimiter
  import opened Grammar

  /** `b1` is behind `b`: the stream moved, or some retained bytes were consumed, or neither. */
  predicate NotAhead(b1: BufferState, b: BufferState) {
    || |b1.source.events| < |b.source.events|
    || (|b1.source.events| == |b.source.events| && |b1.buf| <= |b.buf|)
  }

  predicate Behind(b1: BufferState, b: BufferState) {
    NotAhead(b1, b) && (|b1.source.events| == |b.source.events| ==> |b1.buf| < |b.buf|)
  }

  // ----- Waiting for bytes

  function EnsureLen(b: BufferState, len: nat, atEnd: Error): (r: (Poll<()>, BufferState))
    ensures NotAhead(r.1, b) && r.1.active == b.active
    ensures |r.1.source.events| == |b.source.events| ==> r.1.buf == b.buf
    ensures r.0.Done() ==> |r.1.buf| >= len
    decreases |b.source.events|
  {
    if |b.buf| >= len then (Ready(Ok(())), b)
    else
      var (p, b1) := b.Pull();
      match p
      case Waiting => (Pending, b1)
      case Broke(e) => (Ready(Err(e)), b1)
      case Ended => (Ready(Err(atEnd)), b1)
      case Next(_) => EnsureLen(b1, len, atEnd)
  }

  lemma {:induction false} EnsureLenWaits(b: BufferState, len: nat, atEnd: Error)
    requires Sane(b)
    ensures var (r, b1) := EnsureLen(b, len, atEnd);
            && Sane(b1)
            && (r.Pending? ==> Advances(b, b1, 0) && Waits(b.source, b1.source))
            && (r.Done() ==> Advances(b, b1, 0))
            && (r.Failed() ==> |b.Rest()| < len && r.result.error == b.source.Ending().Cut(atEnd))
    decreases |b.source.events|
  {
    hide Source.Bytes, Source.Ending, Source.Smooth;
    if |b.buf| < len {
      PullDelivers(b);
      var (p, b2) := b.Pull();
      if p.Next? {
        EnsureLenWaits(b2, len, atEnd);
        var (r, b1) := EnsureLen(b2, len, atEnd);
        if !r.Failed() { AdvancesOn(b, b2, b1, 0, 0); }
      }
    }
  }

  // ----- CRLF and padding

  function ConsumeCrlf(b: BufferState, atEnd: Error): (r: (Poll<()>, BufferState))
    ensures NotAhead(r.1, b) && r.1.active == b.active
    ensures r.0.Done() ==> Behind(r.1, b)
  {
    var (r, b1) := EnsureLen(b, 2, atEnd);
    if !r.Done() then (r, b1)
    else if b1.buf[..2] != CRLF then (Ready(Err(InvalidFormat)), b1)
    else (Ready(Ok(())), b1.Split(2))
  }

  function ConsumePaddingAndCrlf(b: BufferState, atEnd: Error): (r: (Poll<()>, BufferState))
    ensures NotAhead(r.1, b) && r.1.active == b.active
    ensures r.0.Done() ==> Behind(r.1, b)
    decreases |b.source.events|, |b.buf|
  {
    var (r, b1) := EnsureLen(b, 1, atEnd);
    if !r.Done() then (r, b1)
    else if b1.buf[0] == CR then ConsumeCrlf(b1, atEnd)
    else if !IsPad(b1.buf[0]) then (Ready(Err(InvalidFormat)), b1)
    else ConsumePaddingAndCrlf(b1.Split(PadLen(b1.buf)), atEnd)
  }

  lemma PadLenPositive(s: seq<Byte>)
    requires s != [] && IsPad(s[0])
    ensures PadLen(s) > 0
  {
  }

  lemma {:induction false} PadLenOfFront(front: seq<Byte>, back: seq<Byte>)
    ensures PadLen(front) <= PadLen(front + back)
  {
    if front != [] && IsPad(front[0]) {
      assert (front + back)[1..] == front[1..] + back;
      PadLenOfFront(front[1..], back);
    }
  }

  /** Padding read early makes no difference to how the line ends. */
  lemma {:induction false} PadDropped(rest: seq<Byte>, k: nat)
    requires k <= PadLen(rest)
    ensures PadLen(rest[k..]) == PadLen(rest) - k
    ensures rest[k..][PadLen(rest[k..])..] == rest[PadLen(rest)..]
  {
    if k > 0 {
      PadDropped(rest[1..], k - 1);
      assert rest[1..][k - 1..] == rest[k..];
    }
  }

  /** Reading a line end: done, failed as the whole of the bytes says, or paused inside the padding. */
  predicate EndsLine(b: BufferState, r: Poll<()>, b1: BufferState, atEnd: Error) {
    && Sane(b1)
    && match r
       case Pending =>
         && Waits(b.source, b1.source) && MovesOn(b, b1)
         && |b.Rest()| - |b1.Rest()| <= PadLen(b.Rest())
       case Ready(Ok(_)) => MovesOn(b, b1) && LineEndOr(b, atEnd) == Ok(b1.Rest())
       case Ready(Err(e)) => LineEndOr(b, atEnd) == Err(e)
  }

  function LineEndOr(b: BufferState, atEnd: Error): Result<seq<Byte>> {
    LineEnd(b.Rest(), b.source.Ending(), atEnd)
  }

  lemma ConsumeCrlfEnds(b: BufferState, atEnd: Error)
    requires Sane(b) && b.buf != [] && b.buf[0] == CR
    ensures var (r, b1) := ConsumeCrlf(b, atEnd); EndsLine(b, r, b1, atEnd)
  {
    hide Source.Bytes, Source.Ending, Source.Smooth;
    EnsureLenWaits(b, 2, atEnd);
    var (r, b2) := EnsureLen(b, 2, atEnd);
    var rest := b.Rest();
    assert rest[0] == CR && PadLen(rest) == 0 && rest[0..] == rest;
    if r.Done() {
      assert b2.buf[..2] == rest[..2];
      if b2.buf[..2] == CRLF {
        assert rest[..2] == CRLF && rest[1] == CRLF[1];
        SplitAdvances(b2, 2);
        AdvancesOn(b, b2, b2.Split(2), 0, 2);
      } else {
        assert rest[1] != LF;
      }
    }
  }

  lemma EndsLineOn(b: BufferState, b2: BufferState, k: nat, r: Poll<()>, b1: BufferState, atEnd: Error)
    requires Advances(b, b2, k) && k <= PadLen(b.Rest()) && EndsLine(b2, r, b1, atEnd)
    ensures EndsLine(b, r, b1, atEnd)
  {
    hide Source.Bytes, Source.Ending, Source.Smooth, PadLen;
    PadDropped(b.Rest(), k);
    assert LineEndOr(b, atEnd) == LineEndOr(b2, atEnd);
    if !r.Failed() { MovesOnTwice(b, b2, b1); }
  }

  lemma PaddingStops(b: BufferState, atEnd: Error)
    requires Sane(b)
    requires var (r, b2) := EnsureLen(b, 1, atEnd); r.Done() ==> b2.buf[0] != CR && !IsPad(b2.buf[0])
    ensures var (r, b1) := ConsumePaddingAndCrlf(b, atEnd); EndsLine(b, r, b1, atEnd)
  {
    hide Source.Bytes, Source.Ending, Source.Smooth;
    EnsureLenWaits(b, 1, atEnd);
    var (r, b2) := EnsureLen(b, 1, atEnd);
    if r.Done() {
      assert b2.buf[0] == b.Rest()[0];
      assert PadLen(b.Rest()) == 0;
    }
  }

  /** However the bytes arrive, padding and CRLF are consumed exactly when the whole of the bytes has them. */
  lemma {:induction false} ConsumePaddingEnds(b: BufferState, atEnd: Error)
    requires Sane(b)
    ensures var (r, b1) := ConsumePaddingAndCrlf(b, atEnd); EndsLine(b, r, b1, atEnd)
    decreases |b.source.events|, |b.buf|
  {
    hide Source.Bytes, Source.Ending, Source.Smooth, EndsLine, PadLen;
    EnsureLenWaits(b, 1, atEnd);
    var (r, b2) := EnsureLen(b, 1, atEnd);
    if !r.Done() || (b2.buf[0] != CR && !IsPad(b2.buf[0])) {
      PaddingStops(b, atEnd);
    } else if b2.buf[0] == CR {
      ConsumeCrlfEnds(b2, atEnd);
      var (r1, b1) := ConsumeCrlf(b2, atEnd);
      EndsLineOn(b, b2, 0, r1, b1, atEnd);
    } else {
      var n := PadLen(b2.buf);
      var b3 := b2.Split(n);
      PadLenOfFront(b2.buf, b2.source.Bytes());
      SplitAdvances(b2, n);
      AdvancesOn(b, b2, b3, 0, n);
      ConsumePaddingEnds(b3, atEnd);
      var (r1, b1) := ConsumePaddingAndCrlf(b3, atEnd);
      EndsLineOn(b, b3, n, r1, b1, atEnd);
    }
  }

  // ----- Part data

  /** A piece of part data; the delimiter was consumed behind the last one. */
  datatype DataItem = DataItem(data: seq<Byte>, last: bool)

  function NextData(b: BufferState, delim: seq<Byte>, atEnd: Error): (r: (Poll<DataItem>, BufferState))
    requires delim != []
    ensures NotAhead(r.1, b) && r.1.active == b.active
    ensures r.0.Done() ==> Behind(r.1, b) && (r.0.result.value.last || r.0.result.value.data != [])
    decreases |b.source.events|
  {
    match if b.buf == [] then KeepAll else SearchData(b.buf, delim)
    case Found(i) => (Ready(Ok(DataItem(b.buf[..i], true))), b.Split(i + |delim|))
    case Emit(end) => (Ready(Ok(DataItem(b.buf[..end], false))), b.Split(end))
    case KeepAll =>
      var (p, b1) := b.Pull();
      match p
      case Waiting => (Pending, b1)
      case Broke(e) => (Ready(Err(e)), b1)
      case Ended => (Ready(Err(atEnd)), b1)
      case Next(_) => NextData(b1, delim, atEnd)
  }

  lemma NextDataUnfolds(b: BufferState, delim: seq<Byte>, atEnd: Error)
    requires delim != []
    ensures NextData(b, delim, atEnd) ==
            var found := if b.buf == [] then KeepAll else SearchData(b.buf, delim);
            var (p, b1) := b.Pull();
            if found.Found? then (Ready(Ok(DataItem(b.buf[..found.index], true))), b.Split(found.index + |delim|))
            else if found.Emit? then (Ready(Ok(DataItem(b.buf[..found.end], false))), b.Split(found.end))
            else if p.Waiting? then (Pending, b1)
            else if p.Broke? then (Ready(Err(p.error)), b1)
            else if p.Ended? then (Ready(Err(atEnd)), b1)
            else NextData(b1, delim, atEnd)
  {
    hide SearchData, Source.Poll;
  }

  /**
   * A read of part data: the bytes handed out are the next ones, they stop at the leftmost delimiter,
   * and no delimiter starts in bytes handed out before it.
   */
  predicate ReadsData(b: BufferState, r: Poll<DataItem>, b1: BufferState, delim: seq<Byte>, atEnd: Error) {
    && Sane(b1)
    && match r
       case Pending => Advances(b, b1, 0) && Waits(b.source, b1.source)
       case Ready(Ok(item)) =>
         && item.data <= b.Rest()
         && if item.last then Find(b.Rest(), delim) == Some(|item.data|) && Advances(b, b1, |item.data| + |delim|)
            else Find(b.Rest(), delim) == Shifted(Find(b1.Rest(), delim), |item.data|) && Advances(b, b1, |item.data|)
       case Ready(Err(e)) => Find(b.Rest(), delim) == None && e == b.source.Ending().Cut(atEnd)
  }

  lemma NextDataBuffered(b: BufferState, delim: seq<Byte>, atEnd: Error)
    requires Sane(b) && delim != [] && b.buf != [] && !SearchData(b.buf, delim).KeepAll?
    ensures var (r, b1) := NextData(b, delim, atEnd); ReadsData(b, r, b1, delim, atEnd)
  {
    hide Source.Bytes, Source.Ending, Source.Smooth, SearchData;
    match SearchData(b.buf, delim)
    case Found(_) => FoundBuffered(b, delim, atEnd);
    case Emit(_) => EmitBuffered(b, delim, atEnd);
  }

  lemma FoundBuffered(b: BufferState, delim: seq<Byte>, atEnd: Error)
    requires Sane(b) && delim != [] && b.buf != [] && SearchData(b.buf, delim).Found?
    ensures var (r, b1) := NextData(b, delim, atEnd); ReadsData(b, r, b1, delim, atEnd)
  {
    hide Source.Bytes, Source.Ending, Source.Smooth, SearchData;
    HoldBackSafe(b.buf, b.source.Bytes(), delim);
    SplitAdvances(b, SearchData(b.buf, delim).index + |delim|);
  }

  lemma EmitBuffered(b: BufferState, delim: seq<Byte>, atEnd: Error)
    requires Sane(b) && delim != [] && b.buf != [] && SearchData(b.buf, delim).Emit?
    ensures var (r, b1) := NextData(b, delim, atEnd); ReadsData(b, r, b1, delim, atEnd)
  {
    hide Source.Bytes, Source.Ending, Source.Smooth, SearchData;
    HoldBackSafe(b.buf, b.source.Bytes(), delim);
    var end := SearchData(b.buf, delim).end;
    DropBarren(b.Rest(), delim, end);
    SplitAdvances(b, end);
  }

  lemma NextDataStops(b: BufferState, delim: seq<Byte>, atEnd: Error)
    requires Sane(b) && delim != [] && (b.buf == [] || SearchData(b.buf, delim).KeepAll?) && !b.Pull().0.Next?
    ensures var (r, b1) := NextData(b, delim, atEnd); ReadsData(b, r, b1, delim, atEnd)
  {
    hide Source.Bytes, Source.Ending, Source.Smooth;
    PullDelivers(b);
  }

  lemma ReadsDataOn(b: BufferState, b2: BufferState, r: Poll<DataItem>, b1: BufferState, delim: seq<Byte>, atEnd: Error)
    requires Advances(b, b2, 0) && ReadsData(b2, r, b1, delim, atEnd)
    ensures ReadsData(b, r, b1, delim, atEnd)
  {
    hide Source.Bytes, Source.Ending, Source.Smooth, Find;
    if r.Pending? {
      AdvancesOn(b, b2, b1, 0, 0);
    } else if r.Done() {
      AdvancesOn(b, b2, b1, 0, |b2.Rest()| - |b1.Rest()|);
    }
  }

  /** However the bytes arrive, part data is read up to the leftmost delimiter of the whole of them. */
  lemma {:induction false} NextDataReads(b: BufferState, delim: seq<Byte>, atEnd: Error)
    requires Sane(b) && delim != []
    ensures var (r, b1) := NextData(b, delim, atEnd); ReadsData(b, r, b1, delim, atEnd)
    decreases |b.source.events|
  {
    hide Source.Bytes, Source.Ending, Source.Smooth, ReadsData, SearchData, Find;
    if b.buf != [] && !SearchData(b.buf, delim).KeepAll? {
      NextDataBuffered(b, delim, atEnd);
    } else if !b.Pull().0.Next? {
      NextDataStops(b, delim, atEnd);
    } else {
      PullDelivers(b);
      var b2 := b.Pull().1;
      NextDataReads(b2, delim, atEnd);
      var (r, b1) := NextData(b2, delim, atEnd);
      ReadsDataOn(b, b2, r, b1, delim, atEnd);
    }
  }

  // ----- Boundary lines

  /** Reads on after `--boundary`: whether the line closes the body or a header block follows. */
  function BoundaryStep(b: BufferState): (r: (Poll<bool>, BufferState))
    ensures NotAhead(r.1, b) && r.1.active == b.active
    ensures r.0.Done() ==> Behind(r.1, b)
  {
    var (r, b1) := EnsureLen(b, 1, IncompleteStream);
    if !r.Done() then (Relabel(r, false), b1)
    else if b1.buf[0] == DASH then
      var (r2, b2) := EnsureLen(b1, 2, IncompleteStream);
      if !r2.Done() then (Relabel(r2, true), b2)
      else if b2.buf[..2] != [DASH, DASH] then (Ready(Err(InvalidFormat)), b2)
      else (Ready(Ok(true)), b2.Split(2))
    else if IsPad(b1.buf[0]) then
      var (r2, b2) := ConsumePaddingAndCrlf(b1, IncompleteStream);
      (Relabel(r2, false), b2)
    else if b1.buf[0] == CR then
      var (r2, b2) := ConsumeCrlf(b1, IncompleteStream);
      (Relabel(r2, false), b2)
    else (Ready(Err(InvalidFormat)), b1)
  }

  function Relabel<T>(r: Poll<()>, value: T): Poll<T> {
    match r
    case Pending => Pending
    case Ready(Ok(_)) => Ready(Ok(value))
    case Ready(Err(e)) => Ready(Err(e))
  }

  /** Reading a boundary line agrees with the strict reading, or pauses inside its padding. */
  predicate ReadsBoundary(b: BufferState, r: Poll<bool>, b1: BufferState) {
    var line := BoundaryLine(false, b.Rest(), b.source.Ending());
    && Sane(b1)
    && match r
       case Pending =>
         && Waits(b.source, b1.source) && MovesOn(b, b1)
         && |b.Rest()| - |b1.Rest()| <= PadLen(b.Rest())
       case Ready(Ok(closing)) =>
         MovesOn(b, b1) && line == if closing then ToClosing(b1.Rest()) else ToHeaders(b1.Rest())
       case Ready(Err(e)) => line == Wrong(e)
  }

  lemma BoundaryByDash(b: BufferState)
    requires Sane(b) && b.buf != [] && b.buf[0] == DASH
    ensures var (r, b1) := BoundaryStep(b); ReadsBoundary(b, r, b1)
  {
    hide Source.Bytes, Source.Ending, Source.Smooth;
    assert EnsureLen(b, 1, IncompleteStream) == (Ready(Ok(())), b);
    EnsureLenWaits(b, 2, IncompleteStream);
    var (r, b2) := EnsureLen(b, 2, IncompleteStream);
    if r.Done() {
      assert b2.buf[..2] == b.Rest()[..2];
      if b2.buf[..2] == [DASH, DASH] {
        assert b.Rest()[1] == [DASH, DASH][1];
        SplitAdvances(b2, 2);
        AdvancesOn(b, b2, b2.Split(2), 0, 2);
      } else {
        assert b.Rest()[1] != DASH;
      }
    }
  }

  lemma BoundaryByLineEnd(b: BufferState)
    requires Sane(b) && b.buf != [] && b.buf[0] != DASH
    ensures var (r, b1) := BoundaryStep(b); ReadsBoundary(b, r, b1)
  {
    hide Source.Bytes, Source.Ending, Source.Smooth, PadLen;
    assert EnsureLen(b, 1, IncompleteStream) == (Ready(Ok(())), b);
    assert b.Rest()[0] == b.buf[0];
    if IsPad(b.buf[0]) {
      ConsumePaddingEnds(b, IncompleteStream);
    } else if b.buf[0] == CR {
      ConsumeCrlfEnds(b, IncompleteStream);
    }
  }

  lemma ReadsBoundaryOn(b: BufferState, b2: BufferState, r: Poll<bool>, b1: BufferState)
    requires Advances(b, b2, 0) && ReadsBoundary(b2, r, b1)
    ensures ReadsBoundary(b, r, b1)
  {
    hide Source.Bytes, Source.Ending, Source.Smooth, PadLen, BoundaryLine;
    assert b2.Rest() == b.Rest();
    if !r.Failed() { MovesOnTwice(b, b2, b1); }
  }

  lemma BoundaryReads(b: BufferState)
    requires Sane(b)
    ensures var (r, b1) := BoundaryStep(b); ReadsBoundary(b, r, b1)
  {
    hide Source.Bytes, Source.Ending, Source.Smooth, PadLen;
    EnsureLenWaits(b, 1, IncompleteStream);
    var (r, b2) := EnsureLen(b, 1, IncompleteStream);
    if r.Done() {
      assert EnsureLen(b2, 1, IncompleteStream) == (Ready(Ok(())), b2);
      if b2.buf[0] == DASH { BoundaryByDash(b2); } else { BoundaryByLineEnd(b2); }
      var (r1, b1) := BoundaryStep(b2);
      ReadsBoundaryOn(b, b2, r1, b1);
    }
  }

  // ----- After the closing delimiter

  function EpilogueStep(b: BufferState): (r: (Poll<()>, BufferState))
    ensures NotAhead(r.1, b) && r.1.active == b.active
  {
    if b.buf != [] then (Ready(Err(StreamPartNotLast)), b)
    else
      var (p, b1) := b.PollStream();
      match p
      case Waiting => (Pending, b1)
      case Broke(e) => (Ready(Err(e)), b1)
      case Ended => (Ready(Ok(())), b1)
      case Next(_) => (Ready(Err(StreamPartNotLast)), b1)
  }

  lemma EpilogueReads(b: BufferState)
    requires Sane(b)
    ensures var (r, b1) := EpilogueStep(b);
            && Sane(b1)
            && match r
               case Pending => Advances(b, b1, 0) && Waits(b.source, b1.source)
               case Ready(Ok(_)) => Advances(b, b1, 0) && Epilogue(b.Rest(), b.source.Ending()) == Finished
               case Ready(Err(e)) => Epilogue(b.Rest(), b.source.Ending()) == Failed(e)
  {
    hide Source.Bytes, Source.Ending, Source.Smooth;
    PollStreamDelivers(b);
  }
}
