/**
 * The push-fed byte stream and the buffer the parser keeps over it.
 *
 * A stream is the list of answers it will give when polled: chunks, suspensions and failures;
 * once the list is used up the stream has ended.
 */
module Stream {
  import opened Bytes
  import opened Errors

  const EMPTY_CHUNKS_PER_POLL: nat := 32
  const MAX_CONSECUTIVE_EMPTY_CHUNKS: nat := 1024

  const STALLED := StreamReadFailed("stream kept yielding empty chunks without progress")

  datatype Event = Chunk(bytes: seq<Byte>) | Suspend | Fail(error: Error)

  /** How the delivery of bytes stops: the stream ends, or an error cuts it. */
  datatype Ending = AtEnd | Broken(error: Error) {
    /** The error of a reader that still wanted bytes. */
    function Cut(atEnd: Error): Error {
      if AtEnd? then atEnd else error
    }
  }

  /** What one answer contributes: bytes (none for a suspension), or the end of the delivery. */
  datatype Answer = Pass(bytes: seq<Byte>) | Stop(error: Error)

  /** What one poll answers. */
  datatype Polled = Waiting | Next(chunk: seq<Byte>) | Broke(error: Error) | Ended

  /** A stream together with the length of the run of empty chunks just read from it. */
  datatype Source = Source(events: seq<Event>, empties: nat) {

    function First(): Answer
      requires events != []
    {
      match events[0]
      case Suspend => Pass([])
      case Fail(e) => Stop(e)
      case Chunk(b) => if b == [] && empties >= MAX_CONSECUTIVE_EMPTY_CHUNKS then Stop(STALLED) else Pass(b)
    }

    /** The stream after its first answer. */
    function Tail(): Source
      requires events != []
    {
      Source(events[1..],
             match events[0]
             case Chunk(b) => if b == [] then empties + 1 else 0
             case _ => empties)
    }

    /** The bytes still to come, up to the end or the first failure. */
    function Bytes(): seq<Byte>
      decreases |events|
    {
      if events == [] || First().Stop? then [] else First().bytes + Tail().Bytes()
    }

    function Ending(): Ending
      decreases |events|
    {
      if events == [] then AtEnd
      else if First().Stop? then Broken(First().error)
      else Tail().Ending()
    }

    /** The stream never suspends and sends no empty chunk. */
    predicate Smooth()
      decreases |events|
    {
      events == [] || ((events[0].Fail? || (events[0].Chunk? && events[0].bytes != [])) && Tail().Smooth())
    }

    /** No chunk is longer than `cap`. */
    predicate Capped(cap: nat)
      decreases |events|
    {
      events == [] || ((events[0].Chunk? ==> |events[0].bytes| <= cap) && Tail().Capped(cap))
    }

    /** One poll that may still skip `quota` empty chunks: its answer and the stream it leaves. */
    function Poll(quota: nat): (r: (Polled, Source))
      ensures |r.1.events| <= |events|
      ensures r.0.Next? ==> |r.1.events| < |events| && r.0.chunk != []
      ensures r.0.Ended? ==> r.1.events == []
      decreases |events|
    {
      if quota == 0 then (Waiting, this)
      else if events == [] then (Ended, this)
      else if events[0].Suspend? then (Waiting, Tail())
      else if First().Stop? then (Broke(First().error), Tail())
      else if First().bytes == [] then Tail().Poll(quota - 1)
      else (Next(First().bytes), Tail())
    }
  }

  /** From `s0` to `s1` the stream only moved on: it ends as before and did not get rougher. */
  predicate Keeps(s0: Source, s1: Source) {
    && s0.Ending() == s1.Ending() && |s1.events| <= |s0.events| && |s1.Bytes()| <= |s0.Bytes()|
    && (s0.Smooth() ==> s1.Smooth())
  }

  /** As `Keeps`, and the stream suspended: it used up at least one answer to do so. */
  predicate Waits(s0: Source, s1: Source) {
    Keeps(s0, s1) && |s1.events| < |s0.events| && !s0.Smooth()
  }

  /** A poll answers with the next bytes, and says so when there are none left. */
  lemma {:induction false} PollDelivers(s: Source, quota: nat)
    requires quota > 0
    ensures var (r, s1) := s.Poll(quota);
            match r
            case Broke(e) => s.Bytes() == [] && s.Ending() == Broken(e)
            case Waiting => Waits(s, s1) && s.Bytes() == s1.Bytes()
            case Ended => Keeps(s, s1) && s.Bytes() == [] && s.Ending() == AtEnd
            case Next(c) => Keeps(s, s1) && s.Bytes() == c + s1.Bytes()
    decreases |s.events|
  {
    if s.events != [] && s.First().Pass? {
      if s.events[0].Chunk? && s.First().bytes == [] && quota > 1 {
        PollDelivers(s.Tail(), quota - 1);
      }
      assert s.First().bytes == [] ==> s.Bytes() == s.Tail().Bytes();
    }
  }

  lemma {:induction false} PollCapped(s: Source, quota: nat, cap: nat)
    requires s.Capped(cap)
    ensures var (r, s1) := s.Poll(quota); s1.Capped(cap) && (r.Next? ==> |r.chunk| <= cap)
    decreases |s.events|
  {
    if quota > 0 && s.events != [] {
      PollCapped(s.Tail(), quota - 1, cap);
    }
  }

  /** The state of a `StreamBuffer`. */
  datatype BufferState = BufferState(
    buf: seq<Byte>,
    source: Source,
    eof: bool,
    polledTotal: nat,
    cursor: nat,
    active: bool
  ) {
    /** The bytes not consumed yet: retained ones, then those the stream still owes. */
    function Rest(): seq<Byte> {
      buf + source.Bytes()
    }

    function PollStream(): (r: (Polled, BufferState))
      ensures |r.1.source.events| <= |source.events|
      ensures r.0.Next? ==> |r.1.source.events| < |source.events| && r.0.chunk != []
      ensures r.1.buf == buf && r.1.cursor == cursor && r.1.active == active
    {
      var (p, s) := source.Poll(EMPTY_CHUNKS_PER_POLL);
      (p, this.(source := s,
                eof := eof || p.Ended?,
                polledTotal := if p.Next? then polledTotal + |p.chunk| else polledTotal))
    }

    /** Polls the stream and appends what it delivers to `buf`. */
    function Pull(): (r: (Polled, BufferState))
      ensures |r.1.source.events| <= |source.events|
      ensures r.0.Next? ==> |r.1.source.events| < |source.events| && r.1.buf == buf + r.0.chunk && r.0.chunk != []
      ensures !r.0.Next? ==> r.1.buf == buf
      ensures r.1.cursor == cursor && r.1.active == active
    {
      var (p, b) := PollStream();
      if p.Next? then (p, b.(buf := buf + p.chunk)) else (p, b)
    }

    /** Consumes the first `n` retained bytes. */
    function Split(n: nat): BufferState
      requires n <= |buf|
    {
      this.(buf := buf[n..])
    }

    function ReadUntil(needle: seq<Byte>, max: nat): (r: (Poll<nat>, BufferState))
      requires active ==> cursor <= |buf|
      ensures r.1.active == r.0.Pending? && (r.0.Pending? ==> r.1.cursor <= |r.1.buf|)
      ensures r.0.Done() ==> r.0.result.value <= |r.1.buf|
      ensures |r.1.source.events| <= |source.events|
      ensures |r.1.source.events| == |source.events| ==> r.1.buf == buf
    {
      this.(cursor := if active then cursor else 0, active := true).SearchOn(needle, max)
    }

    function SearchOn(needle: seq<Byte>, max: nat): (r: (Poll<nat>, BufferState))
      requires active && cursor <= |buf|
      ensures r.1.active == r.0.Pending? && (r.0.Pending? ==> r.1.cursor <= |r.1.buf|)
      ensures r.0.Done() ==> r.0.result.value <= |r.1.buf|
      ensures |r.1.source.events| <= |source.events|
      ensures |r.1.source.events| == |source.events| ==> r.1.buf == buf
      decreases |source.events|
    {
      var rel := Find(buf[cursor..], needle);
      if rel.Some? then
        var end := cursor + rel.value + |needle|;
        (Ready(if end > max then Err(HeaderSizeExceeded(max)) else Ok(end)), this.(active := false))
      else if |buf| > max then
        (Ready(Err(HeaderSizeExceeded(max))), this.(active := false))
      else if eof then
        (Ready(Err(IncompleteStream)), this.(active := false))
      else
        var (p, b) := Pull();
        match p
        case Waiting => (Pending, b)
        case Broke(e) => (Ready(Err(e)), b.(active := false))
        case Ended => (Ready(Err(IncompleteStream)), b.(active := false))
        case Next(_) => b.(cursor := ResumeAt(|buf|, needle)).SearchOn(needle, max)
    }

    function ReadHeaderBlock(max: nat): (r: (Poll<nat>, BufferState))
      requires active ==> cursor <= |buf|
      ensures r.0.Ready? ==> !r.1.active
      ensures r.1.active ==> r.1.cursor <= |r.1.buf|
      ensures r.0.Done() ==> r.0.result.value <= |r.1.buf|
      ensures |r.1.source.events| <= |source.events|
      ensures |r.1.source.events| == |source.events| ==> r.1.buf == buf
      decreases |source.events|
    {
      if |buf| < 2 && !eof then
        var (p, b) := this.(active := false).Pull();
        match p
        case Waiting => (Pending, b)
        case Broke(e) => (Ready(Err(e)), b)
        case Ended => b.HeaderBlockBuffered(max)
        case Next(_) => b.ReadHeaderBlock(max)
      else HeaderBlockBuffered(max)
    }

    function HeaderBlockBuffered(max: nat): (r: (Poll<nat>, BufferState))
      requires active ==> cursor <= |buf|
      ensures r.1.active == r.0.Pending? && (r.0.Pending? ==> r.1.cursor <= |r.1.buf|)
      ensures r.0.Done() ==> r.0.result.value <= |r.1.buf|
      ensures |r.1.source.events| <= |source.events|
      ensures |r.1.source.events| == |source.events| ==> r.1.buf == buf
    {
      if StartsWith(buf, CRLF) then (Ready(Ok(2)), this.(active := false))
      else ReadUntil(CRLF + CRLF, max)
    }

    function ReadTo(needle: seq<Byte>): (r: (Poll<()>, BufferState))
      requires needle != []
      ensures r.1.active == active
      ensures |r.1.source.events| <= |source.events|
      ensures r.0.Done() && |r.1.source.events| == |source.events| ==> |r.1.buf| < |buf|
      decreases |source.events|
    {
      var at := Find(buf, needle);
      if at.Some? then (Ready(Ok(())), Split(at.value + |needle|))
      else if eof then (Ready(Err(InvalidFormat)), this)
      else
        var (p, b) := PollStream();
        match p
        case Waiting => (Pending, b)
        case Broke(e) => (Ready(Err(e)), b)
        case Ended => (Ready(Err(InvalidFormat)), b)
        case Next(chunk) =>
          var hay := buf + chunk;
          var at := Find(hay, needle);
          if at.Some? then (Ready(Ok(())), b.(buf := hay[at.value + |needle|..]))
          else b.(buf := hay[ResumeAt(|hay|, needle)..]).ReadTo(needle)
    }
  }

  /** The earliest offset at which an occurrence not contained in `len` buffered bytes may start. */
  function ResumeAt(len: nat, needle: seq<Byte>): (k: nat)
    ensures k <= len
  {
    var keep := if needle == [] then 0 else |needle| - 1;
    if len > keep then len - keep else 0
  }

  predicate Sane(b: BufferState) {
    (b.eof ==> b.source.events == []) && |b.buf| <= b.polledTotal
  }

  /** The number of bytes read from the stream that are no longer retained. */
  function Consumed(b: BufferState): nat {
    if b.polledTotal >= |b.buf| then b.polledTotal - |b.buf| else 0
  }

  /** From `b0` to `b1` exactly the next `k` bytes were consumed, and counted as consumed. */
  predicate Advances(b0: BufferState, b1: BufferState, k: nat) {
    && Sane(b0) && Sane(b1)
    && k <= |b0.Rest()| && b1.Rest() == b0.Rest()[k..]
    && Keeps(b0.source, b1.source)
    && Consumed(b1) == Consumed(b0) + k
  }

  lemma SearchOnUnfolds(b: BufferState, needle: seq<Byte>, max: nat)
    requires b.active && b.cursor <= |b.buf|
    ensures b.SearchOn(needle, max) ==
            var rel := Find(b.buf[b.cursor..], needle);
            var (p, b1) := b.Pull();
            var over := b1.(active := false);
            if rel.Some? then
              var end := b.cursor + rel.value + |needle|;
              (Ready(if end > max then Err(HeaderSizeExceeded(max)) else Ok(end)), b.(active := false))
            else if |b.buf| > max then (Ready(Err(HeaderSizeExceeded(max))), b.(active := false))
            else if b.eof then (Ready(Err(IncompleteStream)), b.(active := false))
            else if p.Waiting? then (Pending, b1)
            else if p.Broke? then (Ready(Err(p.error)), over)
            else if p.Ended? then (Ready(Err(IncompleteStream)), over)
            else b1.(cursor := ResumeAt(|b.buf|, needle)).SearchOn(needle, max)
  {
    hide Find, Source.Poll;
  }

  lemma AdvancesOn(b0: BufferState, b1: BufferState, b2: BufferState, j: nat, k: nat)
    requires Advances(b0, b1, j) && Advances(b1, b2, k)
    ensures Advances(b0, b2, j + k)
  {
    assert b0.Rest()[j..][k..] == b0.Rest()[j + k..];
  }

  lemma PollStreamDelivers(b: BufferState)
    requires Sane(b)
    ensures var (p, b1) := b.PollStream();
            && Sane(b1)
            && match p
               case Broke(e) => b.Rest() == b.buf && b.source.Ending() == Broken(e)
               case Waiting => Advances(b, b1, 0) && Waits(b.source, b1.source)
               case Ended => Advances(b, b1, 0) && b.Rest() == b.buf && b.source.Ending() == AtEnd
               case Next(c) =>
                 Keeps(b.source, b1.source) && b.Rest() == b.buf + c + b1.source.Bytes()
                 && b1.polledTotal == b.polledTotal + |c|
  {
    PollDelivers(b.source, EMPTY_CHUNKS_PER_POLL);
  }

  lemma PullDelivers(b: BufferState)
    requires Sane(b)
    ensures var (p, b1) := b.Pull();
            && Sane(b1)
            && match p
               case Broke(e) => b.Rest() == b.buf && b.source.Ending() == Broken(e)
               case Waiting => Advances(b, b1, 0) && Waits(b.source, b1.source)
               case Ended => Advances(b, b1, 0) && b.Rest() == b.buf && b.source.Ending() == AtEnd
               case Next(c) => Advances(b, b1, 0)
  {
    PollStreamDelivers(b);
  }

  lemma SplitAdvances(b: BufferState, n: nat)
    requires Sane(b) && n <= |b.buf|
    ensures Advances(b, b.Split(n), n)
  {
  }

  // ----- Searching for a needle

  /** Where a block that ends with `needle` ends, given the whole of the bytes. */
  function EndOfNeedle(rest: seq<Byte>, ending: Ending, needle: seq<Byte>, max: nat): (r: Result<nat>)
    ensures r.Ok? ==> r.value <= |rest|
  {
    match Find(rest, needle)
    case Some(i) => if i + |needle| > max then Err(HeaderSizeExceeded(max)) else Ok(i + |needle|)
    case None => Err(if |rest| > max then HeaderSizeExceeded(max) else ending.Cut(IncompleteStream))
  }

  /** Where the header block at the front of `rest` ends: a bare blank line, or one after fields. */
  function EndOfHeaderBlock(rest: seq<Byte>, ending: Ending, max: nat): (r: Result<nat>)
    ensures r.Ok? ==> r.value <= |rest|
  {
    if StartsWith(rest, CRLF) then Ok(2)
    else if |rest| < 2 && ending.Broken? then Err(ending.error)
    else EndOfNeedle(rest, ending, CRLF + CRLF, max)
  }

  /** Searching from `cursor` finds what searching the whole buffer would. */
  predicate CursorOk(buf: seq<Byte>, needle: seq<Byte>, cursor: nat) {
    cursor <= |buf| && Find(buf, needle) == Shifted(Find(buf[cursor..], needle), cursor)
  }

  /** A cursor left behind by a suspended search for the end of a header block is a good one. */
  predicate Resumable(b: BufferState) {
    b.active ==> CursorOk(b.buf, CRLF + CRLF, b.cursor)
  }

  lemma CursorAfterAppend(front: seq<Byte>, chunk: seq<Byte>, needle: seq<Byte>)
    requires needle != [] && Find(front, needle).None?
    ensures CursorOk(front + chunk, needle, ResumeAt(|front|, needle))
  {
    BarrenTail(front, chunk, needle);
    DropBarren(front + chunk, needle, ResumeAt(|front|, needle));
  }

  /** A buffer past the limit without the needle exceeds it, whatever follows. */
  lemma TooLong(front: seq<Byte>, back: seq<Byte>, ending: Ending, needle: seq<Byte>, max: nat)
    requires Find(front, needle).None? && |front| > max
    ensures EndOfNeedle(front + back, ending, needle, max) == Err(HeaderSizeExceeded(max))
  {
    FindIsLeftmost(front, needle);
    FindIsLeftmost(front + back, needle);
    var at := Find(front + back, needle);
    if at.Some? && at.value + |needle| <= |front| {
      OccursInPrefix(front, back, needle, at.value);
    }
  }

  /** What a reader of `b` that answered `r` and left `b1` has to meet: `expected`, or a resumable pause. */
  predicate Reads(b: BufferState, r: Poll<nat>, b1: BufferState, expected: Result<nat>) {
    if r.Pending? then Advances(b, b1, 0) && Waits(b.source, b1.source)
    else
      && r.result == expected
      && Sane(b1)
      && (r.result.Ok? ==> Advances(b, b1, 0) && r.result.value <= |b1.buf|)
  }

  lemma AtEof(b: BufferState)
    requires Sane(b) && b.eof
    ensures b.Rest() == b.buf && b.source.Ending() == AtEnd && b.source.Bytes() == []
  {
    assert b.buf + [] == b.buf;
  }

  lemma {:induction false} SearchOnReads(b: BufferState, needle: seq<Byte>, max: nat)
    requires Sane(b) && needle != [] && b.active && CursorOk(b.buf, needle, b.cursor)
    ensures var (r, b1) := b.SearchOn(needle, max);
            && Reads(b, r, b1, EndOfNeedle(b.Rest(), b.source.Ending(), needle, max))
            && b1.active == r.Pending? && (r.Pending? ==> CursorOk(b1.buf, needle, b1.cursor))
    decreases |b.source.events|
  {
    hide Find, Source.Bytes, Source.Ending, Source.Smooth, Source.Poll, ResumeAt;
    var (r, b1) := b.SearchOn(needle, max);
    if Find(b.buf[b.cursor..], needle).Some? {
      FindInPrefix(b.buf, b.source.Bytes(), needle);
    } else if |b.buf| > max {
      TooLong(b.buf, b.source.Bytes(), b.source.Ending(), needle, max);
    } else if b.eof {
      AtEof(b);
    } else {
      PullDelivers(b);
      var (p, b2) := b.Pull();
      if p.Next? {
        CursorAfterAppend(b.buf, p.chunk, needle);
        var b3 := b2.(cursor := ResumeAt(|b.buf|, needle));
        assert Advances(b, b3, 0);
        SearchOnReads(b3, needle, max);
        if !r.Failed() { AdvancesOn(b, b3, b1, 0, 0); }
      }
    }
  }

  lemma ReadUntilReads(b: BufferState, needle: seq<Byte>, max: nat)
    requires Sane(b) && needle != [] && (b.active ==> CursorOk(b.buf, needle, b.cursor))
    ensures var (r, b1) := b.ReadUntil(needle, max);
            && Reads(b, r, b1, EndOfNeedle(b.Rest(), b.source.Ending(), needle, max))
            && b1.active == r.Pending? && (r.Pending? ==> CursorOk(b1.buf, needle, b1.cursor))
  {
    var b0 := b.(cursor := if b.active then b.cursor else 0, active := true);
    assert b.buf[0..] == b.buf;
    SearchOnReads(b0, needle, max);
  }

  /** How a header block is read. */
  predicate ReadsBlock(b: BufferState, r: Poll<nat>, b1: BufferState, max: nat) {
    && Reads(b, r, b1, EndOfHeaderBlock(b.Rest(), b.source.Ending(), max))
    && Resumable(b1) && (r.Ready? ==> !b1.active)
  }

  lemma ReadsBlockOn(b: BufferState, b2: BufferState, r: Poll<nat>, b1: BufferState, max: nat)
    requires Advances(b, b2, 0) && ReadsBlock(b2, r, b1, max)
    ensures ReadsBlock(b, r, b1, max)
  {
    hide Find, Source.Bytes, Source.Ending, Source.Smooth, EndOfHeaderBlock;
    assert b2.Rest() == b.Rest();
    if !r.Failed() { AdvancesOn(b, b2, b1, 0, 0); }
  }

  lemma {:induction false} ReadHeaderBlockReads(b: BufferState, max: nat)
    requires Sane(b) && Resumable(b)
    ensures var (r, b1) := b.ReadHeaderBlock(max); ReadsBlock(b, r, b1, max)
    decreases |b.source.events|
  {
    hide Find, Source.Bytes, Source.Ending, Source.Smooth, Source.Poll, BufferState.HeaderBlockBuffered, ReadsBlock;
    var (r, b1) := b.ReadHeaderBlock(max);
    if |b.buf| < 2 && !b.eof {
      var b0 := b.(active := false);
      PullDelivers(b0);
      var (p, b2) := b0.Pull();
      if p.Next? {
        ReadHeaderBlockReads(b2, max);
        ReadsBlockOn(b, b2, r, b1, max);
      } else if p.Ended? {
        HeaderBlockBufferedReads(b2, max);
        ReadsBlockOn(b, b2, r, b1, max);
      } else {
        HeaderBlockStops(b, max);
      }
    } else {
      if b.eof { AtEof(b); }
      HeaderBlockBufferedReads(b, max);
    }
  }

  /** A suspension or failure before the block is long enough to tell. */
  lemma HeaderBlockStops(b: BufferState, max: nat)
    requires Sane(b) && Resumable(b) && |b.buf| < 2 && !b.eof
    requires var p := b.(active := false).Pull().0; p.Waiting? || p.Broke?
    ensures var (r, b1) := b.ReadHeaderBlock(max); ReadsBlock(b, r, b1, max)
  {
    hide Find, Source.Bytes, Source.Ending, Source.Smooth, Source.Poll, EndOfNeedle;
    PullDelivers(b.(active := false));
  }

  lemma HeaderBlockBufferedReads(b: BufferState, max: nat)
    requires Sane(b) && Resumable(b) && (|b.buf| >= 2 || (b.Rest() == b.buf && b.source.Ending() == AtEnd))
    ensures var (r, b1) := b.HeaderBlockBuffered(max);
            ReadsBlock(b, r, b1, max)
  {
    assert |b.buf| >= 2 ==> b.Rest()[..2] == b.buf[..2];
    if !StartsWith(b.buf, CRLF) {
      ReadUntilReads(b, CRLF + CRLF, max);
    }
  }

  /** From `b0` to `b1` some number of bytes was consumed. */
  predicate MovesOn(b0: BufferState, b1: BufferState) {
    |b1.Rest()| <= |b0.Rest()| && Advances(b0, b1, |b0.Rest()| - |b1.Rest()|)
  }

  lemma MovesOnTwice(b0: BufferState, b1: BufferState, b2: BufferState)
    requires MovesOn(b0, b1) && MovesOn(b1, b2)
    ensures MovesOn(b0, b2)
  {
    AdvancesOn(b0, b1, b2, |b0.Rest()| - |b1.Rest()|, |b1.Rest()| - |b2.Rest()|);
  }

  /** Appending a chunk and dropping the first `cut` retained bytes consumes exactly those. */
  lemma TrimAppended(b: BufferState, chunk: seq<Byte>, b2: BufferState, cut: nat)
    requires Sane(b) && b.PollStream() == (Next(chunk), b2) && cut <= |b.buf + chunk|
    ensures Sane(b2) && b.Rest() == b.buf + chunk + b2.source.Bytes()
    ensures Advances(b, b2.(buf := (b.buf + chunk)[cut..]), cut)
  {
    PollStreamDelivers(b);
    assert (b.buf + chunk)[cut..] + b2.source.Bytes() == b.Rest()[cut..];
  }

  /** `PollReadTo` answered `r`: it stops right after the leftmost needle, fails without one, or pauses. */
  predicate ReadsTo(b: BufferState, r: Poll<()>, b1: BufferState, needle: seq<Byte>) {
    && Sane(b1) && b1.active == b.active
    && match r
       case Pending =>
         MovesOn(b, b1) && Waits(b.source, b1.source)
         && AfterNeedle(b1.Rest(), needle) == AfterNeedle(b.Rest(), needle)
       case Ready(Ok(_)) => MovesOn(b, b1) && AfterNeedle(b.Rest(), needle) == Some(b1.Rest())
       case Ready(Err(e)) => AfterNeedle(b.Rest(), needle) == None && e == b.source.Ending().Cut(InvalidFormat)
  }

  lemma ReadsToOn(b: BufferState, b3: BufferState, r: Poll<()>, b1: BufferState, needle: seq<Byte>)
    requires MovesOn(b, b3) && b3.active == b.active
    requires AfterNeedle(b3.Rest(), needle) == AfterNeedle(b.Rest(), needle)
    requires ReadsTo(b3, r, b1, needle)
    ensures ReadsTo(b, r, b1, needle)
  {
    if !r.Failed() { MovesOnTwice(b, b3, b1); }
  }

  /** However the bytes arrive, `PollReadTo` finds the leftmost needle in the whole of them. */
  lemma {:induction false} ReadToReads(b: BufferState, needle: seq<Byte>)
    requires Sane(b) && needle != []
    ensures var (r, b1) := b.ReadTo(needle); ReadsTo(b, r, b1, needle)
    decreases |b.source.events|
  {
    hide Find, Source.Poll, ResumeAt;
    if Find(b.buf, needle).Some? || b.eof || !b.PollStream().0.Next? {
      ReadToWithoutChunk(b, needle);
    } else {
      var (p, b2) := b.PollStream();
      ReadToTrims(b, p.chunk, b2, needle);
      var hay := b.buf + p.chunk;
      if Find(hay, needle).None? {
        var b3 := b2.(buf := hay[ResumeAt(|hay|, needle)..]);
        ReadToReads(b3, needle);
        var (r, b1) := b3.ReadTo(needle);
        ReadsToOn(b, b3, r, b1, needle);
      }
    }
  }

  lemma ReadToWithoutChunk(b: BufferState, needle: seq<Byte>)
    requires Sane(b) && needle != []
    requires Find(b.buf, needle).Some? || b.eof || !b.PollStream().0.Next?
    ensures var (r, b1) := b.ReadTo(needle); ReadsTo(b, r, b1, needle)
  {
    hide Find, Source.Smooth, Source.Poll;
    if Find(b.buf, needle).Some? {
      ReadToFinds(b, needle);
    } else if b.eof {
      assert b.source.Bytes() == [] && b.source.Ending() == AtEnd && b.Rest() == b.buf;
    } else {
      ReadToStops(b, needle);
    }
  }

  lemma ReadToFinds(b: BufferState, needle: seq<Byte>)
    requires Sane(b) && needle != [] && Find(b.buf, needle).Some?
    ensures var (r, b1) := b.ReadTo(needle); ReadsTo(b, r, b1, needle)
  {
    hide Find, Source.Bytes, Source.Ending, Source.Smooth, Source.Poll;
    FindInPrefix(b.buf, b.source.Bytes(), needle);
    SplitAdvances(b, Find(b.buf, needle).value + |needle|);
  }

  lemma ReadToStops(b: BufferState, needle: seq<Byte>)
    requires Sane(b) && needle != [] && Find(b.buf, needle).None? && !b.eof && !b.PollStream().0.Next?
    ensures var (r, b1) := b.ReadTo(needle); ReadsTo(b, r, b1, needle)
  {
    hide Find, Source.Bytes, Source.Ending, Source.Smooth, Source.Poll;
    PollStreamDelivers(b);
    assert b.buf + [] == b.buf;
  }

  /** A chunk is searched together with what was retained; without a match only a tail is kept. */
  lemma ReadToTrims(b: BufferState, chunk: seq<Byte>, b2: BufferState, needle: seq<Byte>)
    requires Sane(b) && needle != [] && b.PollStream() == (Next(chunk), b2)
    ensures var hay := b.buf + chunk;
            var at := Find(hay, needle);
            var cut := if at.Some? then at.value + |needle| else ResumeAt(|hay|, needle);
            var b3 := b2.(buf := hay[cut..]);
            && Advances(b, b3, cut) && b3.active == b.active
            && if at.Some? then AfterNeedle(b.Rest(), needle) == Some(b3.Rest())
               else AfterNeedle(b3.Rest(), needle) == AfterNeedle(b.Rest(), needle)
  {
    var hay := b.buf + chunk;
    var at := Find(hay, needle);
    var cut := if at.Some? then at.value + |needle| else ResumeAt(|hay|, needle);
    TrimAppended(b, chunk, b2, cut);
    if at.Some? {
      FindInPrefix(hay, b2.source.Bytes(), needle);
    } else {
      BarrenTail(hay, b2.source.Bytes(), needle);
      DropBarren(b.Rest(), needle, cut);
    }
  }
}
