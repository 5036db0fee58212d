/**
 * Boundary lines on which a suspension can matter: padding stands before the dashes of a closing
 * delimiter, and the bytes up to the dashes need not be in the buffer yet.
 */
module Padding {
  import opened Bytes
  import opened Errors
  import opened Stream
  import opened Delimiter
  import opened Headers
  import opened Grammar
  import opened Lines
  import opened Refinement

  /** A line on which padding stands before the dashes of a closing delimiter, or before a cut. */
  predicate PaddedDashes(rest: seq<Byte>) {
    var n := PadLen(rest);
    0 < n < |rest| && rest[n] == DASH && (n + 1 < |rest| ==> rest[n + 1] == DASH)
  }

  /** What such a line would say without its padding. */
  function Unpadded(rest: seq<Byte>, ending: Ending): Last
    requires PaddedDashes(rest)
  {
    var n := PadLen(rest);
    if n + 1 == |rest| then Failed(ending.Cut(IncompleteStream)) else Closing(rest[n + 2..], ending)
  }

  /** Forgetting the padding of the line changes what it says; with it, the line is malformed. */
  predicate Exposed(rest: seq<Byte>, ending: Ending) {
    PaddedDashes(rest) && Unpadded(rest, ending) != Failed(InvalidFormat)
  }

  lemma PaddedReadings(cfg: Config, rest: seq<Byte>, ending: Ending)
    requires PaddedDashes(rest)
    ensures FromBoundary(cfg, false, rest, ending) == Outcome([], Failed(InvalidFormat))
    ensures FromBoundary(cfg, true, rest, ending) == Outcome([], Unpadded(rest, ending))
    ensures FromBoundary(cfg, false, rest[PadLen(rest)..], ending) == Outcome([], Unpadded(rest, ending))
    ensures BoundaryLine(false, rest, ending) == Wrong(InvalidFormat)
  {
    hide PadLen, Closing;
    var s := rest[PadLen(rest)..];
    BoundaryTaken(cfg, false, rest, ending);
    BoundaryTaken(cfg, true, rest, ending);
    BoundaryTaken(cfg, false, s, ending);
    assert |s| >= 2 ==> s[2..] == rest[PadLen(rest) + 2..];
  }

  /** On any other line the two readings agree. */
  lemma UnpaddedReadings(rest: seq<Byte>, ending: Ending)
    requires !PaddedDashes(rest)
    ensures BoundaryLine(false, rest, ending) == BoundaryLine(true, rest, ending)
  {
    hide PadLen;
    var n := PadLen(rest);
    PadDropped(rest, n);
    if n == 0 {
      assert rest[0..] == rest;
    }
  }

  /** Exactly on padded dashes the two readings of a line differ. */
  lemma ReadingsDiffer(rest: seq<Byte>, ending: Ending)
    requires ending.Cut(IncompleteStream) != InvalidFormat
    ensures BoundaryLine(false, rest, ending) != BoundaryLine(true, rest, ending) <==> PaddedDashes(rest)
  {
    hide PadLen;
    if PaddedDashes(rest) {
      assert IsPad(rest[0]);
    } else {
      UnpaddedReadings(rest, ending);
    }
  }

  // ----- Which bodies have such a line within reach

  function Less(a: nat, b: nat): nat {
    if a > b then a - b else 0
  }

  function Most(a: nat, b: nat): nat {
    if a > b then a else b
  }

  /**
   * The strict parse comes to an exposed line, whose dashes need not be in the buffer when its padding
   * is read. The first `held` bytes are in the buffer anyway, because a header block was read that far.
   */
  predicate Sensitive(cfg: Config, rest: seq<Byte>, ending: Ending, held: nat)
    decreases |rest|, 3
  {
    || (Exposed(rest, ending) && held <= PadLen(rest))
    || (var t := BoundaryLine(false, rest, ending);
        t.ToHeaders? && SensitivePart(cfg, t.rest, ending, Less(held, |rest| - |t.rest|)))
  }

  predicate SensitivePart(cfg: Config, rest: seq<Byte>, ending: Ending, held: nat)
    decreases |rest|, 2
  {
    var end := EndOfHeaderBlock(rest, ending, cfg.maxBufferSize);
    var block := BlockAt(cfg, rest, ending);
    && end.Ok? && block.Ok? && block.value.Inside(|rest|)
    && cfg.lib.ReadsNames(FieldsOf(rest, block.value.spans))
    && var start := block.value.dataStart;
       SensitiveData(cfg, rest[start..], ending, Less(Most(held, end.value), start))
  }

  predicate SensitiveData(cfg: Config, rest: seq<Byte>, ending: Ending, held: nat)
    decreases |rest|, 1
  {
    var at := Find(rest, cfg.Delim());
    at.Some? && Sensitive(cfg, rest[at.value + |cfg.Delim()|..], ending, Less(held, at.value + |cfg.Delim()|))
  }

  /** A suspension can change what becomes of the body. */
  predicate SensitiveBody(cfg: Config, body: seq<Byte>, ending: Ending) {
    var rest := AfterNeedle(body, cfg.First());
    rest.Some? && Sensitive(cfg, rest.value, ending, 0)
  }

  // ----- More in the buffer, less to fear

  lemma {:induction false} HeldMore(cfg: Config, rest: seq<Byte>, ending: Ending, less: nat, more: nat)
    requires less <= more && Sensitive(cfg, rest, ending, more)
    ensures Sensitive(cfg, rest, ending, less)
    decreases |rest|, 3
  {
    hide BoundaryLine, Exposed, PadLen, SensitivePart;
    var t := BoundaryLine(false, rest, ending);
    if !(Exposed(rest, ending) && more <= PadLen(rest)) {
      HeldMorePart(cfg, t.rest, ending, Less(less, |rest| - |t.rest|), Less(more, |rest| - |t.rest|));
    }
  }

  lemma {:induction false} HeldMorePart(cfg: Config, rest: seq<Byte>, ending: Ending, less: nat, more: nat)
    requires less <= more && SensitivePart(cfg, rest, ending, more)
    ensures SensitivePart(cfg, rest, ending, less)
    decreases |rest|, 2
  {
    hide BlockAt, EndOfHeaderBlock, FieldsOf, SensitiveData;
    var end := EndOfHeaderBlock(rest, ending, cfg.maxBufferSize).value;
    var start := BlockAt(cfg, rest, ending).value.dataStart;
    HeldMoreData(cfg, rest[start..], ending, Less(Most(less, end), start), Less(Most(more, end), start));
  }

  lemma {:induction false} HeldMoreData(cfg: Config, rest: seq<Byte>, ending: Ending, less: nat, more: nat)
    requires less <= more && SensitiveData(cfg, rest, ending, more)
    ensures SensitiveData(cfg, rest, ending, less)
    decreases |rest|, 1
  {
    hide Find, Sensitive;
    var n := Find(rest, cfg.Delim()).value + |cfg.Delim()|;
    HeldMore(cfg, rest[n..], ending, Less(less, n), Less(more, n));
  }

  // ----- Against the two readings

  /** Where a suspension can matter, the two readings differ. */
  lemma {:induction false} SensitiveDiffers(cfg: Config, rest: seq<Byte>, ending: Ending, held: nat)
    requires Sensitive(cfg, rest, ending, held)
    ensures FromBoundary(cfg, false, rest, ending) != FromBoundary(cfg, true, rest, ending)
    decreases |rest|
  {
    hide BoundaryLine, PadLen, BlockAt, FromBoundary, FromHeaders, Find, FieldsOf, EndOfHeaderBlock;
    var t := BoundaryLine(false, rest, ending);
    if Exposed(rest, ending) {
      PaddedReadings(cfg, rest, ending);
    } else {
      UnpaddedIfHeaders(cfg, rest, ending);
      BoundaryTaken(cfg, false, rest, ending);
      BoundaryTaken(cfg, true, rest, ending);
      PartDiffers(cfg, t.rest, ending, Less(held, |rest| - |t.rest|));
    }
  }

  lemma UnpaddedIfHeaders(cfg: Config, rest: seq<Byte>, ending: Ending)
    requires BoundaryLine(false, rest, ending).ToHeaders?
    ensures BoundaryLine(true, rest, ending) == BoundaryLine(false, rest, ending)
  {
    hide BoundaryLine, PadLen;
    if PaddedDashes(rest) {
      PaddedReadings(cfg, rest, ending);
    } else {
      UnpaddedReadings(rest, ending);
    }
  }

  lemma {:induction false} PartDiffers(cfg: Config, rest: seq<Byte>, ending: Ending, held: nat)
    requires SensitivePart(cfg, rest, ending, held)
    ensures FromHeaders(cfg, false, rest, ending) != FromHeaders(cfg, true, rest, ending)
    decreases |rest|
  {
    hide BlockAt, FromBoundary, Find, FieldsOf, EndOfHeaderBlock, Sensitive;
    var start := BlockAt(cfg, rest, ending).value.dataStart;
    var data := rest[start..];
    var end := EndOfHeaderBlock(rest, ending, cfg.maxBufferSize).value;
    var at := Find(data, cfg.Delim()).value;
    var n := at + |cfg.Delim()|;
    SensitiveDiffers(cfg, data[n..], ending, Less(Less(Most(held, end), start), n));
    var a, b := FromBoundary(cfg, false, data[n..], ending), FromBoundary(cfg, true, data[n..], ending);
    var part := PartValue(FieldsOf(rest, BlockAt(cfg, rest, ending).value.spans), data[..at]);
    assert ([part] + a.parts)[1..] == a.parts && ([part] + b.parts)[1..] == b.parts;
  }

  /** Only bodies that the strict parse rejects for their format can be sensitive. */
  lemma SensitiveIsRejected(cfg: Config, body: seq<Byte>, ending: Ending)
    requires SensitiveBody(cfg, body, ending)
    ensures OneShot(cfg, false, body, ending).last == Failed(InvalidFormat)
    ensures OneShot(cfg, false, body, ending) != OneShot(cfg, true, body, ending)
  {
    hide FromBoundary, Sensitive, AfterNeedle;
    var rest := AfterNeedle(body, cfg.First()).value;
    SensitiveDiffers(cfg, rest, ending, 0);
    StrictOrLenient(cfg, rest, ending);
  }

  // ----- Different readings that no suspension reaches

  /** ` --`, and two line ends. */
  const DASHES_AHEAD: seq<Byte> := [SP, DASH, DASH, CR, LF, CR, LF]

  /** A header block that a bare line feed ends for `httparse`, while the parser reads it to CRLF CRLF. */
  function HeldBlock(cfg: Config): seq<Byte> {
    [LF] + cfg.Delim() + DASHES_AHEAD
  }

  function HeldBody(cfg: Config): seq<Byte> {
    cfg.First() + CRLF + HeldBlock(cfg)
  }

  /**
   * That the two readings of a body differ is not enough: where a header block, read as a whole, already
   * holds the dashes, and its data start before its end, no suspension comes behind the padding.
   */
  lemma ReadingsDifferUnreached(cfg: Config)
    requires ValidBoundary(cfg.boundary) && |cfg.Delim()| + 8 <= cfg.maxBufferSize
    requires cfg.lib.httparse(HeldBlock(cfg)) == Complete(1, [])
    ensures OneShot(cfg, false, HeldBody(cfg), AtEnd) != OneShot(cfg, true, HeldBody(cfg), AtEnd)
    ensures !SensitiveBody(cfg, HeldBody(cfg), AtEnd)
  {
    hide Find, PadLen, FromBoundary, FromHeaders, BlockAt, EndOfHeaderBlock, Exposed, SensitivePart, BoundaryLine;
    var s := HeldBlock(cfg);
    var rest := CRLF + s;
    var body := HeldBody(cfg);
    assert body == cfg.First() + rest;
    assert body[0..|cfg.First()|] == cfg.First();
    FindIs(body, cfg.First(), 0);
    assert body[|cfg.First()|..] == rest;
    HeldLine(s);
    HeldPart(cfg, s);
    BoundaryTaken(cfg, false, rest, AtEnd);
    BoundaryTaken(cfg, true, rest, AtEnd);
  }

  lemma HeldLine(s: seq<Byte>)
    ensures forall lenient :: BoundaryLine(lenient, CRLF + s, AtEnd) == ToHeaders(s)
    ensures PadLen(CRLF + s) == 0 && !Exposed(CRLF + s, AtEnd)
  {
    var rest := CRLF + s;
    assert PadLen(rest) == 0 && rest[0..] == rest && rest[2..] == s;
  }

  lemma HeldPart(cfg: Config, s: seq<Byte>)
    requires ValidBoundary(cfg.boundary) && |cfg.Delim()| + 8 <= cfg.maxBufferSize
    requires cfg.lib.httparse(HeldBlock(cfg)) == Complete(1, [])
    requires s == HeldBlock(cfg)
    ensures FromHeaders(cfg, false, s, AtEnd) != FromHeaders(cfg, true, s, AtEnd)
    ensures !SensitivePart(cfg, s, AtEnd, 0)
  {
    hide Find, FromBoundary, BoundaryLine, PadLen;
    var d := |cfg.Delim()|;
    HeldFinds(cfg, s);
    HeldDashes(cfg);
    assert s[..2] == [LF, CR];
    assert EndOfHeaderBlock(s, AtEnd, cfg.maxBufferSize) == Ok(d + 8) && s[..d + 8] == s;
    assert BlockAt(cfg, s, AtEnd) == Ok(HeaderBlock([], 0, 1));
    assert s[1..][d..] == DASHES_AHEAD && s[1..][..0] == [];
    assert FieldsOf(s, []) == [];
    var part := PartValue([], []);
    var a, b := FromBoundary(cfg, false, DASHES_AHEAD, AtEnd), FromBoundary(cfg, true, DASHES_AHEAD, AtEnd);
    assert FromHeaders(cfg, false, s, AtEnd) == Outcome([part] + a.parts, a.last);
    assert FromHeaders(cfg, true, s, AtEnd) == Outcome([part] + b.parts, b.last);
    assert Less(Less(Most(0, d + 8), 1), d) == 7;
  }

  lemma HeldFinds(cfg: Config, s: seq<Byte>)
    requires ValidBoundary(cfg.boundary) && s == HeldBlock(cfg)
    ensures Find(s[1..], cfg.Delim()) == Some(0)
    ensures Find(s, CRLF + CRLF) == Some(|cfg.Delim()| + 4)
  {
    var d := cfg.Delim();
    DelimiterShape(cfg.boundary);
    assert s[1..][0..|d|] == d;
    FindIs(s[1..], d, 0);
    var end := |d| + 4;
    assert s[end..end + 4] == CRLF + CRLF;
    forall j | 0 <= j < end ensures !OccursAt(s, CRLF + CRLF, j) {
      assert j + 4 <= |s| ==> s[j..j + 4][0] == s[j] && s[j..j + 4][2] == s[j + 2];
      assert (CRLF + CRLF)[0] == CR && (CRLF + CRLF)[2] == CR;
      assert s[j] == CR ==> j == 1;
    }
    FindIs(s, CRLF + CRLF, end);
  }

  lemma HeldDashes(cfg: Config)
    ensures FromBoundary(cfg, false, DASHES_AHEAD, AtEnd).last != FromBoundary(cfg, true, DASHES_AHEAD, AtEnd).last
    ensures !Sensitive(cfg, DASHES_AHEAD, AtEnd, 7)
  {
    hide PadLen, Closing, FromBoundary, BoundaryLine;
    AheadShape();
    PaddedReadings(cfg, DASHES_AHEAD, AtEnd);
  }

  lemma AheadShape()
    ensures PadLen(DASHES_AHEAD) == 1 && PaddedDashes(DASHES_AHEAD)
    ensures Unpadded(DASHES_AHEAD, AtEnd) == Failed(StreamPartNotLast)
  {
    var s := DASHES_AHEAD;
    assert s[1..][0] == DASH && PadLen(s[1..]) == 0 && PadLen(s) == 1;
    var after := s[3..];
    assert after == [CR, LF, CR, LF] && PadLen(after) == 0 && after[0..] == after && after[2..] == CRLF;
    assert LineEnd(after, AtEnd, IncompleteStream) == Ok(CRLF);
  }
}
