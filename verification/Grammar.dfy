/**
 * The one-shot reference parse: what a multipart body says when all of its bytes are at hand.
 *
 * `ending` tells how the bytes stop, so a stream failure is reported where the bytes run out.
 * `lenient` selects the reading of a boundary line that a suspended parser can fall into: padding
 * before `--` does not spoil the closing delimiter. The strict reading is the intended one.
 */
module Grammar {
  import opened Bytes
  import opened Errors
  import opened Stream
  import opened Delimiter
  import opened Headers

  datatype Config = Config(boundary: seq<Byte>, maxBufferSize: nat, lib: HeaderLib) {
    function First(): seq<Byte> {
      MakeFirstBoundary(boundary)
    }

    function Delim(): seq<Byte> {
      MakeDelimiter(boundary)
    }
  }

  datatype PartValue = PartValue(fields: seq<Field>, data: seq<Byte>)

  datatype Last = Finished | Failed(error: Error)

  /** The complete parts of a body, and how the walk over them ends. */
  datatype Outcome = Outcome(parts: seq<PartValue>, last: Last)

  /** The number of padding bytes in front. */
  function PadLen(s: seq<Byte>): (n: nat)
    ensures n <= |s|
    ensures forall i :: 0 <= i < n ==> IsPad(s[i])
    ensures n < |s| ==> !IsPad(s[n])
  {
    if s != [] && IsPad(s[0]) then 1 + PadLen(s[1..]) else 0
  }

  /** Padding, CRLF; what follows them. `atEnd` is the error when the stream ends first. */
  function LineEnd(rest: seq<Byte>, ending: Ending, atEnd: Error): (r: Result<seq<Byte>>)
    ensures r.Ok? ==> |r.value| + 2 <= |rest|
  {
    var s := rest[PadLen(rest)..];
    if s == [] then Err(ending.Cut(atEnd))
    else if s[0] != CR then Err(InvalidFormat)
    else if |s| < 2 then Err(ending.Cut(atEnd))
    else if s[1] != LF then Err(InvalidFormat)
    else Ok(s[2..])
  }

  /** What a boundary line leads to. */
  datatype Turn = ToHeaders(rest: seq<Byte>) | ToClosing(rest: seq<Byte>) | Wrong(error: Error)

  function BoundaryLine(lenient: bool, rest: seq<Byte>, ending: Ending): (t: Turn)
    ensures !t.Wrong? ==> |t.rest| + 2 <= |rest|
  {
    var s := if lenient then rest[PadLen(rest)..] else rest;
    if s == [] then Wrong(ending.Cut(IncompleteStream))
    else if s[0] == DASH then
      if |s| < 2 then Wrong(ending.Cut(IncompleteStream))
      else if s[1] != DASH then Wrong(InvalidFormat)
      else ToClosing(s[2..])
    else if IsPad(s[0]) || s[0] == CR then
      match LineEnd(s, ending, IncompleteStream)
      case Ok(after) => ToHeaders(after)
      case Err(e) => Wrong(e)
    else Wrong(InvalidFormat)
  }

  function Epilogue(rest: seq<Byte>, ending: Ending): Last {
    if rest != [] then Failed(StreamPartNotLast)
    else if ending.AtEnd? then Finished
    else Failed(ending.error)
  }

  function Closing(rest: seq<Byte>, ending: Ending): Last {
    match LineEnd(rest, ending, IncompleteStream)
    case Ok(after) => Epilogue(after, ending)
    case Err(e) => Failed(e)
  }

  /** The header block at the front of `rest`. */
  function BlockAt(cfg: Config, rest: seq<Byte>, ending: Ending): Result<HeaderBlock> {
    match EndOfHeaderBlock(rest, ending, cfg.maxBufferSize)
    case Ok(end) => ParseHeaderBlock(cfg.lib, rest[..end])
    case Err(e) => Err(e)
  }

  lemma BlockAtInside(cfg: Config, rest: seq<Byte>, ending: Ending)
    requires cfg.lib.Bounded()
    ensures BlockAt(cfg, rest, ending).Ok? ==>
              BlockAt(cfg, rest, ending).value.Inside(|rest|) && BlockAt(cfg, rest, ending).value.next == 0
  {
    var end := EndOfHeaderBlock(rest, ending, cfg.maxBufferSize);
    if end.Ok? {
      ParsedBlockInside(cfg.lib, rest[..end.value]);
    }
  }

  /** The body from the end of a `--boundary` on. */
  function FromBoundary(cfg: Config, lenient: bool, rest: seq<Byte>, ending: Ending): Outcome
    decreases |rest|, 4
  {
    FromTurn(cfg, lenient, BoundaryLine(lenient, rest, ending), ending)
  }

  function FromTurn(cfg: Config, lenient: bool, t: Turn, ending: Ending): Outcome
    decreases if t.Wrong? then 0 else |t.rest|, 3
  {
    match t
    case Wrong(e) => Outcome([], Failed(e))
    case ToClosing(s) => Outcome([], Closing(s, ending))
    case ToHeaders(s) => FromHeaders(cfg, lenient, s, ending)
  }

  /**
   * The body from the start of a part's header block on, for a client that reads the fields: a name
   * that is not UTF-8 ends the walk. The block lies inside `rest` whenever the header library hands out
   * slices of what it was given.
   */
  function FromHeaders(cfg: Config, lenient: bool, rest: seq<Byte>, ending: Ending): Outcome
    decreases |rest|, 2
  {
    match BlockAt(cfg, rest, ending)
    case Err(e) => Outcome([], Failed(e))
    case Ok(block) =>
      if block.Inside(|rest|) && cfg.lib.ReadsNames(FieldsOf(rest, block.spans)) then
        FromData(cfg, lenient, FieldsOf(rest, block.spans), rest[block.dataStart..], ending)
      else Outcome([], Failed(InvalidFormat))
  }

  /** The body from some part's data on; `fields` are that part's fields. */
  function FromData(cfg: Config, lenient: bool, fields: seq<Field>, rest: seq<Byte>, ending: Ending): Outcome
    decreases |rest|, 1
  {
    match Find(rest, cfg.Delim())
    case None => Outcome([], Failed(ending.Cut(IncompleteStream)))
    case Some(i) =>
      var more := FromBoundary(cfg, lenient, rest[i + |cfg.Delim()|..], ending);
      Outcome([PartValue(fields, rest[..i])] + more.parts, more.last)
  }

  /** The whole body. */
  function OneShot(cfg: Config, lenient: bool, body: seq<Byte>, ending: Ending): Outcome {
    match AfterNeedle(body, cfg.First())
    case None => Outcome([], Failed(ending.Cut(InvalidFormat)))
    case Some(rest) => FromBoundary(cfg, lenient, rest, ending)
  }
}
