/** The verdict of a strictly closed stream, said of the bytes ahead of it. */
module Trailers {
  import opened Bytes
  import opened Errors
  import opened Stream
  import opened Delimiter
  import opened Grammar
  import opened Machine
  import opened Refinement
  import opened Walks
  import opened Taken
  import opened RoundTrip

  /** The data, the last separator, dashes, padding and a line end. */
  ghost predicate ClosedAfter(boundary: seq<Byte>, rest: seq<Byte>, data: seq<Byte>) {
    Free(data, Separator(boundary)) && exists closing :: ClosesWith(boundary, rest, data, closing)
  }

  predicate ClosesWith(boundary: seq<Byte>, rest: seq<Byte>, data: seq<Byte>, closing: seq<Byte>) {
    Pads(closing) && rest == data + Separator(boundary) + ([45, 45] + closing + [13, 10])
  }

  /** What follows the closing dashes and their padding. */
  function TailVerdict(tail: seq<Byte>, ending: Ending): Last {
    if tail == [] || tail == [13] then Failed(ending.Cut(IncompleteStreamPart))
    else if tail[0] != 13 || tail[1] != 10 then Failed(InvalidFormat)
    else AfterClosing(tail[2..], ending)
  }

  lemma TailIs(closing: seq<Byte>, tail: seq<Byte>, ending: Ending)
    requires Pads(closing) && (tail != [] ==> tail[0] !in [32, 9])
    ensures CrlfEnd(closing + tail, ending) == TailVerdict(tail, ending)
  {
    hide PadLen;
    PadsCounted(closing, tail);
    assert (closing + tail)[|closing|..] == tail;
  }

  /** What follows a separator. */
  lemma TrailerIs(back: seq<Byte>, ending: Ending)
    ensures |back| < 2 ==>
              TrailerEnd(AfterBoundary, back, ending) == Failed(ending.Cut(IncompleteStreamPart))
    ensures |back| >= 2 && back[..2] != [45, 45] ==>
              TrailerEnd(AfterBoundary, back, ending) ==
              Failed(if back[0] in [13, 32, 9] then StreamPartNotLast else InvalidFormat)
    ensures |back| >= 2 && back[..2] == [45, 45] ==>
              TrailerEnd(AfterBoundary, back, ending) == CrlfEnd(back[2..], ending)
  {
    hide CrlfEnd;
    if |back| >= 2 {
      assert back[..2] == [back[0], back[1]];
    }
  }

  /** How a closed stream ends when this follows the data's separator. */
  ghost predicate Verdict(back: seq<Byte>, ending: Ending, last: Last) {
    if |back| < 2 then last == Failed(ending.Cut(IncompleteStreamPart))
    else if back[..2] != [45, 45] then
      last == Failed(if back[0] in [13, 32, 9] then StreamPartNotLast else InvalidFormat)
    else forall closing, tail :: Padded(back, closing, tail) ==> last == TailVerdict(tail, ending)
  }

  predicate Padded(back: seq<Byte>, closing: seq<Byte>, tail: seq<Byte>) {
    back == [45, 45] + closing + tail && Pads(closing) && (tail != [] ==> tail[0] !in [32, 9])
  }

  lemma TrailerVerdict(back: seq<Byte>, ending: Ending)
    ensures Verdict(back, ending, TrailerEnd(AfterBoundary, back, ending))
  {
    hide CrlfEnd, TailVerdict, TrailerEnd, Pads;
    TrailerIs(back, ending);
    forall closing, tail | Padded(back, closing, tail)
      ensures TrailerEnd(AfterBoundary, back, ending) == TailVerdict(tail, ending)
    {
      assert back[..2] == [45, 45] && back[2..] == closing + tail;
      TailIs(closing, tail, ending);
    }
  }

  lemma DrainedAt(cfg: Config, rest: seq<Byte>, data: seq<Byte>, back: seq<Byte>, ending: Ending)
    requires ValidBoundary(cfg.boundary) && rest == data + Separator(cfg.boundary) + back
    requires Free(data, Separator(cfg.boundary))
    ensures StrictDrain(cfg.Delim(), Data, rest, ending) == Drained(data, TrailerEnd(AfterBoundary, back, ending))
  {
    hide Find, TrailerEnd, Free, ValidBoundary;
    SeparatorShape(cfg.boundary);
    var sep := Separator(cfg.boundary);
    SeamBehindData(data, sep, back);
    assert rest[..|data|] == data && rest[|data| + |sep|..] == back;
  }

  /**
   * Taking the data of a part and closing it strictly, said of the bytes ahead: the separator that first
   * ends the data must be followed by dashes, padding and a line end, and nothing else.
   */
  lemma StrictVerdict(p: Parser, data: seq<Byte>, back: seq<Byte>)
    requires Inv(p) && p.state == ReadingPartData && ValidBoundary(p.cfg.boundary)
    requires p.buffer.Rest() == data + Separator(p.cfg.boundary) + back && Free(data, Separator(p.cfg.boundary))
    ensures Take(p).Valid()
    ensures var d := DrainAll(Take(p).IntoFinal());
            && Verdict(back, p.buffer.source.Ending(), d.last)
            && (d.last == Finished ==> d.data == data)
  {
    hide Source.Bytes, Source.Ending, Source.Smooth, DrainAll, StrictDrain, TrailerEnd, Verdict, Free, ValidBoundary;
    DrainAllDrains(Take(p).IntoFinal());
    DrainedAt(p.cfg, p.buffer.Rest(), data, back, p.buffer.source.Ending());
    TrailerVerdict(back, p.buffer.source.Ending());
  }

  /** Without a separator ahead the data never end. */
  lemma NoSeparator(p: Parser)
    requires Inv(p) && p.state == ReadingPartData && Free(p.buffer.Rest(), Separator(p.cfg.boundary))
    ensures Take(p).Valid()
    ensures DrainAll(Take(p).IntoFinal()).last == Failed(p.buffer.source.Ending().Cut(IncompleteStreamPart))
  {
    hide Source.Bytes, Source.Ending, Source.Smooth, DrainAll, Find;
    DrainAllDrains(Take(p).IntoFinal());
    FindIsLeftmost(p.buffer.Rest(), p.cfg.Delim());
  }

  /**
   * However much is read before the stream is made strict, draining it succeeds exactly when the bytes
   * ahead are data, the separator and the closing, up to the end; and it gives just those data.
   */
  lemma StrictExactly(p: Parser, n: nat)
    requires Inv(p) && p.state == ReadingPartData && ValidBoundary(p.cfg.boundary)
    ensures (PollSomeKeeps(Take(p), n);
             var (front, t) := PollSome(Take(p), n);
             var d := DrainAll(t.IntoFinal());
             var rest := p.buffer.Rest();
             && (d.last == Finished <==>
                 p.buffer.source.Ending().AtEnd? && exists data :: ClosedAfter(p.cfg.boundary, rest, data))
             && forall data | d.last == Finished && ClosedAfter(p.cfg.boundary, rest, data) :: front + d.data == data)
  {
    hide Source.Bytes, Source.Ending, Source.Smooth, DrainAll, StrictDrain, PollSome, ClosedAfter, ValidBoundary;
    PollSomeKeeps(Take(p), n);
    var (front, t) := PollSome(Take(p), n);
    DrainAllDrains(t.IntoFinal());
    var rest, ending := p.buffer.Rest(), p.buffer.source.Ending();
    forall data | ClosedAfter(p.cfg.boundary, rest, data)
      ensures StrictDrain(p.cfg.Delim(), Data, rest, ending).last == AfterClosing([], ending)
      ensures StrictDrain(p.cfg.Delim(), Data, rest, ending).data == data
    {
      ClosedDrains(p.cfg, rest, data, ending);
    }
    if StrictDrain(p.cfg.Delim(), Data, rest, ending).last == Finished {
      DrainsClosed(p.cfg, rest, ending);
    }
  }

  lemma ClosedDrains(cfg: Config, rest: seq<Byte>, data: seq<Byte>, ending: Ending)
    requires ValidBoundary(cfg.boundary) && ClosedAfter(cfg.boundary, rest, data)
    ensures StrictDrain(cfg.Delim(), Data, rest, ending) == Drained(data, AfterClosing([], ending))
  {
    hide StrictDrain, TrailerEnd, Free, ValidBoundary;
    var closing :| ClosesWith(cfg.boundary, rest, data, closing);
    var back := [45, 45] + closing + [13, 10];
    DrainedAt(cfg, rest, data, back, ending);
    TrailerVerdict(back, ending);
    assert back[..2] == [45, 45];
    assert Padded(back, closing, [13, 10]);
    assert TailVerdict([13, 10], ending) == AfterClosing([], ending) by { assert [13, 10][2..] == []; }
  }

  lemma DrainsClosed(cfg: Config, rest: seq<Byte>, ending: Ending)
    requires ValidBoundary(cfg.boundary) && StrictDrain(cfg.Delim(), Data, rest, ending).last == Finished
    ensures ending.AtEnd? && ClosedAfter(cfg.boundary, rest, StrictDrain(cfg.Delim(), Data, rest, ending).data)
  {
    hide Find, TrailerEnd, Free, ValidBoundary, LineEnd;
    SeparatorShape(cfg.boundary);
    var sep, i := Separator(cfg.boundary), Find(rest, cfg.Delim()).value;
    var data, back := rest[..i], rest[i + |sep|..];
    FirstPlace(rest, sep, i);
    assert rest == data + sep + back;
    SeamBehindData(data, sep, back);
    TrailerIs(back, ending);
    var closing := ClosedBack(back[2..], ending);
    assert back == [45, 45] + back[2..];
    assert back == [45, 45] + closing + [13, 10];
    assert ClosesWith(cfg.boundary, rest, data, closing);
  }

  lemma ClosedBack(rest: seq<Byte>, ending: Ending) returns (closing: seq<Byte>)
    requires CrlfEnd(rest, ending) == Finished
    ensures ending.AtEnd? && Pads(closing) && rest == closing + [13, 10]
  {
    hide LineEnd;
    closing := LineEndWritten(rest, ending, IncompleteStreamPart);
    assert closing + [13, 10] + [] == closing + [13, 10];
  }
}
