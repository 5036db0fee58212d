/** Bodies that are not accepted: cut short, with a boundary line gone wrong, or with too large a header. */
module Truncation {
  import opened Bytes
  import opened Errors
  import opened Stream
  import opened Delimiter
  import opened Headers
  import opened Grammar
  import opened Lines
  import opened Refinement
  import opened Walks
  import opened Resumptions
  import opened RoundTrip

  // ----- Cut bodies

  /** The reader still wanted bytes; a limit of 0 is exceeded by the first byte of a header block. */
  predicate WantsMore(cfg: Config, ending: Ending, last: Last) {
    || last == Failed(ending.Cut(IncompleteStream))
    || (cfg.maxBufferSize == 0 && last == Failed(HeaderSizeExceeded(0)))
  }

  /** A cut text gives some of the values and then wants more. */
  predicate CutShort(cfg: Config, ending: Ending, cut: Outcome, values: seq<PartValue>) {
    cut.parts <= values && WantsMore(cfg, ending, cut.last)
  }

  lemma PadLenCut(rest: seq<Byte>, k: nat)
    requires k <= |rest|
    ensures PadLen(rest[..k]) == if PadLen(rest) <= k then PadLen(rest) else k
  {
    hide PadLen;
    PadLenIs(rest[..k], if PadLen(rest) <= k then PadLen(rest) else k);
  }

  lemma LineEndCut(rest: seq<Byte>, k: nat, ending: Ending)
    requires LineEnd(rest, AtEnd, IncompleteStream).Ok? && k < |rest|
    ensures var c := |rest| - |LineEnd(rest, AtEnd, IncompleteStream).value|;
            && LineEnd(rest, AtEnd, IncompleteStream).value == rest[c..]
            && LineEnd(rest[..k], ending, IncompleteStream) ==
               if k < c then Err(ending.Cut(IncompleteStream)) else Ok(rest[c..k])
  {
    hide PadLen;
    PadLenCut(rest, k);
    var n := PadLen(rest);
    assert rest[n..][2..] == rest[n + 2..];
    if n < k {
      assert rest[..k][n..] == rest[n..k];
      assert k >= n + 2 ==> rest[n..k][2..] == rest[n + 2..k];
    }
  }

  lemma LineCut(rest: seq<Byte>, k: nat, ending: Ending)
    requires !BoundaryLine(false, rest, AtEnd).Wrong? && k < |rest|
    ensures var t := BoundaryLine(false, rest, AtEnd);
            var c := |rest| - |t.rest|;
            && t.rest == rest[c..]
            && BoundaryLine(false, rest[..k], ending) ==
               if k < c then Wrong(ending.Cut(IncompleteStream)) else t.(rest := rest[c..k])
  {
    hide LineEnd, PadLen;
    if rest[0] != DASH {
      LineEndCut(rest, k, ending);
    }
  }

  lemma BlockCut(cfg: Config, rest: seq<Byte>, k: nat, ending: Ending)
    requires cfg.lib.Bounded() && BlockAt(cfg, rest, AtEnd).Ok? && k < |rest|
    ensures || BlockAt(cfg, rest[..k], ending) == BlockAt(cfg, rest, AtEnd)
            || (BlockAt(cfg, rest[..k], ending).Err?
                && WantsMore(cfg, ending, Failed(BlockAt(cfg, rest[..k], ending).error)))
    ensures BlockAt(cfg, rest[..k], ending).Ok? ==> BlockAt(cfg, rest, AtEnd).value.Inside(k)
  {
    hide Find, ParseHeaderBlock;
    var end, front := EndOfHeaderBlock(rest, AtEnd, cfg.maxBufferSize).value, rest[..k];
    assert k >= 2 ==> front[..2] == rest[..2];
    if end <= k {
      BlockInFront(cfg, rest, k);
      assert front[..end] == rest[..end];
    } else if !StartsWith(rest, CRLF) {
      NoneInFront(rest, CRLF + CRLF, k);
    } else {
      FindIsLeftmost(front, CRLF + CRLF);
    }
  }

  lemma NoneInFront(hay: seq<Byte>, needle: seq<Byte>, k: nat)
    requires k <= |hay| && needle != []
    requires Find(hay, needle).Some? && k < Find(hay, needle).value + |needle|
    ensures Find(hay[..k], needle).None?
  {
    FindIsLeftmost(hay, needle);
    FindIsLeftmost(hay[..k], needle);
    var front, back := hay[..k], hay[k..];
    assert hay == front + back;
    if j :| 0 <= j && OccursAt(front, needle, j) {
      OccursInPrefix(front, back, needle, j);
    }
  }

  lemma {:induction false} TextCut(cfg: Config, rest: seq<Byte>, k: nat, ending: Ending)
    requires cfg.lib.Bounded() && FromBoundary(cfg, false, rest, AtEnd).last == Finished && k < |rest|
    ensures CutShort(cfg, ending, FromBoundary(cfg, false, rest[..k], ending),
                     FromBoundary(cfg, false, rest, AtEnd).parts)
    decreases |rest|, 1
  {
    hide PadLen, BoundaryLine, FromBoundary, FromHeaders, LineEnd;
    BoundaryTaken(cfg, false, rest, AtEnd);
    BoundaryTaken(cfg, false, rest[..k], ending);
    LineCut(rest, k, ending);
    var t := BoundaryLine(false, rest, AtEnd);
    var c := |rest| - |t.rest|;
    if k >= c {
      assert rest[c..k] == t.rest[..k - c];
      if t.ToClosing? {
        LineEndCut(t.rest, k - c, ending);
      } else {
        PartCut(cfg, t.rest, k - c, ending);
      }
    }
  }

  lemma {:induction false} PartCut(cfg: Config, rest: seq<Byte>, k: nat, ending: Ending)
    requires cfg.lib.Bounded() && FromHeaders(cfg, false, rest, AtEnd).last == Finished && k < |rest|
    ensures CutShort(cfg, ending, FromHeaders(cfg, false, rest[..k], ending),
                     FromHeaders(cfg, false, rest, AtEnd).parts)
    decreases |rest|, 0
  {
    hide FromBoundary, FromHeaders, BlockAt, Find, FieldsOf, HeaderLib.ReadsNames;
    PartFails(cfg, false, rest, AtEnd);
    PartFails(cfg, false, rest[..k], ending);
    BlockAtInside(cfg, rest, AtEnd);
    var block := BlockAt(cfg, rest, AtEnd).value;
    PartUnfolds(cfg, false, rest, AtEnd, block);
    BlockCut(cfg, rest, k, ending);
    if BlockAt(cfg, rest[..k], ending).Ok? {
      DataCut(cfg, rest, block, k, ending);
    }
  }

  lemma {:induction false} DataCut(cfg: Config, rest: seq<Byte>, block: HeaderBlock, k: nat, ending: Ending)
    requires cfg.lib.Bounded() && FromHeaders(cfg, false, rest, AtEnd).last == Finished && k < |rest|
    requires BlockAt(cfg, rest, AtEnd) == BlockAt(cfg, rest[..k], ending) == Ok(block)
    requires block.Inside(|rest|) && block.Inside(k) && cfg.lib.ReadsNames(FieldsOf(rest, block.spans))
    ensures CutShort(cfg, ending, FromHeaders(cfg, false, rest[..k], ending),
                     FromHeaders(cfg, false, rest, AtEnd).parts)
    decreases |rest|, 0, 0
  {
    hide FromBoundary, FromHeaders, BlockAt, Find, FieldsOf, HeaderLib.ReadsNames;
    PartUnfolds(cfg, false, rest, AtEnd, block);
    var front, data := rest[..k], rest[block.dataStart..];
    assert front + rest[k..] == rest;
    SameFields(front, rest[k..], block.spans);
    PartUnfolds(cfg, false, front, ending, block);
    var k1 := k - block.dataStart;
    assert front[block.dataStart..] == data[..k1];
    var i := Find(data, cfg.Delim()).value;
    var n := i + |cfg.Delim()|;
    if n <= k1 {
      FindInFront(data, cfg.Delim(), k1);
      assert data[..k1][n..] == data[n..][..k1 - n];
      assert data[..k1][..i] == data[..i];
      TextCut(cfg, data[n..], k1 - n, ending);
    } else {
      NoneInFront(data, cfg.Delim(), k1);
    }
  }

  /**
   * Every proper front part of an accepted body fails, however the stream stops there: with
   * `InvalidFormat` in front of the end of the first `--boundary`, and wanting more behind it. The
   * parts handed out before the failure are parts of the body.
   */
  lemma Truncated(
    cfg: Config, body: seq<Byte>, preamble: seq<Byte>, parts: seq<WrittenPart>, closing: seq<Byte>,
    values: seq<PartValue>, k: nat, ending: Ending)
    requires ValidBoundary(cfg.boundary) && cfg.lib.Bounded()
    requires WrittenAs(cfg, body, preamble, parts, closing, values) && k < |body|
    ensures var cut := OneShot(cfg, false, body[..k], ending);
            if k < |preamble| + 2 + |cfg.boundary| then cut == Outcome([], Failed(ending.Cut(InvalidFormat)))
            else CutShort(cfg, ending, cut, values)
  {
    hide FromBoundary, Find, Says, Text, WantsMore, ValidBoundary;
    var text, n := Text(cfg.boundary, parts, closing), |preamble| + 2 + |cfg.boundary|;
    AfterPreamble(cfg, body, preamble, text);
    SeparatorShape(cfg.boundary);
    FirstPlace(body, Dashes(cfg.boundary), |preamble|);
    if k < n {
      NoneInFront(body, cfg.First(), k);
    } else {
      TextParses(cfg, false, parts, closing, values, [], AtEnd);
      assert text + [] == text;
      FindInFront(body, cfg.First(), k);
      assert body[n..] == text;
      assert body[..k][n..] == text[..k - n];
      TextCut(cfg, text, k - n, ending);
    }
  }

  // ----- Lines gone wrong, and blocks too large

  /** A boundary must be followed by padding, a line end or two dashes. */
  lemma WrongLine(cfg: Config, lenient: bool, preamble: seq<Byte>, rest: seq<Byte>, ending: Ending)
    requires ValidBoundary(cfg.boundary)
    requires BarrenBefore(preamble + Dashes(cfg.boundary) + rest, Dashes(cfg.boundary), |preamble|)
    requires || (rest != [] && rest[0] !in [45, 32, 9, 13])
             || (|rest| >= 2 && rest[0] == 45 && rest[1] != 45)
             || (|rest| >= 2 && rest[0] == 13 && rest[1] != 10)
    ensures OneShot(cfg, lenient, preamble + Dashes(cfg.boundary) + rest, ending) ==
            Outcome([], Failed(InvalidFormat))
  {
    hide Find, FromBoundary;
    AfterPreamble(cfg, preamble + Dashes(cfg.boundary) + rest, preamble, rest);
    BoundaryTaken(cfg, lenient, rest, ending);
    assert PadLen(rest) == 0 && rest[0..] == rest;
  }

  /** A header block whose blank line does not end within the limit is too large. */
  lemma TooLarge(cfg: Config, lenient: bool, preamble: seq<Byte>, pad: seq<Byte>, rest: seq<Byte>, ending: Ending)
    requires ValidBoundary(cfg.boundary) && Pads(pad)
    requires BarrenBefore(preamble + Dashes(cfg.boundary) + (pad + [13, 10] + rest),
                          Dashes(cfg.boundary), |preamble|)
    requires |rest| >= 2 && rest[..2] != [13, 10] && |rest| > cfg.maxBufferSize
    requires BarrenBefore(rest, [13, 10, 13, 10], cfg.maxBufferSize - 3)
    ensures OneShot(cfg, lenient, preamble + Dashes(cfg.boundary) + (pad + [13, 10] + rest), ending) ==
            Outcome([], Failed(HeaderSizeExceeded(cfg.maxBufferSize)))
  {
    hide Find, FromBoundary, FromHeaders, PadLen, BoundaryLine;
    var line := pad + [13, 10] + rest;
    AfterPreamble(cfg, preamble + Dashes(cfg.boundary) + line, preamble, line);
    WrittenHeaderLine(lenient, pad, rest, ending);
    BoundaryTaken(cfg, lenient, line, ending);
    FindIsLeftmost(rest, [13, 10, 13, 10]);
    assert CRLF + CRLF == [13, 10, 13, 10];
    PartFails(cfg, lenient, rest, ending);
  }
}
