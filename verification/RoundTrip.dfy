/**
 * Bodies written out byte by byte, as section 5.1.1 of RFC 2046 describes them: exactly these are
 * accepted, and what becomes of them when they are cut short or continued.
 */
module RoundTrip {
  import opened Bytes
  import opened Errors
  import opened Stream
  import opened Delimiter
  import opened Headers
  import opened Grammar
  import opened Lines
  import opened Refinement
  import opened Walks
  import opened Deliveries
  import opened Resumptions

  // ----- The format, in bytes

  /** `--boundary` */
  function Dashes(boundary: seq<Byte>): seq<Byte> {
    [45, 45] + boundary
  }

  /** CR LF `--boundary` */
  function Separator(boundary: seq<Byte>): seq<Byte> {
    [13, 10, 45, 45] + boundary
  }

  /** Spaces and tabs. */
  predicate Pads(s: seq<Byte>) {
    forall i :: 0 <= i < |s| ==> s[i] == 32 || s[i] == 9
  }

  /** `needle` stands nowhere in `hay`. */
  ghost predicate Free(hay: seq<Byte>, needle: seq<Byte>) {
    forall i :: !OccursAt(hay, needle, i)
  }

  /** A part as written: padding of its boundary line, header bytes up to its data, and data. */
  datatype WrittenPart = WrittenPart(padding: seq<Byte>, head: seq<Byte>, data: seq<Byte>)

  /** What follows a `--boundary`: the remaining parts, then the closing dashes, padding and a line end. */
  function Text(boundary: seq<Byte>, parts: seq<WrittenPart>, closing: seq<Byte>): seq<Byte>
    decreases |parts|, 1
  {
    if parts == [] then [45, 45] + closing + [13, 10]
    else parts[0].padding + [13, 10] + AfterLine(boundary, parts, closing)
  }

  /** From the first part's header bytes on. */
  function AfterLine(boundary: seq<Byte>, parts: seq<WrittenPart>, closing: seq<Byte>): seq<Byte>
    requires parts != []
    decreases |parts|, 0
  {
    parts[0].head + (parts[0].data + Separator(boundary) + Text(boundary, parts[1..], closing))
  }

  function Body(boundary: seq<Byte>, preamble: seq<Byte>, parts: seq<WrittenPart>, closing: seq<Byte>): seq<Byte> {
    preamble + Dashes(boundary) + Text(boundary, parts, closing)
  }

  /** A header block ends with a line end in front, or with the first blank line, within the limit. */
  ghost predicate BlockEnds(rest: seq<Byte>, max: nat, end: nat) {
    if |rest| >= 2 && rest[..2] == [13, 10] then end == 2
    else
      && 4 <= end <= |rest| && end <= max && rest[end - 4..end] == [13, 10, 13, 10]
      && BarrenBefore(rest, [13, 10, 13, 10], end - 4)
  }

  /** `rest` starts with a header block that parses to `block`, and every name in it is readable. */
  ghost predicate StartsWithBlock(cfg: Config, rest: seq<Byte>, block: HeaderBlock)
    ensures StartsWithBlock(cfg, rest, block) ==>
              block.Inside(|rest|) && cfg.lib.ReadsNames(FieldsOf(rest, block.spans))
  {
    && (exists end: nat ::
          BlockEnds(rest, cfg.maxBufferSize, end) && ParseHeaderBlock(cfg.lib, rest[..end]) == Ok(block))
    && block.Inside(|rest|)
    && cfg.lib.ReadsNames(FieldsOf(rest, block.spans))
  }

  /** The parts are well written and say `values`. */
  ghost predicate Says(cfg: Config, parts: seq<WrittenPart>, closing: seq<Byte>, values: seq<PartValue>)
    decreases |parts|
  {
    if parts == [] then values == [] && Pads(closing)
    else
      var rest := AfterLine(cfg.boundary, parts, closing);
      && Pads(parts[0].padding)
      && Free(parts[0].data, Separator(cfg.boundary))
      && (exists block: HeaderBlock ::
            && StartsWithBlock(cfg, rest, block) && block.dataStart == |parts[0].head|
            && values != [] && values[0] == PartValue(FieldsOf(rest, block.spans), parts[0].data))
      && Says(cfg, parts[1..], closing, values[1..])
  }

  // ----- Searching across a seam

  lemma FirstPlace(hay: seq<Byte>, needle: seq<Byte>, k: nat)
    ensures Find(hay, needle) == Some(k) <==> OccursAt(hay, needle, k) && BarrenBefore(hay, needle, k)
  {
    FindIsLeftmost(hay, needle);
    if OccursAt(hay, needle, k) && BarrenBefore(hay, needle, k) {
      FindIs(hay, needle, k);
    }
  }

  lemma SeparatorShape(boundary: seq<Byte>)
    requires ValidBoundary(boundary)
    ensures Separator(boundary) == MakeDelimiter(boundary) && Dashes(boundary) == MakeFirstBoundary(boundary)
    ensures var d := Separator(boundary); d[0] == 13 && forall i :: 0 < i < |d| ==> d[i] != 13
    ensures var f := Dashes(boundary); forall i :: 0 <= i < |f| ==> f[i] != 10
  {
    DelimiterShape(boundary);
  }

  /** A separator first occurs right behind data exactly when the data do not hold it. */
  lemma SeamBehindData(data: seq<Byte>, needle: seq<Byte>, back: seq<Byte>)
    requires needle != [] && forall i :: 0 < i < |needle| ==> needle[i] != needle[0]
    ensures Find(data + needle + back, needle) == Some(|data|) <==> Free(data, needle)
  {
    var hay := data + needle + back;
    assert hay == data + (needle + back);
    assert hay[|data|..|data| + |needle|] == needle;
    FirstPlace(hay, needle, |data|);
    forall j | 0 <= j < |data| ensures OccursAt(hay, needle, j) <==> OccursAt(data, needle, j) {
      if j + |needle| <= |data| {
        OccursInPrefix(data, needle + back, needle, j);
      } else if j + |needle| <= |hay| {
        assert hay[j..j + |needle|][|data| - j] == needle[0];
      }
    }
  }

  // ----- Lines

  lemma PadsCounted(pad: seq<Byte>, back: seq<Byte>)
    requires Pads(pad) && (back != [] ==> back[0] != 32 && back[0] != 9)
    ensures PadLen(pad + back) == |pad|
  {
    PadLenIs(pad + back, |pad|);
  }

  lemma WrittenLineEnd(pad: seq<Byte>, back: seq<Byte>, ending: Ending, atEnd: Error)
    requires Pads(pad)
    ensures LineEnd(pad + [13, 10] + back, ending, atEnd) == Ok(back)
  {
    hide PadLen;
    var rest := pad + [13, 10] + back;
    assert rest == pad + ([13, 10] + back);
    PadsCounted(pad, [13, 10] + back);
    assert rest[|pad|..] == [13, 10] + back;
    assert ([13, 10] + back)[2..] == back;
  }

  /** What a line end was read from. */
  lemma LineEndWritten(rest: seq<Byte>, ending: Ending, atEnd: Error) returns (pad: seq<Byte>)
    requires LineEnd(rest, ending, atEnd).Ok?
    ensures Pads(pad) && rest == pad + [13, 10] + LineEnd(rest, ending, atEnd).value
  {
    hide PadLen;
    var n := PadLen(rest);
    pad := rest[..n];
    assert rest == pad + rest[n..];
    assert rest[n..] == [13, 10] + rest[n..][2..];
  }

  lemma WrittenHeaderLine(lenient: bool, pad: seq<Byte>, back: seq<Byte>, ending: Ending)
    requires Pads(pad)
    ensures BoundaryLine(lenient, pad + [13, 10] + back, ending) == ToHeaders(back)
  {
    hide PadLen, LineEnd;
    var rest := pad + [13, 10] + back;
    WrittenLineEnd(pad, back, ending, IncompleteStream);
    assert rest == pad + ([13, 10] + back);
    PadsCounted(pad, [13, 10] + back);
    if lenient {
      assert rest[|pad|..] == [13, 10] + back;
      WrittenLineEnd([], back, ending, IncompleteStream);
      assert [] + [13, 10] + back == [13, 10] + back;
    } else {
      assert pad == [] ==> rest[0] == 13;
      assert pad != [] ==> rest[0] == pad[0];
    }
  }

  lemma WrittenClosingLine(lenient: bool, s: seq<Byte>, ending: Ending)
    ensures BoundaryLine(lenient, [45, 45] + s, ending) == ToClosing(s)
  {
    var rest := [45, 45] + s;
    assert PadLen(rest) == 0 && rest[0..] == rest;
    assert rest[2..] == s;
  }

  // ----- Header blocks

  lemma BlockEndIs(rest: seq<Byte>, ending: Ending, max: nat, end: nat)
    ensures BlockEnds(rest, max, end) <==> EndOfHeaderBlock(rest, ending, max) == Ok(end)
  {
    hide Find;
    assert CRLF + CRLF == [13, 10, 13, 10];
    if !StartsWith(rest, CRLF) {
      var at := Find(rest, CRLF + CRLF);
      if end >= 4 {
        FirstPlace(rest, CRLF + CRLF, end - 4);
      }
      if at.Some? {
        FirstPlace(rest, CRLF + CRLF, at.value);
        assert |rest| >= 4;
      }
    }
  }

  /** The block at the front, whatever follows the bytes that hold it. */
  lemma BlockIs(cfg: Config, rest: seq<Byte>, extra: seq<Byte>, ending: Ending, block: HeaderBlock)
    requires cfg.lib.Bounded() && StartsWithBlock(cfg, rest, block)
    ensures BlockAt(cfg, rest + extra, ending) == Ok(block) && block.Inside(|rest + extra|)
    ensures FieldsOf(rest + extra, block.spans) == FieldsOf(rest, block.spans)
  {
    hide Find, ParseHeaderBlock, EndOfHeaderBlock;
    var end: nat :| BlockEnds(rest, cfg.maxBufferSize, end) && ParseHeaderBlock(cfg.lib, rest[..end]) == Ok(block);
    LongerEnds(rest, extra, cfg.maxBufferSize, end);
    BlockEndIs(rest + extra, ending, cfg.maxBufferSize, end);
    assert (rest + extra)[..end] == rest[..end];
    SameFields(rest, extra, block.spans);
  }

  lemma LongerEnds(rest: seq<Byte>, extra: seq<Byte>, max: nat, end: nat)
    requires BlockEnds(rest, max, end)
    ensures end <= |rest| && BlockEnds(rest + extra, max, end)
  {
    var all, blank: seq<Byte> := rest + extra, [13, 10, 13, 10];
    if |rest| >= 2 {
      assert all[..2] == rest[..2];
    }
    if !(|rest| >= 2 && rest[..2] == [13, 10]) {
      assert all[end - 4..end] == rest[end - 4..end];
      forall i | 0 <= i < end - 4 ensures !OccursAt(all, blank, i) {
        OccursInPrefix(rest, extra, blank, i);
      }
    }
  }

  lemma BlockFound(cfg: Config, rest: seq<Byte>, ending: Ending)
    requires BlockAt(cfg, rest, ending).Ok? && BlockAt(cfg, rest, ending).value.Inside(|rest|)
    requires cfg.lib.ReadsNames(FieldsOf(rest, BlockAt(cfg, rest, ending).value.spans))
    ensures StartsWithBlock(cfg, rest, BlockAt(cfg, rest, ending).value)
  {
    hide ParseHeaderBlock, EndOfHeaderBlock;
    var end := EndOfHeaderBlock(rest, ending, cfg.maxBufferSize).value;
    BlockEndIs(rest, ending, cfg.maxBufferSize, end);
  }

  // ----- Written bodies parse

  /** How the walk ends behind the closing line. */
  function AfterClosing(extra: seq<Byte>, ending: Ending): Last {
    if extra != [] then Failed(StreamPartNotLast)
    else if ending.Broken? then Failed(ending.error)
    else Finished
  }

  lemma ClosingParses(cfg: Config, lenient: bool, closing: seq<Byte>, extra: seq<Byte>, ending: Ending)
    requires Pads(closing)
    ensures FromBoundary(cfg, lenient, Text(cfg.boundary, [], closing) + extra, ending) ==
            Outcome([], AfterClosing(extra, ending))
  {
    hide PadLen, BoundaryLine, LineEnd;
    var rest := closing + [13, 10] + extra;
    assert Text(cfg.boundary, [], closing) + extra == [45, 45] + rest;
    WrittenClosingLine(lenient, rest, ending);
    WrittenLineEnd(closing, extra, ending, IncompleteStream);
    BoundaryTaken(cfg, lenient, [45, 45] + rest, ending);
  }

  lemma LineParses(
    cfg: Config, lenient: bool, parts: seq<WrittenPart>, closing: seq<Byte>, extra: seq<Byte>, ending: Ending)
    requires parts != [] && Pads(parts[0].padding)
    ensures FromBoundary(cfg, lenient, Text(cfg.boundary, parts, closing) + extra, ending) ==
            FromHeaders(cfg, lenient, AfterLine(cfg.boundary, parts, closing) + extra, ending)
  {
    hide PadLen, BoundaryLine, FromBoundary, FromHeaders, AfterLine, Pads;
    var rest, pad := AfterLine(cfg.boundary, parts, closing), parts[0].padding;
    var text := Text(cfg.boundary, parts, closing);
    assert text + extra == pad + [13, 10] + (rest + extra);
    WrittenHeaderLine(lenient, pad, rest + extra, ending);
    BoundaryTaken(cfg, lenient, text + extra, ending);
  }

  lemma {:induction false} TextParses(
    cfg: Config, lenient: bool, parts: seq<WrittenPart>, closing: seq<Byte>, values: seq<PartValue>,
    extra: seq<Byte>, ending: Ending)
    requires ValidBoundary(cfg.boundary) && cfg.lib.Bounded() && Says(cfg, parts, closing, values)
    ensures FromBoundary(cfg, lenient, Text(cfg.boundary, parts, closing) + extra, ending) ==
            Outcome(values, AfterClosing(extra, ending))
    decreases |parts|
  {
    hide FromBoundary, FromHeaders, StartsWithBlock, ValidBoundary, Text, AfterLine, Pads, Free, AfterClosing,
         HeaderLib.Bounded, FieldsOf, Separator;
    if parts == [] {
      ClosingParses(cfg, lenient, closing, extra, ending);
    } else {
      LineParses(cfg, lenient, parts, closing, extra, ending);
      TextParses(cfg, lenient, parts[1..], closing, values[1..], extra, ending);
      PartParses(cfg, lenient, parts, closing, values[0], extra, ending);
      assert values == [values[0]] + values[1..];
    }
  }

  lemma PartParses(
    cfg: Config, lenient: bool, parts: seq<WrittenPart>, closing: seq<Byte>, value: PartValue,
    extra: seq<Byte>, ending: Ending)
    requires ValidBoundary(cfg.boundary) && cfg.lib.Bounded() && parts != []
    requires Free(parts[0].data, Separator(cfg.boundary))
    requires var rest := AfterLine(cfg.boundary, parts, closing);
             exists block: HeaderBlock ::
               && StartsWithBlock(cfg, rest, block) && block.dataStart == |parts[0].head|
               && value == PartValue(FieldsOf(rest, block.spans), parts[0].data)
    ensures FromHeaders(cfg, lenient, AfterLine(cfg.boundary, parts, closing) + extra, ending) ==
            Preceded(value, FromBoundary(cfg, lenient, Text(cfg.boundary, parts[1..], closing) + extra, ending))
  {
    hide FromBoundary, FromHeaders, BlockAt, Find, FieldsOf, Free, Text, AfterLine, StartsWithBlock, ValidBoundary;
    hide Separator, HeaderLib.ReadsNames, HeaderLib.Bounded;
    var rest := AfterLine(cfg.boundary, parts, closing);
    var block: HeaderBlock :| StartsWithBlock(cfg, rest, block) && block.dataStart == |parts[0].head|
                              && value == PartValue(FieldsOf(rest, block.spans), parts[0].data);
    BlockIs(cfg, rest, extra, ending, block);
    PartUnfolds(cfg, lenient, rest + extra, ending, block);
    BehindHead(cfg.boundary, parts, closing, extra);
    SeparatorShape(cfg.boundary);
    SeamBehindData(parts[0].data, Separator(cfg.boundary), Text(cfg.boundary, parts[1..], closing) + extra);
    Pieces(parts[0].data, Separator(cfg.boundary), Text(cfg.boundary, parts[1..], closing) + extra);
  }

  lemma BehindHead(boundary: seq<Byte>, parts: seq<WrittenPart>, closing: seq<Byte>, extra: seq<Byte>)
    requires parts != []
    ensures var all := AfterLine(boundary, parts, closing) + extra;
            && |parts[0].head| <= |all|
            && all[|parts[0].head|..] ==
               parts[0].data + Separator(boundary) + (Text(boundary, parts[1..], closing) + extra)
  {
    hide Text, Separator;
    var data, sep, text := parts[0].data, Separator(boundary), Text(boundary, parts[1..], closing);
    assert AfterLine(boundary, parts, closing) + extra == parts[0].head + (data + sep + (text + extra));
  }

  lemma Pieces(data: seq<Byte>, sep: seq<Byte>, back: seq<Byte>)
    ensures (data + sep + back)[..|data|] == data && (data + sep + back)[|data| + |sep|..] == back
  {
  }

  // ----- Accepted bodies are written so

  lemma {:induction false} AcceptedText(cfg: Config, rest: seq<Byte>)
    returns (parts: seq<WrittenPart>, closing: seq<Byte>)
    requires ValidBoundary(cfg.boundary) && cfg.lib.Bounded()
    requires FromBoundary(cfg, false, rest, AtEnd).last == Finished
    ensures rest == Text(cfg.boundary, parts, closing)
    ensures Says(cfg, parts, closing, FromBoundary(cfg, false, rest, AtEnd).parts)
    decreases |rest|, 1
  {
    hide PadLen, BoundaryLine, FromBoundary, FromHeaders, LineEnd, StartsWithBlock, Separator;
    BoundaryTaken(cfg, false, rest, AtEnd);
    LineWritten(rest);
    var t := BoundaryLine(false, rest, AtEnd);
    if t.ToClosing? {
      parts := [];
      var pad := LineEndWritten(t.rest, AtEnd, IncompleteStream);
      closing := pad;
      ClosedText(t.rest, closing);
      assert rest == [45, 45] + closing + [13, 10];
    } else {
      var pad := LineEndWritten(rest, AtEnd, IncompleteStream);
      var head, data, more;
      head, data, more, closing := AcceptedPart(cfg, t.rest);
      parts := [WrittenPart(pad, head, data)] + more;
      assert parts[1..] == more;
      assert AfterLine(cfg.boundary, parts, closing) == t.rest;
    }
  }

  /** What a boundary line was read from. */
  lemma LineWritten(rest: seq<Byte>)
    ensures var t := BoundaryLine(false, rest, AtEnd);
            && (t.ToClosing? ==> rest == [45, 45] + t.rest)
            && (t.ToHeaders? ==> LineEnd(rest, AtEnd, IncompleteStream) == Ok(t.rest))
  {
    hide PadLen, LineEnd;
    if |rest| >= 2 {
      assert rest == [rest[0], rest[1]] + rest[2..];
    }
  }

  lemma ClosedText(rest: seq<Byte>, closing: seq<Byte>)
    requires LineEnd(rest, AtEnd, IncompleteStream).Ok? && Closing(rest, AtEnd) == Finished
    requires rest == closing + [13, 10] + LineEnd(rest, AtEnd, IncompleteStream).value
    ensures rest == closing + [13, 10]
  {
    hide LineEnd;
    assert closing + [13, 10] + [] == closing + [13, 10];
  }

  lemma {:induction false} AcceptedPart(cfg: Config, rest: seq<Byte>)
    returns (head: seq<Byte>, data: seq<Byte>, more: seq<WrittenPart>, closing: seq<Byte>)
    requires ValidBoundary(cfg.boundary) && cfg.lib.Bounded()
    requires FromHeaders(cfg, false, rest, AtEnd).last == Finished
    ensures rest == head + (data + Separator(cfg.boundary) + Text(cfg.boundary, more, closing))
    ensures Free(data, Separator(cfg.boundary))
    ensures var values := FromHeaders(cfg, false, rest, AtEnd).parts;
            && values != [] && Says(cfg, more, closing, values[1..])
            && exists block: HeaderBlock ::
                 && StartsWithBlock(cfg, rest, block) && block.dataStart == |head|
                 && values[0] == PartValue(FieldsOf(rest, block.spans), data)
    decreases |rest|, 0
  {
    hide FromBoundary, FromHeaders, BlockAt, Find, FieldsOf, Free, HeaderLib.ReadsNames, StartsWithBlock, Text, Says;
    hide Separator, ValidBoundary, HeaderLib.Bounded;
    PartFails(cfg, false, rest, AtEnd);
    BlockAtInside(cfg, rest, AtEnd);
    var block := BlockAt(cfg, rest, AtEnd).value;
    BlockFound(cfg, rest, AtEnd);
    PartUnfolds(cfg, false, rest, AtEnd, block);
    var after, back;
    head, after := rest[..block.dataStart], rest[block.dataStart..];
    assert rest == head + after;
    SeparatorShape(cfg.boundary);
    data, back := DataFound(after, Separator(cfg.boundary));
    more, closing := AcceptedText(cfg, back);
    var rests := FromBoundary(cfg, false, back, AtEnd).parts;
    assert ([PartValue(FieldsOf(rest, block.spans), data)] + rests)[1..] == rests;
  }

  lemma DataFound(after: seq<Byte>, sep: seq<Byte>) returns (data: seq<Byte>, back: seq<Byte>)
    requires Find(after, sep).Some? && sep != [] && forall i :: 0 < i < |sep| ==> sep[i] != sep[0]
    ensures var i := Find(after, sep).value; data == after[..i] && back == after[i + |sep|..]
    ensures after == data + sep + back && Free(data, sep) && |back| < |after|
  {
    hide Find, Free;
    var i := Find(after, sep).value;
    data, back := after[..i], after[i + |sep|..];
    FirstPlace(after, sep, i);
    assert after == data + sep + back;
    SeamBehindData(data, sep, back);
  }

  // ----- Whole bodies

  /** The body is written with these parts, and its first `--boundary` follows the preamble. */
  ghost predicate WrittenAs(
    cfg: Config, body: seq<Byte>, preamble: seq<Byte>, parts: seq<WrittenPart>, closing: seq<Byte>,
    values: seq<PartValue>)
  {
    && body == Body(cfg.boundary, preamble, parts, closing)
    && BarrenBefore(body, Dashes(cfg.boundary), |preamble|)
    && Says(cfg, parts, closing, values)
  }

  lemma AfterPreamble(cfg: Config, body: seq<Byte>, preamble: seq<Byte>, rest: seq<Byte>)
    requires ValidBoundary(cfg.boundary) && body == preamble + Dashes(cfg.boundary) + rest
    requires BarrenBefore(body, Dashes(cfg.boundary), |preamble|)
    ensures AfterNeedle(body, cfg.First()) == Some(rest)
  {
    hide Find;
    SeparatorShape(cfg.boundary);
    var d := Dashes(cfg.boundary);
    assert body == preamble + (d + rest);
    assert body[|preamble|..|preamble| + |d|] == d;
    FirstPlace(body, d, |preamble|);
    assert body[|preamble| + |d|..] == rest;
  }

  /**
   * Exactly the written bodies are accepted: the strict parse of a whole body ends well with these
   * values if and only if the body is written so.
   */
  lemma AcceptedExactly(cfg: Config, body: seq<Byte>, values: seq<PartValue>)
    requires ValidBoundary(cfg.boundary) && cfg.lib.Bounded()
    ensures OneShot(cfg, false, body, AtEnd) == Outcome(values, Finished) <==>
            exists preamble, parts, closing :: WrittenAs(cfg, body, preamble, parts, closing, values)
  {
    hide WrittenAs, OneShot, ValidBoundary, HeaderLib.Bounded;
    if preamble, parts, closing :| WrittenAs(cfg, body, preamble, parts, closing, values) {
      WrittenAccepted(cfg, body, preamble, parts, closing, values);
    }
    if OneShot(cfg, false, body, AtEnd) == Outcome(values, Finished) {
      var preamble, parts, closing := AcceptedWritten(cfg, body);
    }
  }

  lemma WrittenAccepted(
    cfg: Config, body: seq<Byte>, preamble: seq<Byte>, parts: seq<WrittenPart>, closing: seq<Byte>,
    values: seq<PartValue>)
    requires ValidBoundary(cfg.boundary) && cfg.lib.Bounded()
    requires WrittenAs(cfg, body, preamble, parts, closing, values)
    ensures OneShot(cfg, false, body, AtEnd) == Outcome(values, Finished)
  {
    hide FromBoundary, Find, Says, Text, ValidBoundary, HeaderLib.Bounded;
    var text := Text(cfg.boundary, parts, closing);
    AfterPreamble(cfg, body, preamble, text);
    TextParses(cfg, false, parts, closing, values, [], AtEnd);
    assert text + [] == text;
  }

  lemma AcceptedWritten(cfg: Config, body: seq<Byte>)
    returns (preamble: seq<Byte>, parts: seq<WrittenPart>, closing: seq<Byte>)
    requires ValidBoundary(cfg.boundary) && cfg.lib.Bounded()
    requires OneShot(cfg, false, body, AtEnd).last == Finished
    ensures WrittenAs(cfg, body, preamble, parts, closing, OneShot(cfg, false, body, AtEnd).parts)
  {
    hide FromBoundary, Find, Says, Text, ValidBoundary, HeaderLib.Bounded;
    SeparatorShape(cfg.boundary);
    var d := Dashes(cfg.boundary);
    var at := Find(body, d).value;
    var rest := body[at + |d|..];
    FirstPlace(body, d, at);
    preamble := body[..at];
    parts, closing := AcceptedText(cfg, rest);
    assert body == preamble + d + rest;
  }

  /**
   * Print, then parse: a written body, continued by `extra` and ended in any way, gives its values, in
   * both readings; then it ends, or complains of the extra bytes, or of the stream's failure.
   */
  lemma PrintThenParse(
    cfg: Config, lenient: bool, preamble: seq<Byte>, parts: seq<WrittenPart>, closing: seq<Byte>,
    values: seq<PartValue>, extra: seq<Byte>, ending: Ending)
    requires ValidBoundary(cfg.boundary) && cfg.lib.Bounded() && Says(cfg, parts, closing, values)
    requires BarrenBefore(Body(cfg.boundary, preamble, parts, closing), Dashes(cfg.boundary), |preamble|)
    ensures OneShot(cfg, lenient, Body(cfg.boundary, preamble, parts, closing) + extra, ending) ==
            Outcome(values, AfterClosing(extra, ending))
  {
    hide FromBoundary, Find, Says, Text;
    var body, text := Body(cfg.boundary, preamble, parts, closing), Text(cfg.boundary, parts, closing);
    var d := Dashes(cfg.boundary);
    TextParses(cfg, lenient, parts, closing, values, extra, ending);
    assert body + extra == preamble + d + (text + extra);
    forall i | 0 <= i < |preamble| ensures !OccursAt(body + extra, d, i) {
      assert |preamble| + |d| <= |body|;
      OccursInPrefix(body, extra, d, i);
    }
    AfterPreamble(cfg, body + extra, preamble, text + extra);
  }

  /** A preamble of whole lines that does not hold `--boundary` is as good as none. */
  lemma LinesBefore(boundary: seq<Byte>, preamble: seq<Byte>, rest: seq<Byte>)
    requires ValidBoundary(boundary) && Free(preamble, Dashes(boundary))
    requires preamble == [] || preamble[|preamble| - 1] == 10
    ensures BarrenBefore(preamble + Dashes(boundary) + rest, Dashes(boundary), |preamble|)
  {
    var d := Dashes(boundary);
    var body := preamble + d + rest;
    SeparatorShape(boundary);
    assert body == preamble + (d + rest);
    forall i | 0 <= i < |preamble| ensures !OccursAt(body, d, i) {
      if i + |d| <= |preamble| {
        OccursInPrefix(preamble, d + rest, d, i);
      } else {
        var k := |preamble| - 1 - i;
        assert d[k] != 10;
        if i + |d| <= |body| {
          assert body[i..i + |d|][k] == preamble[|preamble| - 1];
        }
      }
    }
  }

  /** However a written body is delivered, reading it gives back exactly its values. */
  lemma PrintDeliverParse(
    cfg: Config, preamble: seq<Byte>, parts: seq<WrittenPart>, closing: seq<Byte>, values: seq<PartValue>,
    events: seq<Event>)
    requires ValidBoundary(cfg.boundary) && cfg.lib.Bounded()
    requires Says(cfg, parts, closing, values) && Free(preamble, Dashes(cfg.boundary))
    requires preamble == [] || preamble[|preamble| - 1] == 10
    requires Tolerable(events, 0) && AllBytes(events) == Body(cfg.boundary, preamble, parts, closing)
    ensures Parse(cfg, events) == Outcome(values, Finished)
  {
    hide OneShot, Parse, Says, ValidBoundary, Free, Text, Source.Bytes, Source.Ending;
    var body := Body(cfg.boundary, preamble, parts, closing);
    LinesBefore(cfg.boundary, preamble, Text(cfg.boundary, parts, closing));
    PrintThenParse(cfg, false, preamble, parts, closing, values, [], AtEnd);
    assert body + [] == body;
    TolerableDelivers(events, 0);
    ResumeSafety(cfg, events);
  }
}
