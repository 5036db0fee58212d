/** Header blocks written out line by line, as the reader for blocks with surplus fields takes them. */
module FieldLines {
  import opened Bytes
  import opened Errors
  import opened Stream
  import opened Headers
  import opened Grammar
  import opened RoundTrip
  import Walks

  /** A field as written: its name, a colon, padding, its value and more padding. */
  datatype WrittenField = WrittenField(name: seq<Byte>, before: seq<Byte>, value: seq<Byte>, after: seq<Byte>) {
    function Line(): seq<Byte> {
      name + [58] + before + value + after
    }

    ghost predicate Valid() {
      && name != [] && 58 !in name
      && Pads(before) && Pads(after)
      && (value != [] ==> value[0] !in [32, 9] && value[|value| - 1] !in [32, 9])
    }
  }

  /** A line that holds no field: without a colon, or with nothing in front of it. */
  predicate NoField(line: seq<Byte>) {
    58 !in line || line[0] == 58
  }

  /** Every line with its line end. */
  function Terminated(lines: seq<seq<Byte>>): seq<Byte> {
    if lines == [] then [] else lines[0] + [13, 10] + Terminated(lines[1..])
  }

  /** Lines and the blank line behind them. */
  function WrittenBlock(lines: seq<seq<Byte>>): seq<Byte> {
    Terminated(lines) + [13, 10]
  }

  /** Lines with something on them, and no line end inside. */
  ghost predicate ProperLines(lines: seq<seq<Byte>>) {
    forall line <- lines :: line != [] && Free(line, [13, 10])
  }

  /** `fields` are what stands on the first lines. */
  ghost predicate Written(lines: seq<seq<Byte>>, fields: seq<WrittenField>) {
    && |fields| <= |lines|
    && forall i :: 0 <= i < |fields| ==> fields[i].Valid() && lines[i] == fields[i].Line()
  }

  function Read(fields: seq<WrittenField>): seq<Field> {
    seq(|fields|, i requires 0 <= i < |fields| => Field(fields[i].name, fields[i].value))
  }

  // ----- One line

  lemma ColonAt(f: WrittenField)
    requires f.Valid()
    ensures Find(f.Line(), [58]) == Some(|f.name|)
  {
    var line := f.Line();
    assert line == f.name + ([58] + f.before + f.value + f.after);
    assert line[|f.name|..|f.name| + 1] == [58];
    forall i | 0 <= i < |f.name| ensures !OccursAt(line, [58], i) {
      assert line[i..i + 1][0] == f.name[i];
    }
    FindIs(line, [58], |f.name|);
  }

  /** Trimming takes off the padding and nothing else. */
  lemma TrimmedValue(s: seq<Byte>, lo: nat, hi: nat, before: seq<Byte>, value: seq<Byte>, after: seq<Byte>)
    requires lo <= hi <= |s| && s[lo..hi] == before + value + after && Pads(before) && Pads(after)
    requires value != [] ==> value[0] !in [32, 9] && value[|value| - 1] !in [32, 9]
    ensures var r := TrimSpan(s, lo, hi); s[r.start..r.end] == value
  {
    hide TrimLeft, TrimRight;
    var all, r := before + value + after, TrimSpan(s, lo, hi);
    var i, j := lo + |before|, lo + |before| + |value|;
    assert forall k :: lo <= k < hi ==> s[k] == all[k - lo];
    if value == [] {
      assert forall k :: lo <= k < hi ==> IsPad(s[k]);
    } else {
      assert s[i] == value[0] && s[j - 1] == value[|value| - 1];
      assert r.start == i && r.end == j;
      assert s[i..j] == all[|before|..|before| + |value|] == value;
    }
  }

  /** The field on a line is the one written there. */
  lemma FieldRead(block: seq<Byte>, lo: nat, hi: nat, f: WrittenField)
    requires lo <= hi <= |block| && block[lo..hi] == f.Line() && f.Valid()
    ensures var r := LineField(block, lo, hi);
            r.Ok? && FieldOf(block, r.value) == Field(f.name, f.value)
  {
    hide Find, TrimSpan, Pads;
    ColonAt(f);
    var at := lo + |f.name|;
    assert block[lo..at] == f.Line()[..|f.name|] == f.name;
    assert block[at + 1..hi] == f.Line()[|f.name| + 1..] == f.before + f.value + f.after;
    TrimmedValue(block, at + 1, hi, f.before, f.value, f.after);
  }

  lemma NoFieldRead(block: seq<Byte>, lo: nat, hi: nat)
    requires lo <= hi <= |block| && NoField(block[lo..hi])
    ensures LineField(block, lo, hi) == Err(InvalidFormat)
  {
    hide Find, TrimSpan;
    var line := block[lo..hi];
    FindIsLeftmost(line, [58]);
    var at := Find(line, [58]);
    if at.Some? {
      assert line[at.value..at.value + 1][0] == 58;
      assert 58 in line;
      assert OccursAt(line, [58], 0);
    }
  }

  // ----- The lines of a block

  /** `rest` is `line` up to its first line end, or the whole of it without one. */
  lemma LineEnds(line: seq<Byte>, back: seq<Byte>)
    requires Free(line, [13, 10])
    ensures Find(line + [13, 10] + back, [13, 10]) == Some(|line|) && Find(line, [13, 10]).None?
  {
    SeamBehindData(line, [13, 10], back);
    FindIsLeftmost(line, [13, 10]);
  }

  /** The bytes of some lines, without the last line end. */
  lemma Unterminated(lines: seq<seq<Byte>>)
    requires lines != [] && ProperLines(lines)
    ensures var line, text, back := lines[0], Terminated(lines), Terminated(lines[1..]);
            && |text| >= 2 && text == line + [13, 10] + back && Free(line, [13, 10])
            && (|lines| == 1 ==> text[..|text| - 2] == line)
            && (|lines| > 1 ==> |back| > 2 && text[..|text| - 2] == line + [13, 10] + back[..|back| - 2])
  {
    hide Free;
    assert lines[0] in lines;
    if |lines| > 1 {
      assert lines[1..][0] in lines;
    } else {
      assert Terminated(lines[1..]) == [];
    }
  }

  lemma LastLine(block: seq<Byte>, pos: nat, blank: nat)
    requires pos < blank <= |block| && Free(block[pos..blank], [13, 10])
    ensures LineSpan(block, pos, blank) == (blank, blank)
  {
    hide Find, Free;
    LineEnds(block[pos..blank], []);
  }

  lemma InnerLine(block: seq<Byte>, pos: nat, blank: nat, line: seq<Byte>, back: seq<Byte>)
    requires pos < blank <= |block| && block[pos..blank] == line + [13, 10] + back && Free(line, [13, 10])
    ensures LineSpan(block, pos, blank) == (pos + |line|, pos + |line| + 2)
  {
    hide Find, Free;
    LineEnds(line, back);
  }

  /** Where the line at `pos` ends, and what follows it. */
  lemma LineSpanIs(block: seq<Byte>, pos: nat, blank: nat, lines: seq<seq<Byte>>)
    requires pos < blank <= |block| - 2 && lines != []
    requires block[pos..blank + 2] == Terminated(lines) && ProperLines(lines)
    ensures var (end, next) := LineSpan(block, pos, blank);
            && block[pos..end] == lines[0]
            && (|lines| == 1 ==> next == blank)
            && (|lines| > 1 ==> next < blank && block[next..blank + 2] == Terminated(lines[1..]))
  {
    hide LineSpan, Terminated, Free, ProperLines;
    Unterminated(lines);
    var line, all := lines[0], Terminated(lines);
    assert block[pos..blank] == all[..|all| - 2];
    if |lines| == 1 {
      LastLine(block, pos, blank);
    } else {
      var back := Terminated(lines[1..]);
      InnerLine(block, pos, blank, line, back[..|back| - 2]);
      assert block[pos..pos + |line|] == all[..|line|] == line;
      assert block[pos + |line| + 2..blank + 2] == all[|line| + 2..] == back;
    }
  }

  lemma LongEnough(lines: seq<seq<Byte>>)
    requires lines != [] && ProperLines(lines)
    ensures |Terminated(lines)| > 2
  {
    assert lines[0] in lines;
  }

  /** The lines from `pos` on give their fields, as far as there is room; or one of them holds no field. */
  lemma {:induction false} LinesRead(
    block: seq<Byte>, pos: nat, blank: nat, kept: seq<FieldSpan>, lines: seq<seq<Byte>>, fields: seq<WrittenField>)
    requires pos < blank <= |block| - 2 && lines != []
    requires block[pos..blank + 2] == Terminated(lines) && ProperLines(lines)
    requires |kept| + |fields| <= 3 && Written(lines, fields)
    requires forall i :: 0 <= i < |kept| ==> kept[i].Inside(|block|)
    ensures var r := LineFields(block, pos, blank, kept);
            && (|fields| == |lines| || |kept| + |fields| == 3 ==>
                  r.Ok? && FieldsOf(block, r.value) == FieldsOf(block, kept) + Read(fields))
            && (|fields| < |lines| && |kept| + |fields| < 3 && NoField(lines[|fields|]) ==>
                  r == Err(InvalidFormat))
    decreases |fields|
  {
    hide LineSpan, LineField, Terminated, FieldOf, LineFields, ProperLines, Pads, NoField;
    LineFieldsUnfold(block, pos, blank, kept);
    LineSpanIs(block, pos, blank, lines);
    var (end, next) := LineSpan(block, pos, blank);
    if |kept| == 3 {
      assert Read(fields) == [];
    } else if fields == [] {
      if NoField(lines[0]) {
        NoFieldRead(block, pos, end);
      }
    } else {
      FieldRead(block, pos, end, fields[0]);
      var f := LineField(block, pos, end).value;
      assert FieldsOf(block, kept + [f]) == FieldsOf(block, kept) + [Field(fields[0].name, fields[0].value)];
      assert Read(fields) == [Field(fields[0].name, fields[0].value)] + Read(fields[1..]);
      if |lines| == 1 {
        LineFieldsUnfold(block, next, blank, kept + [f]);
        assert Read(fields[1..]) == [];
      } else {
        assert ProperLines(lines[1..]) by { ProperRest(lines); }
        LinesRead(block, next, blank, kept + [f], lines[1..], fields[1..]);
      }
    }
  }

  lemma ProperRest(lines: seq<seq<Byte>>)
    requires lines != [] && ProperLines(lines)
    ensures ProperLines(lines[1..])
  {
  }

  /**
   * The reader for blocks with surplus fields, on any lines: it gives the names and values written on
   * the first three, or refuses the block if one of those holds no field.
   */
  lemma FallbackReads(lines: seq<seq<Byte>>, fields: seq<WrittenField>)
    requires lines != [] && ProperLines(lines) && Written(lines, fields) && |fields| <= 3
    ensures |fields| == 3 || |fields| == |lines| ==>
              var r := HeaderBlockFallback(WrittenBlock(lines));
              && r.Ok? && FieldsOf(WrittenBlock(lines), r.value.spans) == Read(fields)
              && r.value.dataStart == |WrittenBlock(lines)|
    ensures |fields| < 3 && |fields| < |lines| && NoField(lines[|fields|]) ==>
              HeaderBlockFallback(WrittenBlock(lines)) == Err(InvalidFormat)
  {
    hide LineFields, Written, ProperLines, NoField;
    var block, text := WrittenBlock(lines), Terminated(lines);
    var blank := |block| - 4;
    LongEnough(lines);
    EndsWithLineEnd(lines);
    assert block[blank..] == text[|text| - 2..] + [13, 10];
    assert block[0..blank + 2] == text;
    assert FieldsOf(block, []) + Read(fields) == Read(fields);
    LinesRead(block, 0, blank, [], lines, fields);
  }

  lemma {:induction false} EndsWithLineEnd(lines: seq<seq<Byte>>)
    requires lines != []
    ensures var text := Terminated(lines); |text| >= 2 && text[|text| - 2..] == [13, 10]
  {
    if |lines| == 1 {
      assert Terminated(lines[1..]) == [];
    } else {
      EndsWithLineEnd(lines[1..]);
    }
  }

  /** Every line holds a field or none. */
  lemma FieldOrNot(line: seq<Byte>)
    ensures NoField(line) <==> !exists f: WrittenField :: f.Valid() && f.Line() == line
  {
    hide WrittenField.Valid;
    forall f: WrittenField | f.Valid() && f.Line() == line ensures !NoField(line) {
      HoldsField(f);
    }
    if !NoField(line) {
      var f := FieldOn(line);
    }
  }

  lemma HoldsField(f: WrittenField)
    requires f.Valid()
    ensures !NoField(f.Line())
  {
    var line := f.Line();
    assert line[0] == f.name[0] && line[|f.name|] == 58;
  }

  lemma FieldOn(line: seq<Byte>) returns (f: WrittenField)
    requires !NoField(line)
    ensures f.Valid() && f.Line() == line
  {
    hide Pads, TrimSpan;
    var at := FirstColon(line);
    var t := TrimSpan(line, at + 1, |line|);
    f := WrittenField(line[..at], line[at + 1..t.start], line[t.start..t.end], line[t.end..]);
    TrimParts(line, at + 1);
  }

  lemma FirstColon(line: seq<Byte>) returns (at: nat)
    requires !NoField(line)
    ensures 0 < at < |line| && line[at] == 58 && 58 !in line[..at]
  {
    hide Find;
    FindIsLeftmost(line, [58]);
    var i :| 0 <= i < |line| && line[i] == 58;
    assert OccursAt(line, [58], i);
    at := Find(line, [58]).value;
    assert line[at..at + 1][0] == 58;
    forall k | 0 <= k < at ensures line[..at][k] != 58 {
      assert !OccursAt(line, [58], k);
      assert line[k..k + 1] == [line[k]];
    }
  }

  lemma TrimParts(line: seq<Byte>, lo: nat)
    requires lo <= |line|
    ensures var t := TrimSpan(line, lo, |line|);
            var value := line[t.start..t.end];
            && Pads(line[lo..t.start]) && Pads(line[t.end..])
            && (value != [] ==> value[0] !in [32, 9] && value[|value| - 1] !in [32, 9])
  {
    hide TrimLeft, TrimRight;
  }

  // ----- Such a block at the front of a part

  /** The first blank line of a written block is the one at its end. */
  lemma {:induction false} BlankLineEnds(lines: seq<seq<Byte>>, data: seq<Byte>)
    requires lines != [] && ProperLines(lines)
    ensures var rest, n := WrittenBlock(lines) + data, |WrittenBlock(lines)|;
            && 4 <= n && rest[n - 4..n] == [13, 10, 13, 10] && rest[..2] != [13, 10]
            && BarrenBefore(rest, [13, 10, 13, 10], n - 4)
  {
    hide Free;
    var line, block := lines[0], WrittenBlock(lines);
    var rest, back := block + data, Terminated(lines[1..]) + [13, 10] + data;
    assert line in lines;
    LongEnough(lines);
    EndsWithLineEnd(lines);
    assert rest[|block| - 4..|block|] == Terminated(lines)[|block| - 4..] + [13, 10];
    assert rest == line + [13, 10] + back;
    NoBlankOnLine(line, back);
    if |lines| == 1 {
      assert |block| - 4 == |line|;
    } else {
      ProperRest(lines);
      BlankLineEnds(lines[1..], data);
      assert back == WrittenBlock(lines[1..]) + data;
      NoBlankThrough(line, back, |WrittenBlock(lines[1..])| - 4);
    }
  }

  /** A blank line neither ends a proper line nor starts inside it. */
  lemma NoBlankThrough(line: seq<Byte>, back: seq<Byte>, n: nat)
    requires line != [] && Free(line, [13, 10]) && |back| >= 2 && back[..2] != [13, 10]
    requires BarrenBefore(back, [13, 10, 13, 10], n)
    ensures BarrenBefore(line + [13, 10] + back, [13, 10, 13, 10], |line| + 2 + n)
  {
    hide Free;
    var rest, blank: seq<Byte> := line + [13, 10] + back, [13, 10, 13, 10];
    var c := |line| + 2;
    NoBlankOnLine(line, back);
    assert rest[c..] == back;
    forall i | 0 <= i < c + n ensures !OccursAt(rest, blank, i) {
      if i == |line| {
        assert i + 4 <= |rest| && rest[i..i + 4][2..] == back[..2];
        assert blank[2..] == [13, 10];
      } else if i == |line| + 1 {
        assert i + 4 <= |rest| ==> rest[i..i + 4][0] == 10;
      } else if i >= c {
        OccursInSuffix(rest, blank, c, i - c);
      }
    }
  }

  /** No blank line starts on a line. */
  lemma NoBlankOnLine(line: seq<Byte>, back: seq<Byte>)
    requires line != [] && Free(line, [13, 10])
    ensures BarrenBefore(line + [13, 10] + back, [13, 10, 13, 10], |line|)
    ensures (line + [13, 10] + back)[..2] != [13, 10]
  {
    var rest := line + [13, 10] + back;
    LineEnds(line, back);
    FindIsLeftmost(rest, [13, 10]);
    forall i | 0 <= i < |line| ensures !OccursAt(rest, [13, 10, 13, 10], i) {
      assert !OccursAt(rest, [13, 10], i);
      assert i + 4 <= |rest| ==> rest[i..i + 4][..2] == rest[i..i + 2];
    }
    assert !OccursAt(rest, [13, 10], 0);
  }

  /**
   * A part that starts with written lines, more of them than the header library takes, has the fields of
   * the first three; its data start behind the blank line.
   */
  lemma SurplusFields(cfg: Config, lines: seq<seq<Byte>>, fields: seq<WrittenField>, data: seq<Byte>, ending: Ending)
    requires cfg.lib.Bounded() && cfg.lib.httparse(WrittenBlock(lines)).TooManyHeaders?
    requires ProperLines(lines) && Written(lines, fields) && |fields| == 3
    requires |WrittenBlock(lines)| <= cfg.maxBufferSize
    ensures var rest, r := WrittenBlock(lines) + data, BlockAt(cfg, WrittenBlock(lines) + data, ending);
            && r.Ok? && r.value.Inside(|rest|) && rest[r.value.dataStart..] == data
            && FieldsOf(rest, r.value.spans) == Read(fields)
  {
    hide HeaderBlockFallback, Written, ProperLines, Find, FieldOf, Terminated;
    var block := WrittenBlock(lines);
    var rest := block + data;
    assert lines != [] by { NotEmpty(lines, fields); }
    BlankLineEnds(lines, data);
    assert BlockEnds(rest, cfg.maxBufferSize, |block|);
    BlockEndIs(rest, ending, cfg.maxBufferSize, |block|);
    assert rest[..|block|] == block;
    FallbackReads(lines, fields);
    var r := HeaderBlockFallback(block);
    Walks.SameFields(block, data, r.value.spans);
  }

  lemma NotEmpty(lines: seq<seq<Byte>>, fields: seq<WrittenField>)
    requires Written(lines, fields) && |fields| > 0
    ensures lines != []
  {
  }
}
