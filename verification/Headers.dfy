/** Part header blocks: field spans inside a block, and the reader for blocks with surplus fields. */
module Headers {
  import opened Bytes
  import opened Errors

  const MAX_HEADERS: nat := 3
  const COLON: Byte := 58

  datatype Span = Span(start: nat, end: nat) {
    predicate Inside(len: nat) {
      start <= end <= len
    }
  }

  datatype FieldSpan = FieldSpan(name: Span, value: Span) {
    predicate Inside(len: nat) {
      name.Inside(len) && value.Inside(len)
    }
  }

  datatype HeaderBlock = HeaderBlock(spans: seq<FieldSpan>, next: nat, dataStart: nat) {
    /** Everything the block points at lies in its first `len` bytes. */
    predicate Inside(len: nat) {
      && dataStart <= len
      && |spans| <= MAX_HEADERS
      && forall i :: 0 <= i < |spans| ==> spans[i].Inside(len)
    }
  }

  datatype Field = Field(name: seq<Byte>, value: seq<Byte>)

  /** The answers of `httparse::parse_headers` on a block, given room for `MAX_HEADERS` fields. */
  datatype HttpParse =
    | Complete(dataStart: nat, fields: seq<FieldSpan>)
    | Partial
    | TooManyHeaders
    | Malformed

  /** The library the parser relies on: `httparse`, and UTF-8 validation of field names. */
  datatype HeaderLib = HeaderLib(httparse: seq<Byte> -> HttpParse, utf8: seq<Byte> -> bool) {
    /** `httparse` hands out slices of the block it was given, at most as many as there is room for. */
    ghost predicate Bounded() {
      forall block :: httparse(block).Complete? ==>
                        HeaderBlock(httparse(block).fields, 0, httparse(block).dataStart).Inside(|block|)
    }

    /** Every name can be handed out as text. */
    predicate ReadsNames(fields: seq<Field>) {
      forall f <- fields :: utf8(f.name)
    }
  }

  // ----- Optional whitespace

  function TrimLeft(s: seq<Byte>, lo: nat, hi: nat): (k: nat)
    requires lo <= hi <= |s|
    ensures lo <= k <= hi
    ensures forall i :: lo <= i < k ==> IsPad(s[i])
    ensures k < hi ==> !IsPad(s[k])
    decreases hi - lo
  {
    if lo < hi && IsPad(s[lo]) then TrimLeft(s, lo + 1, hi) else lo
  }

  function TrimRight(s: seq<Byte>, lo: nat, hi: nat): (k: nat)
    requires lo <= hi <= |s|
    ensures lo <= k <= hi
    ensures forall i :: k <= i < hi ==> IsPad(s[i])
    ensures lo < k ==> !IsPad(s[k - 1])
    decreases hi - lo
  {
    if lo < hi && IsPad(s[hi - 1]) then TrimRight(s, lo, hi - 1) else hi
  }

  /** `s[lo..hi]` without the optional whitespace at both ends. */
  function TrimSpan(s: seq<Byte>, lo: nat, hi: nat): (r: Span)
    requires lo <= hi <= |s|
    ensures lo <= r.start <= r.end <= hi
  {
    var start := TrimLeft(s, lo, hi);
    Span(start, TrimRight(s, start, hi))
  }

  function Trim(s: seq<Byte>): seq<Byte> {
    var r := TrimSpan(s, 0, |s|);
    s[r.start..r.end]
  }

  /** The two narrowing loops of the source, on a slice `s[lo..hi]`. */
  method TrimOws(s: seq<Byte>, lo: nat, hi: nat) returns (r: Span)
    requires lo <= hi <= |s|
    ensures r == TrimSpan(s, lo, hi)
  {
    var first, last := lo, hi;
    while first < last && IsPad(s[first])
      invariant lo <= first <= last
      invariant TrimLeft(s, first, hi) == TrimLeft(s, lo, hi)
    {
      first := first + 1;
    }
    while first < last && IsPad(s[last - 1])
      invariant first <= last <= hi
      invariant TrimRight(s, first, last) == TrimRight(s, first, hi)
    {
      last := last - 1;
    }
    return Span(first, last);
  }

  // ----- Blocks with more fields than are kept

  /** Where the line that starts at `pos` ends, and where the next one starts. */
  function LineSpan(block: seq<Byte>, pos: nat, blank: nat): (r: (nat, nat))
    requires pos < blank <= |block|
    ensures pos <= r.0 <= blank && pos < r.1 <= blank && r.0 <= r.1
  {
    var at := Find(block[pos..blank], CRLF);
    if at.Some? then (pos + at.value, pos + at.value + 2) else (blank, blank)
  }

  /** The field on the line `block[lo..hi]`. */
  function LineField(block: seq<Byte>, lo: nat, hi: nat): (r: Result<FieldSpan>)
    requires lo <= hi <= |block|
    ensures r.Ok? ==> r.value.Inside(|block|)
  {
    var colon := Find(block[lo..hi], [COLON]);
    if colon.None? || colon.value == 0 then Err(InvalidFormat)
    else Ok(FieldSpan(Span(lo, lo + colon.value), TrimSpan(block, lo + colon.value + 1, hi)))
  }

  /** The fields on the lines of `block[pos..blank]` appended to `kept`, up to `MAX_HEADERS` in all. */
  function LineFields(block: seq<Byte>, pos: nat, blank: nat, kept: seq<FieldSpan>): (r: Result<seq<FieldSpan>>)
    requires pos <= blank <= |block| && |kept| <= MAX_HEADERS
    requires forall i :: 0 <= i < |kept| ==> kept[i].Inside(|block|)
    ensures r.Ok? ==> |r.value| <= MAX_HEADERS && forall i :: 0 <= i < |r.value| ==> r.value[i].Inside(|block|)
    decreases blank - pos
  {
    if pos == blank || |kept| == MAX_HEADERS then Ok(kept)
    else
      var (end, next) := LineSpan(block, pos, blank);
      var field := LineField(block, pos, end);
      if field.Err? then Err(field.error) else LineFields(block, next, blank, kept + [field.value])
  }

  function HeaderBlockFallback(block: seq<Byte>): (r: Result<HeaderBlock>)
    ensures r.Ok? ==> r.value.Inside(|block|) && r.value.dataStart == |block|
  {
    if |block| < 4 || block[|block| - 4..] != CRLF + CRLF then Err(InvalidFormat)
    else
      var fields := LineFields(block, 0, |block| - 4, []);
      if fields.Err? then Err(fields.error) else Ok(HeaderBlock(fields.value, 0, |block|))
  }

  method ReadLineField(block: seq<Byte>, lo: nat, hi: nat) returns (r: Result<FieldSpan>)
    requires lo <= hi <= |block|
    ensures r == LineField(block, lo, hi)
  {
    var colon := Find(block[lo..hi], [COLON]);
    if colon.None? || colon.value == 0 {
      return Err(InvalidFormat);
    }
    var value := TrimOws(block, lo + colon.value + 1, hi);
    return Ok(FieldSpan(Span(lo, lo + colon.value), value));
  }

  lemma LineFieldsUnfold(block: seq<Byte>, pos: nat, blank: nat, kept: seq<FieldSpan>)
    requires pos <= blank <= |block| && |kept| <= MAX_HEADERS
    requires forall i :: 0 <= i < |kept| ==> kept[i].Inside(|block|)
    ensures pos == blank || |kept| == MAX_HEADERS ==> LineFields(block, pos, blank, kept) == Ok(kept)
    ensures pos < blank && |kept| < MAX_HEADERS ==>
              var (end, next) := LineSpan(block, pos, blank);
              var field := LineField(block, pos, end);
              LineFields(block, pos, blank, kept) ==
              if field.Err? then Err(field.error) else LineFields(block, next, blank, kept + [field.value])
  {
    hide LineSpan, LineField;
  }

  /** The fallback reader's loop over lines keeps the first fields and never reads past them. */
  method ParseHeaderBlockFallback(block: seq<Byte>) returns (r: Result<HeaderBlock>)
    ensures r == HeaderBlockFallback(block)
  {
    hide LineFields, LineSpan, LineField;
    if |block| < 4 || block[|block| - 4..] != CRLF + CRLF {
      return Err(InvalidFormat);
    }
    var blank := |block| - 4;
    var spans: seq<FieldSpan> := [];
    var pos := 0;
    ghost var all := LineFields(block, 0, blank, []);
    while pos < blank && |spans| < MAX_HEADERS
      invariant pos <= blank && |spans| <= MAX_HEADERS
      invariant forall i :: 0 <= i < |spans| ==> spans[i].Inside(|block|)
      invariant LineFields(block, pos, blank, spans) == all
      decreases blank - pos
    {
      LineFieldsUnfold(block, pos, blank, spans);
      var (end, next) := LineSpan(block, pos, blank);
      var field := ReadLineField(block, pos, end);
      if field.Err? {
        return Err(field.error);
      }
      spans := spans + [field.value];
      pos := next;
    }
    LineFieldsUnfold(block, pos, blank, spans);
    return Ok(HeaderBlock(spans, 0, blank + 4));
  }

  /** The header block the caller sliced through its blank line. */
  function ParseHeaderBlock(lib: HeaderLib, block: seq<Byte>): Result<HeaderBlock> {
    match lib.httparse(block)
    case Complete(dataStart, fields) => Ok(HeaderBlock(fields, 0, dataStart))
    case Partial => Err(IncompleteStream)
    case TooManyHeaders => HeaderBlockFallback(block)
    case Malformed => Err(InvalidFormat)
  }

  lemma ParsedBlockInside(lib: HeaderLib, block: seq<Byte>)
    requires lib.Bounded()
    ensures ParseHeaderBlock(lib, block).Ok? ==>
              ParseHeaderBlock(lib, block).value.Inside(|block|) && ParseHeaderBlock(lib, block).value.next == 0
  {
  }

  function FieldOf(buf: seq<Byte>, s: FieldSpan): Field
    requires s.Inside(|buf|)
  {
    Field(buf[s.name.start..s.name.end], buf[s.value.start..s.value.end])
  }

  function FieldsOf(buf: seq<Byte>, spans: seq<FieldSpan>): (r: seq<Field>)
    requires forall i :: 0 <= i < |spans| ==> spans[i].Inside(|buf|)
    ensures |r| == |spans|
  {
    seq(|spans|, i requires 0 <= i < |spans| => FieldOf(buf, spans[i]))
  }
}
