/** Boundary validation, delimiter patterns and the data-phase search for them. */
module Delimiter {
  import opened Bytes
  import opened Errors

  const ADAPTIVE_TAIL_THRESHOLD: nat := 2048

  predicate IsBchar(b: Byte) {
    || '0' as int <= b <= '9' as int
    || 'A' as int <= b <= 'Z' as int
    || 'a' as int <= b <= 'z' as int
    || b in [39, 40, 41, 43, 95, 44, DASH, 46, 47, 58, 61, 63, SP] // ' ( ) + _ , - . / : = ? SP
  }

  /** Section 5.1.1 of RFC 2046: 1 to 70 bchars, the last one not a space. */
  predicate ValidBoundary(boundary: seq<Byte>) {
    && 1 <= |boundary| <= 70
    && (forall i :: 0 <= i < |boundary| ==> IsBchar(boundary[i]))
    && boundary[|boundary| - 1] != SP
  }

  function MakeFirstBoundary(boundary: seq<Byte>): seq<Byte> {
    [DASH, DASH] + boundary
  }

  function MakeDelimiter(boundary: seq<Byte>): seq<Byte> {
    [CR, LF, DASH, DASH] + boundary
  }

  /** A delimiter of a valid boundary has its only CR in front and its only LF right after it. */
  lemma DelimiterShape(boundary: seq<Byte>)
    requires ValidBoundary(boundary)
    ensures var d := MakeDelimiter(boundary);
            forall i :: 0 <= i < |d| ==> (d[i] == CR <==> i == 0) && (d[i] == LF <==> i == 1)
    ensures var f := MakeFirstBoundary(boundary);
            forall i :: 0 <= i < |f| ==> f[i] != CR && f[i] != LF
  {
    forall i | 0 <= i < |boundary| ensures boundary[i] != CR && boundary[i] != LF {
      assert IsBchar(boundary[i]);
    }
  }

  datatype DataSearch = Found(index: nat) | Emit(end: nat) | KeepAll

  /** The last `len` bytes of `hay` are the first `len` bytes of `delimiter`. */
  predicate Border(hay: seq<Byte>, delimiter: seq<Byte>, len: nat) {
    len <= |hay| && len <= |delimiter| && hay[|hay| - len..] == delimiter[..len]
  }

  /** The longest proper delimiter prefix, of length at most `most`, that ends `hay`. */
  function LongestBorder(hay: seq<Byte>, delimiter: seq<Byte>, most: nat): (len: nat)
    ensures len <= most && (most < |delimiter| ==> Border(hay, delimiter, len))
    ensures forall k :: len < k <= most ==> !Border(hay, delimiter, k)
  {
    if most == 0 || Border(hay, delimiter, most) then most else LongestBorder(hay, delimiter, most - 1)
  }

  function SearchData(hay: seq<Byte>, delimiter: seq<Byte>): (r: DataSearch)
    ensures r.Found? ==> r.index + |delimiter| <= |hay|
    ensures r.Emit? ==> 0 < r.end <= |hay|
  {
    var at := Find(hay, delimiter);
    if at.Some? then Found(at.value)
    else
      var keep := if delimiter == [] then 0 else |delimiter| - 1;
      var retain := if |hay| > ADAPTIVE_TAIL_THRESHOLD then LongestBorder(hay, delimiter, keep) else keep;
      if |hay| > retain then Emit(|hay| - retain) else KeepAll
  }

  /** The left-to-right window scan of the source finds the longest border. */
  method DelimiterPrefixSuffixLen(hay: seq<Byte>, delimiter: seq<Byte>) returns (len: nat)
    ensures delimiter == [] ==> len == 0
    ensures delimiter != [] ==> len == LongestBorder(hay, delimiter, |delimiter| - 1)
  {
    if delimiter == [] {
      return 0;
    }
    var first := delimiter[0];
    var max := |delimiter| - 1;
    var start := if |hay| > max then |hay| - max else 0;
    var idx := start;
    while idx < |hay|
      invariant start <= idx <= |hay|
      invariant forall k :: |hay| - idx < k <= max ==> !Border(hay, delimiter, k)
    {
      if hay[idx] == first {
        var l := |hay| - idx;
        if l <= max && hay[idx..] == delimiter[..l] {
          assert Border(hay, delimiter, l);
          return l;
        }
      } else {
        assert hay[idx..][0] != delimiter[0];
      }
      idx := idx + 1;
    }
    assert forall k :: 0 < k <= max ==> !Border(hay, delimiter, k);
    return 0;
  }

  /**
   * Whatever bytes follow, no delimiter starts in what `SearchData` lets go, each emission
   * carries at least one byte, and a haystack kept whole is shorter than a delimiter.
   */
  lemma HoldBackSafe(hay: seq<Byte>, more: seq<Byte>, delimiter: seq<Byte>)
    requires delimiter != []
    ensures match SearchData(hay, delimiter)
            case Found(i) => Find(hay + more, delimiter) == Some(i)
            case Emit(end) => 0 < end <= |hay| && |hay| - end < |delimiter| && BarrenBefore(hay + more, delimiter, end)
            case KeepAll => |hay| < |delimiter|
  {
    match SearchData(hay, delimiter)
    case Found(i) => FindInPrefix(hay, more, delimiter);
    case KeepAll =>
    case Emit(end) =>
      FindIsLeftmost(hay, delimiter);
      forall j | 0 <= j < end ensures !OccursAt(hay + more, delimiter, j) {
        var k := |hay| - j;
        if k >= |delimiter| {
          OccursInPrefix(hay, more, delimiter, j);
        } else {
          assert !Border(hay, delimiter, k);
          if j + |delimiter| <= |hay + more| {
            assert hay[j..] == (hay + more)[j..j + |delimiter|][..k];
          }
        }
      }
  }

  /**
   * Above the threshold the tail held back is needed: some continuation completes a delimiter
   * that starts exactly at the emitted end, unless nothing is held back at all.
   */
  lemma HoldBackTight(hay: seq<Byte>, delimiter: seq<Byte>) returns (more: seq<Byte>)
    requires |hay| > ADAPTIVE_TAIL_THRESHOLD && SearchData(hay, delimiter).Emit?
    ensures var end := SearchData(hay, delimiter).end;
            end < |hay| ==> OccursAt(hay + more, delimiter, end)
  {
    var end := SearchData(hay, delimiter).end;
    var len := |hay| - end;
    more := if len <= |delimiter| then delimiter[len..] else [];
    if end < |hay| {
      assert Border(hay, delimiter, len);
      assert (hay + more)[end..end + |delimiter|] == hay[end..] + more == delimiter;
    }
  }
}
