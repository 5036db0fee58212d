/** Bytes, results and leftmost substring search: what the parsers share. */
module Bytes {

  type Byte = b: int | 0 <= b < 256

  const HTAB: Byte := 9
  const LF: Byte := 10
  const CR: Byte := 13
  const SP: Byte := 32
  const DASH: Byte := 45

  const CRLF: seq<Byte> := [CR, LF]

  datatype Option<+T> = None | Some(value: T)

  /** The optional whitespace accepted as transport padding: SP or HTAB. */
  predicate IsPad(b: Byte) {
    b == SP || b == HTAB
  }

  predicate StartsWith(s: seq<Byte>, prefix: seq<Byte>) {
    |prefix| <= |s| && s[..|prefix|] == prefix
  }

  /** `needle` stands in `hay` at offset `i`. */
  predicate OccursAt(hay: seq<Byte>, needle: seq<Byte>, i: int) {
    0 <= i <= |hay| - |needle| && hay[i..i + |needle|] == needle
  }

  /** No occurrence of `needle` starts before offset `k`. */
  ghost predicate BarrenBefore(hay: seq<Byte>, needle: seq<Byte>, k: int) {
    forall j :: 0 <= j < k ==> !OccursAt(hay, needle, j)
  }

  /** The leftmost occurrence, as `memmem::find` reports it. */
  function Find(hay: seq<Byte>, needle: seq<Byte>): (r: Option<nat>)
    ensures r.Some? ==> r.value + |needle| <= |hay|
  {
    FindFrom(hay, needle, 0)
  }

  lemma FindIsLeftmost(hay: seq<Byte>, needle: seq<Byte>)
    ensures var r := Find(hay, needle);
            if r.Some? then OccursAt(hay, needle, r.value) && BarrenBefore(hay, needle, r.value)
            else forall j :: !OccursAt(hay, needle, j)
  {
    FindFromIsLeftmost(hay, needle, 0);
  }

  function FindFrom(hay: seq<Byte>, needle: seq<Byte>, i: nat): (r: Option<nat>)
    ensures r.Some? ==> i <= r.value && r.value + |needle| <= |hay|
    decreases |hay| - i
  {
    if i + |needle| > |hay| then None
    else if hay[i..i + |needle|] == needle then Some(i)
    else FindFrom(hay, needle, i + 1)
  }

  lemma {:induction false} FindFromIsLeftmost(hay: seq<Byte>, needle: seq<Byte>, i: nat)
    ensures var r := FindFrom(hay, needle, i);
            if r.Some? then
              OccursAt(hay, needle, r.value) && forall j :: i <= j < r.value ==> !OccursAt(hay, needle, j)
            else forall j :: i <= j ==> !OccursAt(hay, needle, j)
    decreases |hay| - i
  {
    if i + |needle| <= |hay| && hay[i..i + |needle|] != needle {
      FindFromIsLeftmost(hay, needle, i + 1);
    }
  }

  function Shifted(at: Option<nat>, k: nat): Option<nat> {
    if at.Some? then Some(at.value + k) else None
  }

  /** What follows the leftmost occurrence. */
  function AfterNeedle(hay: seq<Byte>, needle: seq<Byte>): Option<seq<Byte>> {
    var at := Find(hay, needle);
    if at.Some? then Some(hay[at.value + |needle|..]) else None
  }

  lemma FindIs(hay: seq<Byte>, needle: seq<Byte>, i: nat)
    requires OccursAt(hay, needle, i) && BarrenBefore(hay, needle, i)
    ensures Find(hay, needle) == Some(i)
  {
    FindIsLeftmost(hay, needle);
  }

  /** Occurrences in a suffix are the occurrences of the whole, shifted. */
  lemma OccursInSuffix(hay: seq<Byte>, needle: seq<Byte>, k: nat, j: nat)
    requires k <= |hay|
    ensures OccursAt(hay[k..], needle, j) <==> OccursAt(hay, needle, k + j)
  {
    if j + |needle| <= |hay| - k {
      assert hay[k..][j..j + |needle|] == hay[k + j..k + j + |needle|];
    }
  }

  /** An occurrence that fits in a prefix does not depend on what follows. */
  lemma OccursInPrefix(front: seq<Byte>, back: seq<Byte>, needle: seq<Byte>, j: nat)
    requires j + |needle| <= |front|
    ensures OccursAt(front + back, needle, j) <==> OccursAt(front, needle, j)
  {
    assert (front + back)[j..j + |needle|] == front[j..j + |needle|];
  }

  /** Bytes in which no occurrence starts can be dropped before searching. */
  lemma DropBarren(hay: seq<Byte>, needle: seq<Byte>, k: nat)
    requires k <= |hay| && BarrenBefore(hay, needle, k)
    ensures AfterNeedle(hay[k..], needle) == AfterNeedle(hay, needle)
    ensures Find(hay, needle) == Shifted(Find(hay[k..], needle), k)
  {
    FindIsLeftmost(hay, needle);
    FindIsLeftmost(hay[k..], needle);
    var r, w := Find(hay[k..], needle), Find(hay, needle);
    if r.Some? {
      OccursInSuffix(hay, needle, k, r.value);
      assert w.Some?;
      OccursInSuffix(hay, needle, k, w.value - k);
      assert hay[k..][r.value + |needle|..] == hay[k + r.value + |needle|..];
    } else if w.Some? {
      OccursInSuffix(hay, needle, k, w.value - k);
    }
  }

  /** A buffer without the needle can only start one in its last `|needle| - 1` bytes. */
  lemma BarrenTail(front: seq<Byte>, back: seq<Byte>, needle: seq<Byte>)
    requires needle != [] && Find(front, needle).None?
    ensures BarrenBefore(front + back, needle, |front| - |needle| + 1)
  {
    FindIsLeftmost(front, needle);
    forall j | 0 <= j < |front| - |needle| + 1 ensures !OccursAt(front + back, needle, j) {
      OccursInPrefix(front, back, needle, j);
    }
  }

  /** A match found in a prefix is the leftmost match of the whole. */
  lemma FindInPrefix(front: seq<Byte>, back: seq<Byte>, needle: seq<Byte>)
    requires Find(front, needle).Some?
    ensures Find(front + back, needle) == Find(front, needle)
  {
    FindIsLeftmost(front, needle);
    var i := Find(front, needle).value;
    OccursInPrefix(front, back, needle, i);
    forall j | 0 <= j < i ensures !OccursAt(front + back, needle, j) {
      OccursInPrefix(front, back, needle, j);
    }
    FindIs(front + back, needle, i);
  }
}
