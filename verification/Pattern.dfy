/** Wildcard patterns over bytes: `*` is any run, `?` is any byte. */
module Pattern {
  import opened Bytes

  const STAR: Byte := 42
  const QUESTION: Byte := 63

  /** The largest `usize`; a slice holds at most half as many bytes. */
  const USIZE_MAX: nat := 0xFFFF_FFFF_FFFF_FFFF

  predicate Fits(s: seq<Byte>) {
    |s| <= USIZE_MAX / 2
  }

  predicate One(p: Byte, c: Byte) {
    p == c || p == QUESTION
  }

  /** What a pattern means: the definition by cases, exponential as a program. */
  predicate Matches(p: seq<Byte>, s: seq<Byte>)
    decreases |p| + |s|
  {
    if p == [] then s == []
    else if p[0] == STAR then Matches(p[1..], s) || (s != [] && Matches(p, s[1..]))
    else s != [] && One(p[0], s[0]) && Matches(p[1..], s[1..])
  }

  /** The pattern matches some tail of the input. */
  ghost predicate MatchesTail(p: seq<Byte>, s: seq<Byte>) {
    exists k: nat :: k <= |s| && Matches(p, s[k..])
  }

  /** The bytes of `p` match the bytes of `s` one by one, and none of them is a star. */
  predicate Literal(p: seq<Byte>, s: seq<Byte>) {
    |p| == |s| && forall i :: 0 <= i < |p| ==> p[i] != STAR && One(p[i], s[i])
  }

  lemma {:induction false} StarIsTail(p: seq<Byte>, s: seq<Byte>)
    requires p != [] && p[0] == STAR
    ensures Matches(p, s) <==> MatchesTail(p[1..], s)
    decreases |s|
  {
    if Matches(p[1..], s) {
      assert s[0..] == s;
    }
    if s != [] {
      StarIsTail(p, s[1..]);
      if MatchesTail(p[1..], s[1..]) {
        var k: nat :| k <= |s[1..]| && Matches(p[1..], s[1..][k..]);
        assert s[k + 1..] == s[1..][k..];
      }
      if MatchesTail(p[1..], s) && !Matches(p[1..], s) {
        var k: nat :| k <= |s| && Matches(p[1..], s[k..]);
        assert k != 0 by { assert s[0..] == s; }
        assert s[1..][k - 1..] == s[k..];
      }
    } else {
      assert forall k: nat :: k <= |s| ==> s[k..] == s;
    }
  }

  lemma LiteralStep(l: seq<Byte>, s: seq<Byte>)
    requires |l| == |s| > 0
    ensures Literal(l, s) <==> l[0] != STAR && One(l[0], s[0]) && Literal(l[1..], s[1..])
  {
    if Literal(l[1..], s[1..]) {
      forall i | 1 <= i < |l| ensures l[i] != STAR && One(l[i], s[i]) {
        assert l[i] == l[1..][i - 1] && s[i] == s[1..][i - 1];
      }
    }
  }

  /** A literal beginning takes exactly its own length. */
  lemma {:induction false} LiteralFirst(l: seq<Byte>, r: seq<Byte>, s: seq<Byte>)
    requires forall i :: 0 <= i < |l| ==> l[i] != STAR
    ensures Matches(l + r, s) <==> |l| <= |s| && Literal(l, s[..|l|]) && Matches(r, s[|l|..])
    decreases |l|
  {
    if l == [] {
      assert l + r == r && s[0..] == s;
    } else {
      assert (l + r)[0] == l[0] && (l + r)[1..] == l[1..] + r;
      if s != [] {
        LiteralFirst(l[1..], r, s[1..]);
        if |l| <= |s| {
          assert s[1..][|l| - 1..] == s[|l|..];
          assert s[..|l|][1..] == s[1..][..|l| - 1];
          LiteralStep(l, s[..|l|]);
        }
      }
    }
  }

  /** Matching some tail of a tail is matching some tail. */
  lemma TailOfTail(p: seq<Byte>, s: seq<Byte>, m: nat)
    requires m <= |s| && MatchesTail(p, s[m..])
    ensures MatchesTail(p, s)
  {
    var k: nat :| k <= |s[m..]| && Matches(p, s[m..][k..]);
    assert s[m..][k..] == s[m + k..];
  }

  /** Why earlier stars may be dropped: the leftmost match of what precedes a star is as good as any. */
  lemma DropStar(l: seq<Byte>, r: seq<Byte>, s: seq<Byte>)
    requires r != [] && r[0] == STAR && |l| <= |s| && Literal(l, s[..|l|])
    ensures MatchesTail(l + r, s) <==> MatchesTail(r[1..], s[|l|..])
  {
    if MatchesTail(l + r, s) {
      var k: nat :| k <= |s| && Matches(l + r, s[k..]);
      LiteralFirst(l, r, s[k..]);
      StarIsTail(r, s[k..][|l|..]);
      assert s[k..][|l|..] == s[|l|..][k..];
      TailOfTail(r[1..], s[|l|..], k);
    }
    if MatchesTail(r[1..], s[|l|..]) {
      StarIsTail(r, s[|l|..]);
      LiteralFirst(l, r, s);
      assert s[0..] == s;
    }
  }

  /** A failed attempt moves the search to the next tail. */
  lemma NextTail(p: seq<Byte>, s: seq<Byte>)
    requires !Matches(p, s)
    ensures MatchesTail(p, s) <==> s != [] && MatchesTail(p, s[1..])
  {
    if MatchesTail(p, s) {
      var k: nat :| k <= |s| && Matches(p, s[k..]);
      assert k != 0 by { assert s[0..] == s; }
      assert s[1..][k - 1..] == s[k..];
    }
    if s != [] && MatchesTail(p, s[1..]) {
      TailOfTail(p, s, 1);
    }
  }

  /** What is left to decide when the loop stands at `pi`, `si`, having last passed a star before `pb`. */
  ghost predicate Standing(p: seq<Byte>, s: seq<Byte>, pi: nat, si: nat, pb: nat, sb: nat) {
    if pb <= |p| then
      && pb <= pi <= |p| && sb <= si <= |s|
      && Literal(p[pb..pi], s[sb..si])
      && (Matches(p, s) <==> MatchesTail(p[pb..], s[sb..]))
    else
      && pb == sb == USIZE_MAX - 1
      && pi <= |p| && si <= |s|
      && (Matches(p, s) <==> Matches(p[pi..], s[si..]))
  }

  lemma AtStar(p: seq<Byte>, s: seq<Byte>, pi: nat, si: nat, pb: nat, sb: nat)
    requires Standing(p, s, pi, si, pb, sb) && pi < |p| && p[pi] == STAR
    ensures Standing(p, s, pi + 1, si, pi + 1, si)
  {
    assert p[pi..][1..] == p[pi + 1..];
    if pb <= |p| {
      var l, r := p[pb..pi], p[pi..];
      assert p[pb..] == l + r;
      assert s[sb..][..|l|] == s[sb..si] && s[sb..][|l|..] == s[si..];
      DropStar(l, r, s[sb..]);
    } else {
      StarIsTail(p[pi..], s[si..]);
    }
  }

  lemma AtByte(p: seq<Byte>, s: seq<Byte>, pi: nat, si: nat, pb: nat, sb: nat)
    requires Standing(p, s, pi, si, pb, sb) && pi < |p| && si < |s| && p[pi] != STAR && One(p[pi], s[si])
    ensures Standing(p, s, pi + 1, si + 1, pb, sb)
  {
    if pb <= |p| {
      assert p[pb..pi + 1] == p[pb..pi] + [p[pi]] && s[sb..si + 1] == s[sb..si] + [s[si]];
    } else {
      assert p[pi..][1..] == p[pi + 1..] && s[si..][1..] == s[si + 1..];
    }
  }

  /** The attempt that began behind the last star succeeds exactly when the rest matches. */
  lemma AttemptIsRest(p: seq<Byte>, s: seq<Byte>, pi: nat, si: nat, pb: nat, sb: nat)
    requires Standing(p, s, pi, si, pb, sb) && pb <= |p|
    ensures Matches(p[pb..], s[sb..]) <==> Matches(p[pi..], s[si..])
  {
    var l := p[pb..pi];
    assert p[pb..] == l + p[pi..];
    assert s[sb..][..|l|] == s[sb..si] && s[sb..][|l|..] == s[si..];
    LiteralFirst(l, p[pi..], s[sb..]);
  }

  /** At the end of both, the input matches; past a trailing star, too. */
  lemma AtEnd(p: seq<Byte>, s: seq<Byte>, pi: nat, si: nat, pb: nat, sb: nat)
    requires Standing(p, s, pi, si, pb, sb)
    requires (pi == |p| && si == |s|) || pb == |p|
    ensures Matches(p, s)
  {
    if pb == |p| {
      assert s[sb..][|s| - sb..] == [];
      assert Matches(p[pb..], s[sb..][|s| - sb..]);
    } else if pb <= |p| {
      AttemptIsRest(p, s, pi, si, pb, sb);
      assert s[sb..][0..] == s[sb..];
    }
  }

  /** The rest cannot match from here. */
  predicate Stuck(p: seq<Byte>, s: seq<Byte>, pi: nat, si: nat)
    requires pi <= |p| && si <= |s|
  {
    if pi < |p| then p[pi] != STAR && (si < |s| ==> !One(p[pi], s[si])) else si < |s|
  }

  /** Trying again one byte further loses nothing. */
  lemma Retry(p: seq<Byte>, s: seq<Byte>, pi: nat, si: nat, pb: nat, sb: nat)
    requires Standing(p, s, pi, si, pb, sb) && Stuck(p, s, pi, si) && sb + 1 < |s|
    requires Fits(p) && Fits(s)
    ensures Standing(p, s, pb, sb + 1, pb, sb + 1)
  {
    AttemptIsRest(p, s, pi, si, pb, sb);
    NextTail(p[pb..], s[sb..]);
    assert s[sb..][1..] == s[sb + 1..];
  }

  /** The end of the input need not be tried. */
  lemma GiveUp(p: seq<Byte>, s: seq<Byte>, pi: nat, si: nat, pb: nat, sb: nat)
    requires Standing(p, s, pi, si, pb, sb) && Stuck(p, s, pi, si) && sb + 1 >= |s| && pb != |p|
    ensures !Matches(p, s)
  {
    if pb <= |p| {
      AttemptIsRest(p, s, pi, si, pb, sb);
      assert p[pb] != STAR by {
        if pi > pb { assert p[pb..pi][0] == p[pb]; }
      }
      NextTail(p[pb..], s[sb..]);
      if sb < |s| {
        assert s[sb..][1..] == [];
        assert forall k: nat :: k <= 0 ==> s[sb..][1..][k..] == [];
      }
    }
  }

  method MatchPattern(pattern: seq<Byte>, input: seq<Byte>) returns (r: bool)
    requires Fits(pattern) && Fits(input)
    ensures r <==> Matches(pattern, input)
  {
    hide Matches, Standing, Fits;
    var pIdx: nat, sIdx: nat := 0, 0;
    var pBack: nat, sBack: nat := USIZE_MAX - 1, USIZE_MAX - 1;
    Starting(pattern, input);
    while true
      invariant Standing(pattern, input, pIdx, sIdx, pBack, sBack)
      decreases if pBack <= |pattern| then |pattern| - pBack else |pattern| + 1,
                if pBack <= |pattern| then |input| - sBack else 0,
                |pattern| - pIdx
    {
      InRange(pattern, input, pIdx, sIdx, pBack, sBack);
      if pIdx < |pattern| {
        var p := pattern[pIdx];
        if p == STAR {
          AtStar(pattern, input, pIdx, sIdx, pBack, sBack);
          pIdx := pIdx + 1;
          pBack := pIdx;
          sBack := sIdx;
          continue;
        }
        if sIdx < |input| {
          var c := input[sIdx];
          if p == c || p == QUESTION {
            AtByte(pattern, input, pIdx, sIdx, pBack, sBack);
            pIdx := pIdx + 1;
            sIdx := sIdx + 1;
            continue;
          }
        }
      } else if sIdx == |input| {
        AtEnd(pattern, input, pIdx, sIdx, pBack, sBack);
        return true;
      }

      if pBack == |pattern| {
        AtEnd(pattern, input, pIdx, sIdx, pBack, sBack);
        return true;
      }
      if sBack + 1 < |input| {
        Retry(pattern, input, pIdx, sIdx, pBack, sBack);
        sBack := sBack + 1;
        pIdx := pBack;
        sIdx := sBack;
        InRange(pattern, input, pIdx, sIdx, pBack, sBack);
        continue;
      }
      GiveUp(pattern, input, pIdx, sIdx, pBack, sBack);
      return false;
    }
  }

  lemma Starting(p: seq<Byte>, s: seq<Byte>)
    requires Fits(p) && Fits(s)
    ensures Standing(p, s, 0, 0, USIZE_MAX - 1, USIZE_MAX - 1)
  {
    assert p[0..] == p && s[0..] == s;
  }

  lemma InRange(p: seq<Byte>, s: seq<Byte>, pi: nat, si: nat, pb: nat, sb: nat)
    requires Standing(p, s, pi, si, pb, sb) && Fits(p) && Fits(s)
    ensures pi <= |p| && si <= |s|
    ensures if pb <= |p| then pb <= pi && sb <= si else sb + 1 == USIZE_MAX > |s|
  {
  }

  // ----- Pattern sets

  /** A pattern set; `None` where a pattern is empty. */
  method NewPatternSet(patterns: seq<seq<Byte>>) returns (r: Option<seq<seq<Byte>>>)
    ensures r == if [] in patterns then None else Some(patterns)
  {
    var out := [];
    for i := 0 to |patterns|
      invariant out == patterns[..i] && [] !in out
    {
      if patterns[i] == [] {
        return None;
      }
      out := out + [patterns[i]];
    }
    assert patterns[..|patterns|] == patterns;
    r := Some(out);
  }

  method IsMatch(patterns: seq<seq<Byte>>, input: seq<Byte>) returns (r: bool)
    requires Fits(input) && forall p <- patterns :: Fits(p)
    ensures r <==> exists p :: p in patterns && Matches(p, input)
  {
    for i := 0 to |patterns|
      invariant forall k :: 0 <= k < i ==> !Matches(patterns[k], input)
    {
      var m := MatchPattern(patterns[i], input);
      if m {
        return true;
      }
    }
    return false;
  }

  /** Patterns compose: a concatenation matches exactly the inputs that split between its halves. */
  lemma {:induction false} MatchesSplits(p: seq<Byte>, q: seq<Byte>, s: seq<Byte>)
    ensures Matches(p + q, s) <==> exists k: nat :: k <= |s| && Matches(p, s[..k]) && Matches(q, s[k..])
    decreases |p| + |s|
  {
    if p == [] {
      assert p + q == q && s[0..] == s && s[..0] == [];
      assert Matches(p, s[..0]);
    } else {
      assert (p + q)[1..] == p[1..] + q;
      if p[0] == STAR {
        MatchesSplits(p[1..], q, s);
      }
      if s != [] {
        MatchesSplits(if p[0] == STAR then p else p[1..], q, s[1..]);
      }
      SplitStep(p, q, s);
    }
  }

  ghost predicate Splits(p: seq<Byte>, q: seq<Byte>, s: seq<Byte>) {
    exists k: nat :: k <= |s| && Matches(p, s[..k]) && Matches(q, s[k..])
  }

  lemma SplitStep(p: seq<Byte>, q: seq<Byte>, s: seq<Byte>)
    requires p != []
    ensures Splits(p, q, s) <==>
            || (p[0] == STAR && Splits(p[1..], q, s))
            || (s != [] && (p[0] == STAR || One(p[0], s[0])) && Splits(if p[0] == STAR then p else p[1..], q, s[1..]))
  {
    if Splits(p, q, s) {
      var k: nat :| k <= |s| && Matches(p, s[..k]) && Matches(q, s[k..]);
      if k > 0 {
        assert s[..k][1..] == s[1..][..k - 1] && s[1..][k - 1..] == s[k..];
      }
    }
    if s != [] && (p[0] == STAR || One(p[0], s[0])) {
      var p1 := if p[0] == STAR then p else p[1..];
      if Splits(p1, q, s[1..]) {
        var k: nat :| k <= |s[1..]| && Matches(p1, s[1..][..k]) && Matches(q, s[1..][k..]);
        assert s[..k + 1][1..] == s[1..][..k] && s[k + 1..] == s[1..][k..];
        assert Matches(p, s[..k + 1]);
      }
    }
  }

  // ----- What a pattern says of the input's bytes

  /** A pattern byte covers a piece: anything for `*`, one byte for `?`, else itself. */
  predicate Covers(b: Byte, piece: seq<Byte>) {
    b == 42 || (|piece| == 1 && (b == 63 || b == piece[0]))
  }

  function EndToEnd(pieces: seq<seq<Byte>>): seq<Byte> {
    if pieces == [] then [] else pieces[0] + EndToEnd(pieces[1..])
  }

  /** The pieces make up the input, each covered by its own byte of the pattern. */
  ghost predicate CutInto(p: seq<Byte>, s: seq<Byte>, pieces: seq<seq<Byte>>) {
    && |pieces| == |p| && EndToEnd(pieces) == s
    && forall i :: 0 <= i < |p| ==> Covers(p[i], pieces[i])
  }

  /** A pattern matches exactly the inputs that can be cut into pieces which its bytes cover in order. */
  lemma {:induction false} MatchesPieces(p: seq<Byte>, s: seq<Byte>)
    ensures Matches(p, s) <==> exists pieces :: CutInto(p, s, pieces)
    decreases |p|
  {
    if p == [] {
      assert s == [] ==> CutInto(p, s, []);
    } else {
      FirstPiece(p, s);
      if k: nat :| k <= |s| && Covers(p[0], s[..k]) && Matches(p[1..], s[k..]) {
        MatchesPieces(p[1..], s[k..]);
        var pieces :| CutInto(p[1..], s[k..], pieces);
        assert ([s[..k]] + pieces)[1..] == pieces;
        assert CutInto(p, s, [s[..k]] + pieces);
      }
      if pieces :| CutInto(p, s, pieces) {
        var k := |pieces[0]|;
        assert s[..k] == pieces[0] && s[k..] == EndToEnd(pieces[1..]);
        assert CutInto(p[1..], s[k..], pieces[1..]);
        MatchesPieces(p[1..], s[k..]);
      }
    }
  }

  /** The first byte of a pattern takes some front piece. */
  lemma FirstPiece(p: seq<Byte>, s: seq<Byte>)
    requires p != []
    ensures Matches(p, s) <==> exists k: nat :: k <= |s| && Covers(p[0], s[..k]) && Matches(p[1..], s[k..])
  {
    if p[0] == STAR {
      StarIsTail(p, s);
    } else {
      assert forall k: nat :: k <= |s| && Covers(p[0], s[..k]) ==> k == 1 && s[..k][0] == s[0];
      assert s != [] ==> s[..1][0] == s[0] && |s[..1]| == 1;
    }
  }
}
