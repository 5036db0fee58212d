/** `Content-Disposition` values written out in bytes, with bare and quoted values and padding anywhere. */
module Parameters {
  import opened Bytes
  import opened Headers
  import opened Disposition
  import opened RoundTrip
  import opened FieldLines

  // ----- The format

  /** `word` in letters of any case; `low` is in lower case. */
  predicate Spells(word: seq<Byte>, low: seq<Byte>) {
    && |word| == |low|
    && forall i :: 0 <= i < |word| ==> word[i] == low[i] || (97 <= low[i] <= 122 && word[i] == low[i] - 32)
  }

  predicate IsFormData(word: seq<Byte>) {
    Spells(word, [102, 111, 114, 109, 45, 100, 97, 116, 97])
  }

  predicate IsName(word: seq<Byte>) {
    Spells(word, [110, 97, 109, 101])
  }

  predicate IsFileName(word: seq<Byte>) {
    Spells(word, [102, 105, 108, 101, 110, 97, 109, 101])
  }

  /** Quotes and backslashes with a backslash in front. */
  function Backslashed(s: seq<Byte>): seq<Byte> {
    if s == [] then [] else (if s[0] in [34, 92] then [92, s[0]] else [s[0]]) + Backslashed(s[1..])
  }

  lemma {:induction false} BackslashedIs(s: seq<Byte>)
    ensures Backslashed(s) == Escape(s)
  {
    if s != [] {
      BackslashedIs(s[1..]);
    }
  }

  /** Not padding at either end. */
  predicate Tight(s: seq<Byte>) {
    s != [] ==> s[0] !in [32, 9] && s[|s| - 1] !in [32, 9]
  }

  /** A parameter: padding, a key, padding around an equals sign, a value, and what trails it. */
  datatype WrittenParam = WrittenParam(
    lead: seq<Byte>, key: seq<Byte>, left: seq<Byte>, right: seq<Byte>,
    quoted: bool, value: seq<Byte>, trail: seq<Byte>)
  {
    /** A quoted value may be trailed by anything but a semicolon. */
    predicate Valid() {
      && Pads(lead) && Pads(left) && Pads(right)
      && key != [] && 61 !in key && Tight(key)
      && if quoted then 59 !in trail
         else Pads(trail) && Tight(value) && 59 !in value && (value != [] ==> value[0] != 34)
    }

    function Bytes(): seq<Byte> {
      if quoted then [34] + Backslashed(value) + [34] else value
    }

    function Front(): seq<Byte> {
      lead + (key + left + [61])
    }

    function Back(more: seq<Byte>): seq<Byte> {
      right + (Bytes() + trail + more)
    }

    /** What the reader hands out: quoted pairs stay as they are. */
    function Read(): seq<Byte> {
      if quoted then Backslashed(value) else value
    }
  }

  /** What no parameter can be read from: no equals sign, no key, or a quote that is never closed. */
  ghost predicate Hopeless(junk: seq<Byte>) {
    || 61 !in junk
    || (exists pad, s :: Keyless(junk, pad, s))
    || (exists front, pad, s :: Unclosed(junk, front, pad, s))
  }

  predicate Keyless(junk: seq<Byte>, pad: seq<Byte>, s: seq<Byte>) {
    Pads(pad) && junk == pad + [61] + s
  }

  predicate Unclosed(junk: seq<Byte>, front: seq<Byte>, pad: seq<Byte>, s: seq<Byte>) {
    61 !in front && Pads(pad) && 34 !in s && junk == front + [61] + pad + [34] + s
  }

  /** Every parameter behind a semicolon, then perhaps something hopeless behind one more. */
  function Written(params: seq<WrittenParam>, junk: Option<seq<Byte>>): seq<Byte> {
    if params == [] then (if junk.Some? then [59] + junk.value else [])
    else [59] + (params[0].Front() + params[0].Back(Written(params[1..], junk)))
  }

  /** The value of the first parameter whose key is the word. */
  function FirstWith(params: seq<WrittenParam>, wanted: seq<Byte> -> bool): Option<seq<Byte>> {
    if params == [] then None
    else if wanted(params[0].key) then Some(params[0].Read())
    else FirstWith(params[1..], wanted)
  }

  // ----- Words

  lemma SpellsIs(word: seq<Byte>, low: seq<Byte>)
    requires forall i :: 0 <= i < |low| ==> !(65 <= low[i] <= 90)
    ensures EqIgnoreCase(word, low) <==> Spells(word, low)
  {
    if |word| == |low| {
      forall i | 0 <= i < |word|
        ensures Lower(word[i]) == Lower(low[i]) <==>
                word[i] == low[i] || (97 <= low[i] <= 122 && word[i] == low[i] - 32)
      {
      }
    }
  }

  // ----- Trimming

  lemma TrimTight(l: seq<Byte>, core: seq<Byte>, r: seq<Byte>)
    requires Pads(l) && Pads(r) && Tight(core)
    ensures Trim(l + core + r) == core
  {
    var s := l + core + r;
    assert s[0..|s|] == s;
    TrimmedValue(s, 0, |s|, l, core, r);
  }

  /** A string without the padding at its end. */
  function Kept(s: seq<Byte>): (r: seq<Byte>)
    ensures |r| <= |s| && s[..|r|] == r && Pads(s[|r|..])
    ensures r != [] ==> r[|r| - 1] !in [32, 9]
  {
    s[..TrimRight(s, 0, |s|)]
  }

  /** What trimming takes off. */
  lemma TrimSplits(s: seq<Byte>) returns (l: seq<Byte>, r: seq<Byte>)
    ensures Pads(l) && Pads(r) && Tight(Trim(s)) && s == l + Trim(s) + r
  {
    hide TrimSpan, Pads;
    TrimParts(s, 0);
    var t := TrimSpan(s, 0, |s|);
    l, r := s[0..t.start], s[t.end..];
  }

  /** Padding at the end makes no difference. */
  lemma TrimKept(s: seq<Byte>)
    ensures Trim(Kept(s)) == Trim(s)
  {
    hide Trim, Kept, Tight;
    var u := Kept(s);
    var l, r := TrimSplits(u);
    var w := s[|u|..];
    assert s == u + w;
    assert s == l + Trim(u) + (r + w);
    TrimTight(l, Trim(u), r + w);
  }

  /** The word in front of a semicolon, and what is behind it, after trimming the whole. */
  lemma TrimBefore(l: seq<Byte>, word: seq<Byte>, after: seq<Byte>, rest: seq<Byte>) returns (front: seq<Byte>)
    requires Pads(l) && Pads(after) && Tight(word) && 59 !in word
    ensures var all := Trim(l + word + after + [59] + rest);
            && all == front + [59] + Kept(rest) && Memchr(59, all) == Some(|front|)
            && all[..|front|] == front && Trim(front) == word && all[|front| + 1..] == Kept(rest)
            && all[0] == if word == [] then 59 else word[0]
  {
    hide Trim, Memchr, Kept;
    var w := rest[|Kept(rest)|..];
    var lead := if word == [] then l + after else l;
    front := if word == [] then [] else word + after;
    var core := front + [59] + Kept(rest);
    assert l + word + after + [59] + rest == lead + core + w by { assert rest == Kept(rest) + w; }
    assert core[0] == if word == [] then 59 else word[0];
    TrimTight(lead, core, w);
    assert 59 !in after;
    assert core[..|front|] == front;
    MemchrIs(59, core, |front|);
    assert front == [] + word + (if word == [] then [] else after);
    TrimTight([], word, if word == [] then [] else after);
  }

  // ----- Values

  lemma QuotedValue(p: WrittenParam, more: seq<Byte>)
    requires p.Valid() && p.quoted && (more != [] ==> more[0] == 59)
    ensures var v := ValueOf(Trim(p.Back(more)));
            && v.Some? && v.value.text == p.Read()
            && v.value.next == if more == [] then [] else Kept(more[1..])
  {
    hide Trim, ValueOf, Kept, Pads, WrittenParam.Bytes, WrittenParam.Read, SkipUntilSemicolon;
    assert p.Bytes() + p.trail + more == p.Bytes() + (p.trail + more);
    var kept := Kept(if more == [] then p.trail else more[1..]);
    var w := (if more == [] then p.trail else more[1..])[|kept|..];
    var y := if more == [] then kept else p.trail + [59] + kept;
    assert p.trail + more == y + w;
    Skipped(p.trail, y, kept, more == []);
    QuotedThen(p, y, w);
  }

  lemma Skipped(trail: seq<Byte>, y: seq<Byte>, kept: seq<Byte>, last: bool)
    requires 59 !in trail
    requires if last then y <= trail else y == trail + [59] + kept
    ensures SkipUntilSemicolon(y) == if last then [] else kept
  {
    hide Memchr;
    if last {
      assert forall b :: b in y ==> b in trail;
    } else {
      assert y[..|trail|] == trail && y[|trail| + 1..] == kept;
      MemchrIs(59, y, |trail|);
    }
  }

  lemma QuotedThen(p: WrittenParam, y: seq<Byte>, w: seq<Byte>)
    requires p.quoted && Pads(p.right) && Pads(w) && (y != [] ==> y[|y| - 1] !in [32, 9])
    ensures ValueOf(Trim(p.right + (p.Bytes() + (y + w)))) == Some(Quoted(p.Read(), SkipUntilSemicolon(y)))
  {
    hide Trim, Memchr, QuotedOf, Escape, Backslashed, Pads, SkipUntilSemicolon;
    BackslashedIs(p.value);
    var core := [34] + Escape(p.value) + [34] + y;
    assert p.right + (p.Bytes() + (y + w)) == p.right + core + w;
    assert core[0] == 34;
    TrimTight(p.right, core, w);
    QuotedEscaped(p.value, y);
  }

  lemma BareValue(p: WrittenParam, more: seq<Byte>)
    requires p.Valid() && !p.quoted && (more != [] ==> more[0] == 59)
    ensures var v := ValueOf(Trim(p.Back(more)));
            && v.Some? && v.value.text == p.Read()
            && v.value.next == if more == [] then [] else Kept(more[1..])
  {
    hide Trim, Memchr, QuotedOf, Kept;
    if more == [] {
      assert p.Back(more) == p.right + p.value + p.trail;
      TrimTight(p.right, p.value, p.trail);
      assert p.value == [] + p.value + [];
      TrimTight([], p.value, []);
    } else {
      BareThenMore(p, more[1..]);
      assert more == [59] + more[1..];
    }
  }

  lemma BareThenMore(p: WrittenParam, rest: seq<Byte>)
    requires p.Valid() && !p.quoted
    ensures var v := ValueOf(Trim(p.Back([59] + rest)));
            v.Some? && v.value.text == p.value && v.value.next == Kept(rest)
  {
    hide Trim, Memchr, QuotedOf, Kept, Pads, Tight;
    var front := TrimBefore(p.right, p.value, p.trail, rest);
    assert p.Back([59] + rest) == p.right + p.value + p.trail + [59] + rest;
  }

  // ----- Parameters

  /** A written parameter is read; what follows it may have lost padding at its end. */
  lemma ParameterRead(p: WrittenParam, more: seq<Byte>)
    requires p.Valid() && (more != [] ==> more[0] == 59)
    ensures var text := p.Front() + p.Back(more);
            && Trim(text) != []
            && ParameterOf(text) == Some(Parameter(p.key, p.Read(), if more == [] then [] else Kept(more[1..])))
  {
    hide Trim, Memchr, ValueOf, WrittenParam.Back, Kept;
    var text, back := p.Front() + p.Back(more), p.Back(more);
    var w := back[|Kept(back)|..];
    var core := p.key + p.left + [61] + Kept(back);
    assert core[0] == p.key[0];
    assert text == p.lead + core + w by { assert back == Kept(back) + w; }
    TrimTight(p.lead, core, w);
    var n := |p.key + p.left|;
    assert core[..n] == p.key + p.left && core[n + 1..] == Kept(back);
    assert 61 !in p.left;
    MemchrIs(61, core, n);
    assert p.key + p.left == [] + p.key + p.left;
    TrimTight([], p.key, p.left);
    TrimKept(back);
    if p.quoted {
      QuotedValue(p, more);
    } else {
      BareValue(p, more);
    }
  }

  lemma TrimmedOnly(a: seq<Byte>, b: seq<Byte>, sofar: ContentDisposition)
    requires Trim(a) == Trim(b)
    ensures ParametersOf(a, sofar) == ParametersOf(b, sofar)
  {
    hide Trim, Memchr, ValueOf;
    assert ParameterOf(a) == ParameterOf(b);
  }

  lemma HopelessRead(junk: seq<Byte>)
    requires Hopeless(junk)
    ensures ParameterOf(junk).None?
  {
    hide Trim, Memchr, ValueOf;
    if 61 !in junk {
      var l, r := TrimSplits(junk);
      assert forall b :: b in Trim(junk) ==> b in junk;
    } else if pad, s :| Keyless(junk, pad, s) {
      NoKey(pad, s);
    } else {
      var front, pad, s :| Unclosed(junk, front, pad, s);
      NeverClosed(front, pad, s);
    }
  }

  lemma NoKey(pad: seq<Byte>, s: seq<Byte>)
    requires Pads(pad)
    ensures ParameterOf(pad + [61] + s).None?
  {
    hide Memchr, ValueOf, Trim, Kept;
    var w, core := s[|Kept(s)|..], [61] + Kept(s);
    assert pad + [61] + s == pad + core + w by { assert s == Kept(s) + w; }
    TrimTight(pad, core, w);
    MemchrIs(61, core, 0);
    assert core[..0] == [] + [] + [];
    TrimTight([], [], []);
  }

  lemma NeverClosed(front: seq<Byte>, pad: seq<Byte>, s: seq<Byte>)
    requires 61 !in front && Pads(pad) && 34 !in s
    ensures ParameterOf(front + [61] + pad + [34] + s).None?
  {
    hide Memchr, Trim, Kept, TrimLeft, TrimRight;
    var junk := front + [61] + pad + [34] + s;
    var w := s[|Kept(s)|..];
    var lead, key := LeadOf(front);
    var core := key + [61] + pad + [34] + Kept(s);
    assert junk == lead + core + w by { assert s == Kept(s) + w; }
    assert core[0] == if key == [] then 61 else key[0];
    TrimTight(lead, core, w);
    assert core[..|key|] == key && core[|key| + 1..] == pad + ([34] + Kept(s)) + [];
    MemchrIs(61, core, |key|);
    TrimTight(pad, [34] + Kept(s), []);
    forall e | 1 <= e ensures !ClosesAt([34] + Kept(s), e) {
      if e <= |Kept(s)| {
        assert ([34] + Kept(s))[e] == s[..|Kept(s)|][e - 1] == s[e - 1];
        assert s[e - 1] in s;
      }
    }
  }

  /** The padding in front. */
  lemma LeadOf(front: seq<Byte>) returns (lead: seq<Byte>, key: seq<Byte>)
    ensures front == lead + key && Pads(lead) && (key != [] ==> key[0] !in [32, 9])
  {
    hide TrimLeft;
    var n := TrimLeft(front, 0, |front|);
    lead, key := front[..n], front[n..];
  }

  // ----- Lists of parameters

  /** What the parameters add to what is already known. */
  function Saying(params: seq<WrittenParam>, sofar: ContentDisposition): ContentDisposition {
    ContentDisposition(
      if sofar.name.Some? then sofar.name else FirstWith(params, IsName),
      if sofar.fileName.Some? then sofar.fileName else FirstWith(params, IsFileName))
  }

  lemma SayingStep(params: seq<WrittenParam>, sofar: ContentDisposition)
    requires params != []
    ensures Saying(params, sofar) == Saying(params[1..], Noted(sofar, params[0].key, params[0].Read()))
  {
    hide EqIgnoreCase, Spells;
    var key := params[0].key;
    SpellsIs(key, NAME);
    SpellsIs(key, FILENAME);
    OneWord(key);
  }

  lemma OneWord(key: seq<Byte>)
    ensures !(IsName(key) && IsFileName(key))
  {
  }

  lemma {:induction false} ParametersRead(
    params: seq<WrittenParam>, junk: Option<seq<Byte>>, sofar: ContentDisposition)
    requires (forall p <- params :: p.Valid()) && (junk.Some? ==> Hopeless(junk.value))
    requires Written(params, junk) != []
    ensures ParametersOf(Written(params, junk)[1..], sofar) == Saying(params, sofar)
    decreases |params|
  {
    hide ParameterOf, Trim, WrittenParam.Valid, WrittenParam.Front, WrittenParam.Back, WrittenParam.Read;
    hide Saying, Hopeless, Noted, Kept;
    if params == [] {
      NothingMore(sofar);
      HopelessRead(junk.value);
    } else {
      var p, more := params[0], Written(params[1..], junk);
      var now := Noted(sofar, p.key, p.Read());
      assert Written(params, junk)[1..] == p.Front() + p.Back(more);
      ParameterRead(p, more);
      SayingStep(params, sofar);
      if more == [] {
        NothingMore(now);
        TrimEmpty();
      } else {
        TrimKept(more[1..]);
        TrimmedOnly(Kept(more[1..]), more[1..], now);
        ParametersRead(params[1..], junk, now);
      }
    }
  }

  lemma NothingMore(sofar: ContentDisposition)
    ensures Saying([], sofar) == sofar
  {
  }

  /**
   * Any value: `form-data` in letters of any case with the parameters behind it gives the first `name` and
   * the first `filename` in front of anything hopeless; any other word is refused.
   */
  lemma WrittenReads(
    before: seq<Byte>, word: seq<Byte>, after: seq<Byte>, params: seq<WrittenParam>, junk: Option<seq<Byte>>)
    requires Pads(before) && Pads(after) && Tight(word) && 59 !in word
    requires (forall p <- params :: p.Valid()) && (junk.Some? ==> Hopeless(junk.value))
    ensures DispositionOf(before + word + after + Written(params, junk)) ==
            if !IsFormData(word) then None
            else Some(ContentDisposition(FirstWith(params, IsName), FirstWith(params, IsFileName)))
  {
    hide Trim, Memchr, ParametersOf, Written, EqIgnoreCase, Spells, FirstWith, WrittenParam.Valid, Hopeless;
    var list, none := Written(params, junk), ContentDisposition(None, None);
    SpellsIs(word, FORM_DATA);
    if list == [] {
      assert before + word + after + list == before + word + after;
      TrimTight(before, word, after);
      NothingWritten(params, junk);
    } else {
      Listed(before, word, after, list, params, junk);
      ParametersRead(params, junk, none);
      TrimKept(list[1..]);
      TrimmedOnly(Kept(list[1..]), list[1..], none);
    }
  }

  lemma NothingWritten(params: seq<WrittenParam>, junk: Option<seq<Byte>>)
    requires Written(params, junk) == []
    ensures params == []
    ensures FirstWith(params, IsName).None? && FirstWith(params, IsFileName).None?
  {
  }

  /** Where the list starts. */
  lemma Listed(
    before: seq<Byte>, word: seq<Byte>, after: seq<Byte>, list: seq<Byte>, params: seq<WrittenParam>,
    junk: Option<seq<Byte>>)
    requires Pads(before) && Pads(after) && Tight(word) && 59 !in word
    requires list == Written(params, junk) != []
    ensures DispositionOf(before + word + after + list) ==
            if !EqIgnoreCase(word, FORM_DATA) then None
            else Some(ParametersOf(Kept(list[1..]), ContentDisposition(None, None)))
  {
    hide Trim, Memchr, ParametersOf, EqIgnoreCase, Kept, Pads, Tight;
    assert list == [59] + list[1..];
    var front := TrimBefore(before, word, after, list[1..]);
    assert before + word + after + list == before + word + after + [59] + list[1..];
  }
}
