/** `Content-Disposition: form-data` values. */
module Disposition {
  import opened Bytes
  import opened Headers

  const QUOTE: Byte := 34
  const BACKSLASH: Byte := 92
  const SEMICOLON: Byte := 59
  const EQUALS: Byte := 61

  /** `form-data` */
  const FORM_DATA: seq<Byte> := [102, 111, 114, 109, 45, 100, 97, 116, 97]
  /** `name` */
  const NAME: seq<Byte> := [110, 97, 109, 101]
  /** `filename` */
  const FILENAME: seq<Byte> := [102, 105, 108, 101, 110, 97, 109, 101]

  datatype ContentDisposition = ContentDisposition(name: Option<seq<Byte>>, fileName: Option<seq<Byte>>)

  datatype Parameter = Parameter(key: seq<Byte>, value: seq<Byte>, next: seq<Byte>)

  datatype Quoted = Quoted(text: seq<Byte>, next: seq<Byte>)

  /** `memchr`: the first place of a byte. */
  function Memchr(b: Byte, s: seq<Byte>): (r: Option<nat>)
    ensures r.Some? ==> r.value < |s| && s[r.value] == b && b !in s[..r.value]
    ensures r.None? ==> b !in s
  {
    if s == [] then None
    else if s[0] == b then Some(0)
    else
      var r := Memchr(b, s[1..]);
      if r.None? then None
      else
        assert s[..r.value + 1] == [s[0]] + s[1..][..r.value];
        Some(r.value + 1)
  }

  lemma {:induction false} MemchrIs(b: Byte, s: seq<Byte>, i: nat)
    requires i < |s| && s[i] == b && b !in s[..i]
    ensures Memchr(b, s) == Some(i)
  {
    if i > 0 {
      assert s[0] == s[..i][0];
      assert s[1..][..i - 1] == s[..i][1..];
      MemchrIs(b, s[1..], i - 1);
    }
  }

  function Lower(b: Byte): Byte {
    if 65 <= b <= 90 then b + 32 else b
  }

  predicate EqIgnoreCase(a: seq<Byte>, b: seq<Byte>) {
    |a| == |b| && forall i :: 0 <= i < |a| ==> Lower(a[i]) == Lower(b[i])
  }

  // ----- Quoted strings

  /** How many backslashes stand right before `e`, not counting past the opening quote. */
  function Backslashes(input: seq<Byte>, e: nat): nat
    requires e <= |input|
  {
    if e <= 1 || input[e - 1] != BACKSLASH then 0 else 1 + Backslashes(input, e - 1)
  }

  /** A quote closes the string unless an odd number of backslashes escapes it. */
  predicate ClosesAt(input: seq<Byte>, e: nat) {
    1 <= e < |input| && input[e] == QUOTE && Backslashes(input, e) % 2 == 0
  }

  /** The first unescaped quote at or after `i`. */
  function FirstClose(input: seq<Byte>, i: nat): (r: Option<nat>)
    ensures r.Some? ==> i <= r.value && ClosesAt(input, r.value) && forall e :: i <= e < r.value ==> !ClosesAt(input, e)
    ensures r.None? ==> forall e :: i <= e ==> !ClosesAt(input, e)
    decreases |input| - i
  {
    if i >= |input| then None
    else if ClosesAt(input, i) then Some(i)
    else FirstClose(input, i + 1)
  }

  /** The text up to the first unescaped quote, and what follows it. */
  function QuotedOf(input: seq<Byte>): (r: Option<Quoted>)
    ensures r.Some? ==> |r.value.next| < |input|
  {
    if input == [] || input[0] != QUOTE then None
    else
      var end := FirstClose(input, 1);
      if end.None? then None else Some(Quoted(input[1..end.value], input[end.value + 1..]))
  }

  lemma NoBackslash(input: seq<Byte>, e: nat)
    requires 1 <= e <= |input| && forall i :: 1 <= i < e ==> input[i] != BACKSLASH
    ensures Backslashes(input, e) == 0
  {
  }

  /** Skipping places that close nothing. */
  lemma {:induction false} FirstCloseSkips(input: seq<Byte>, i: nat, j: nat)
    requires i <= j <= |input| && forall e :: i <= e < j ==> !ClosesAt(input, e)
    ensures FirstClose(input, i) == FirstClose(input, j)
    decreases j - i
  {
    if i < j {
      FirstCloseSkips(input, i + 1, j);
    }
  }

  /** The bulk scan for a quote or a backslash, then the byte-wise scan with its escape flag. */
  method ParseQuoted(input: seq<Byte>) returns (r: Option<Quoted>)
    ensures r == QuotedOf(input)
  {
    if input == [] || input[0] != QUOTE {
      return None;
    }
    var pos := 1;
    while pos < |input| && input[pos] != QUOTE && input[pos] != BACKSLASH
      invariant 1 <= pos <= |input|
      invariant forall i :: 1 <= i < pos ==> input[i] != QUOTE && input[i] != BACKSLASH
    {
      pos := pos + 1;
    }
    FirstCloseSkips(input, 1, pos);
    NoBackslash(input, pos);
    if pos == |input| {
      return None;
    }
    if input[pos] == QUOTE {
      return Some(Quoted(input[1..pos], input[pos + 1..]));
    }
    var escaped := false;
    var end: Option<nat> := None;
    var at := pos;
    while at < |input|
      invariant pos <= at <= |input| && end.None?
      invariant escaped == (Backslashes(input, at) % 2 == 1)
      invariant forall e :: 1 <= e < at ==> !ClosesAt(input, e)
    {
      if escaped {
        escaped := false;
      } else if input[at] == BACKSLASH {
        escaped := true;
      } else if input[at] == QUOTE {
        end := Some(at);
        break;
      }
      at := at + 1;
    }
    FirstCloseSkips(input, 1, at);
    if end.None? {
      return None;
    }
    r := Some(Quoted(input[1..end.value], input[end.value + 1..]));
  }

  // ----- Parameters

  function SkipUntilSemicolon(input: seq<Byte>): (r: seq<Byte>)
    ensures |r| <= |input|
  {
    var at := Memchr(SEMICOLON, input);
    if at.Some? then input[at.value + 1..] else []
  }

  /** A parameter's value, quoted or bare, and what follows it. */
  function ValueOf(value: seq<Byte>): (r: Option<Quoted>)
    ensures r.Some? ==> |r.value.next| <= |value|
  {
    if value != [] && value[0] == QUOTE then
      var q := QuotedOf(value);
      if q.None? then None else Some(Quoted(q.value.text, SkipUntilSemicolon(q.value.next)))
    else
      var at := Memchr(SEMICOLON, value);
      if at.Some? then Some(Quoted(Trim(value[..at.value]), value[at.value + 1..]))
      else Some(Quoted(Trim(value), []))
  }

  lemma TrimShortens(s: seq<Byte>)
    ensures |Trim(s)| <= |s|
  {
  }

  /** One parameter of the list; what follows it is always shorter. */
  function ParameterOf(input0: seq<Byte>): (r: Option<Parameter>)
    ensures r.Some? ==> |r.value.next| < |input0|
  {
    TrimShortens(input0);
    var input := Trim(input0);
    var equals := Memchr(EQUALS, input);
    if equals.None? then None
    else
      var key := Trim(input[..equals.value]);
      if key == [] then None
      else
        TrimShortens(input[equals.value + 1..]);
        var value := ValueOf(Trim(input[equals.value + 1..]));
        if value.None? then None else Some(Parameter(key, value.value.text, value.value.next))
  }

  method ParseParameter(input0: seq<Byte>) returns (r: Option<Parameter>)
    ensures r == ParameterOf(input0)
  {
    hide Trim, Memchr, QuotedOf, SkipUntilSemicolon;
    var input := Trim(input0);
    var equals := Memchr(EQUALS, input);
    if equals.None? {
      return None;
    }
    var key := Trim(input[..equals.value]);
    if key == [] {
      return None;
    }
    var value := Trim(input[equals.value + 1..]);
    if value != [] && value[0] == QUOTE {
      var q := ParseQuoted(value);
      if q.None? {
        return None;
      }
      return Some(Parameter(key, q.value.text, SkipUntilSemicolon(q.value.next)));
    }
    var at := Memchr(SEMICOLON, value);
    if at.Some? {
      return Some(Parameter(key, Trim(value[..at.value]), value[at.value + 1..]));
    }
    return Some(Parameter(key, Trim(value), []));
  }

  /** The first `name` and the first `filename` among the parameters before the first malformed one. */
  function ParametersOf(rest: seq<Byte>, sofar: ContentDisposition): ContentDisposition
    decreases |rest|
  {
    if Trim(rest) == [] then sofar
    else
      var p := ParameterOf(rest);
      if p.None? then sofar else ParametersOf(p.value.next, Noted(sofar, p.value.key, p.value.value))
  }

  function Noted(sofar: ContentDisposition, key: seq<Byte>, value: seq<Byte>): ContentDisposition {
    if sofar.name.None? && EqIgnoreCase(key, NAME) then sofar.(name := Some(value))
    else if sofar.fileName.None? && EqIgnoreCase(key, FILENAME) then sofar.(fileName := Some(value))
    else sofar
  }

  function DispositionOf(value: seq<Byte>): Option<ContentDisposition> {
    var input := Trim(value);
    var semicolon := Memchr(SEMICOLON, input);
    var disposition := if semicolon.Some? then Trim(input[..semicolon.value]) else input;
    if !EqIgnoreCase(disposition, FORM_DATA) then None
    else if semicolon.None? then Some(ContentDisposition(None, None))
    else Some(ParametersOf(input[semicolon.value + 1..], ContentDisposition(None, None)))
  }

  method ParseContentDisposition(value: seq<Byte>) returns (r: Option<ContentDisposition>)
    ensures r == DispositionOf(value)
  {
    hide ParameterOf, EqIgnoreCase, Trim;
    var input := Trim(value);
    var semicolon := Memchr(SEMICOLON, input);
    var disposition := if semicolon.Some? then Trim(input[..semicolon.value]) else input;
    if !EqIgnoreCase(disposition, FORM_DATA) {
      return None;
    }
    if semicolon.None? {
      return Some(ContentDisposition(None, None));
    }
    var found := ContentDisposition(None, None);
    var rest := input[semicolon.value + 1..];
    ghost var all := ParametersOf(rest, found);
    while Trim(rest) != []
      invariant ParametersOf(rest, found) == all
      decreases |rest|
    {
      var p := ParseParameter(rest);
      if p.None? {
        break;
      }
      if found.name.None? && EqIgnoreCase(p.value.key, NAME) {
        found := found.(name := Some(p.value.value));
      } else if found.fileName.None? && EqIgnoreCase(p.value.key, FILENAME) {
        found := found.(fileName := Some(p.value.value));
      }
      rest := p.value.next;
    }
    r := Some(found);
  }

  // ----- Printing

  /** A byte as it is printed. */
  function Escaped(c: Byte): seq<Byte> {
    if c == QUOTE || c == BACKSLASH then [BACKSLASH, c] else [c]
  }

  /** A value with its quotes and backslashes escaped. */
  function Escape(s: seq<Byte>): seq<Byte> {
    if s == [] then []
    else Escaped(s[0]) + Escape(s[1..])
  }

  /** Every quoted pair replaced by its second byte. */
  function Unescape(s: seq<Byte>): seq<Byte> {
    if s == [] then []
    else if s[0] == BACKSLASH && |s| > 1 then [s[1]] + Unescape(s[2..])
    else [s[0]] + Unescape(s[1..])
  }

  lemma {:induction false} UnescapeEscape(s: seq<Byte>)
    ensures Unescape(Escape(s)) == s
  {
    if s != [] {
      UnescapeEscape(s[1..]);
      var e := Escape(s);
      if s[0] == QUOTE || s[0] == BACKSLASH {
        assert e[2..] == Escape(s[1..]);
      } else {
        assert e[1..] == Escape(s[1..]);
      }
    }
  }

  /** A printed list of quoted parameters. */
  function Printed(params: seq<(seq<Byte>, seq<Byte>)>): seq<Byte> {
    if params == [] then []
    else [SEMICOLON, SP] + params[0].0 + [EQUALS, QUOTE] + Escape(params[0].1) + [QUOTE] + Printed(params[1..])
  }

  /** A key that can be printed: not empty, without an equals sign and without whitespace at its ends. */
  predicate PlainKey(key: seq<Byte>) {
    key != [] && EQUALS !in key && !IsPad(key[0]) && !IsPad(key[|key| - 1])
  }

  /** The escaped value of the first parameter with this key. */
  function First(params: seq<(seq<Byte>, seq<Byte>)>, key: seq<Byte>): Option<seq<Byte>> {
    if params == [] then None
    else if EqIgnoreCase(params[0].0, key) then Some(Escape(params[0].1))
    else First(params[1..], key)
  }

  /** What the parameters add to what is already known. */
  function Said(params: seq<(seq<Byte>, seq<Byte>)>, sofar: ContentDisposition): ContentDisposition {
    ContentDisposition(
      if sofar.name.Some? then sofar.name else First(params, NAME),
      if sofar.fileName.Some? then sofar.fileName else First(params, FILENAME))
  }

  lemma SaidStep(params: seq<(seq<Byte>, seq<Byte>)>, sofar: ContentDisposition)
    requires params != []
    ensures Said(params, sofar) == Said(params[1..], Noted(sofar, params[0].0, Escape(params[0].1)))
  {
    assert !(EqIgnoreCase(params[0].0, NAME) && EqIgnoreCase(params[0].0, FILENAME));
  }

  /** Whitespace around something that neither starts nor ends with whitespace is all that trimming removes. */
  lemma TrimIs(pad: seq<Byte>, core: seq<Byte>)
    requires forall i :: 0 <= i < |pad| ==> IsPad(pad[i])
    requires core != [] && !IsPad(core[0]) && !IsPad(core[|core| - 1])
    ensures Trim(pad + core) == core
  {
    var s := pad + core;
    var lo := TrimLeft(s, 0, |s|);
    assert s[|pad|] == core[0];
    assert forall i :: 0 <= i < |pad| ==> s[i] == pad[i];
    assert lo == |pad|;
    assert s[|s| - 1] == core[|core| - 1];
    assert TrimRight(s, lo, |s|) == |s|;
    assert s[|pad|..] == core;
  }

  lemma TrimNothing(core: seq<Byte>)
    requires core != [] && !IsPad(core[0]) && !IsPad(core[|core| - 1])
    ensures Trim(core) == core
  {
    assert [] + core == core;
    TrimIs([], core);
  }

  /** An escaped text closes nothing; an unescaped quote after it does. */
  lemma {:induction false} EscapedCloses(before: seq<Byte>, s: seq<Byte>, after: seq<Byte>)
    requires before != [] && Backslashes(before, |before|) % 2 == 0
    ensures FirstClose(before + Escape(s) + [QUOTE] + after, |before|) == Some(|before| + |Escape(s)|)
    decreases |s|
  {
    hide Backslashes, FirstClose, ClosesAt, Escaped;
    if s == [] {
      QuoteCloses(before, after);
      assert before + [] + [QUOTE] + after == before + [QUOTE] + after;
    } else {
      var head, rest := Escaped(s[0]), Escape(s[1..]);
      Regrouped(before, head, rest, after);
      HeadEven(before, s[0]);
      HeadCloses(before, s[0], rest + [QUOTE] + after);
      EscapedCloses(before + head, s[1..], after);
      FirstCloseSkips(before + (head + rest) + [QUOTE] + after, |before|, |before| + |head|);
    }
  }

  lemma Regrouped(before: seq<Byte>, head: seq<Byte>, rest: seq<Byte>, after: seq<Byte>)
    ensures before + (head + rest) + [QUOTE] + after == (before + head) + rest + [QUOTE] + after
    ensures before + (head + rest) + [QUOTE] + after == before + head + (rest + [QUOTE] + after)
  {
  }

  lemma QuoteCloses(before: seq<Byte>, after: seq<Byte>)
    requires before != [] && Backslashes(before, |before|) % 2 == 0
    ensures FirstClose(before + [QUOTE] + after, |before|) == Some(|before|)
  {
    hide Backslashes;
    assert before + ([QUOTE] + after) == before + [QUOTE] + after;
    BackslashesBefore(before, [QUOTE] + after, |before|);
  }

  /** An escaped byte closes nothing. */
  lemma HeadCloses(before: seq<Byte>, c: Byte, rest: seq<Byte>)
    requires before != [] && Backslashes(before, |before|) % 2 == 0
    ensures var all := before + Escaped(c) + rest;
            forall e :: |before| <= e < |before| + |Escaped(c)| ==> !ClosesAt(all, e)
  {
    hide Backslashes;
    var head := Escaped(c);
    var all := before + head + rest;
    assert all[|before|] == head[0] != QUOTE;
    if |head| == 2 {
      assert all == before + (head + rest);
      BackslashesBefore(before, head + rest, |before|);
      BackslashesAt(all, |before| + 1);
    }
  }

  lemma {:induction false} BackslashesBefore(a: seq<Byte>, b: seq<Byte>, e: nat)
    requires e <= |a|
    ensures Backslashes(a + b, e) == Backslashes(a, e)
  {
    if e > 1 {
      assert (a + b)[e - 1] == a[e - 1];
      BackslashesBefore(a, b, e - 1);
    }
  }

  /** After a printed byte the number of backslashes is even again. */
  lemma HeadEven(before: seq<Byte>, c: Byte)
    requires before != [] && Backslashes(before, |before|) % 2 == 0
    ensures Backslashes(before + Escaped(c), |before + Escaped(c)|) % 2 == 0
  {
    hide Backslashes;
    if c == QUOTE || c == BACKSLASH {
      var s := before + [BACKSLASH, c];
      BackslashesBefore(before, [BACKSLASH, c], |before|);
      BackslashesAt(s, |before| + 1);
      BackslashesAt(s, |before| + 2);
      assert s[|before|] == BACKSLASH && s[|before| + 1] == c;
    } else {
      BackslashesAt(before + [c], |before| + 1);
    }
  }

  lemma BackslashesAt(s: seq<Byte>, e: nat)
    requires 1 < e <= |s|
    ensures Backslashes(s, e) == if s[e - 1] == BACKSLASH then 1 + Backslashes(s, e - 1) else 0
  {
  }

  lemma QuotedEscaped(s: seq<Byte>, after: seq<Byte>)
    ensures QuotedOf([QUOTE] + Escape(s) + [QUOTE] + after) == Some(Quoted(Escape(s), after))
  {
    var all := [QUOTE] + Escape(s) + [QUOTE] + after;
    EscapedCloses([QUOTE], s, after);
    assert all[0] == QUOTE;
    assert all[1..1 + |Escape(s)|] == Escape(s);
    assert all[2 + |Escape(s)|..] == after;
  }

  /** What stands between a printed list's first semicolon and its end. */
  function Tail(params: seq<(seq<Byte>, seq<Byte>)>): seq<Byte> {
    if params == [] then [] else Printed(params)[1..]
  }

  lemma PrintedEnds(params: seq<(seq<Byte>, seq<Byte>)>)
    requires params != []
    ensures var all := Printed(params);
            all != [] && all[0] == SEMICOLON && all[|all| - 1] == QUOTE
  {
    if |params| > 1 {
      PrintedEnds(params[1..]);
    }
  }

  /** A printed value, then the rest of the list. */
  function AfterKey(params: seq<(seq<Byte>, seq<Byte>)>): seq<Byte>
    requires params != []
  {
    [QUOTE] + Escape(params[0].1) + [QUOTE] + Printed(params[1..])
  }

  lemma AfterKeyEnds(params: seq<(seq<Byte>, seq<Byte>)>)
    requires params != []
    ensures var all := AfterKey(params);
            all != [] && all[0] == QUOTE && all[|all| - 1] == QUOTE
  {
    if |params| > 1 {
      PrintedEnds(params[1..]);
    }
  }

  lemma ValueOfPrinted(params: seq<(seq<Byte>, seq<Byte>)>)
    requires params != []
    ensures ValueOf(AfterKey(params)) == Some(Quoted(Escape(params[0].1), Tail(params[1..])))
  {
    hide QuotedOf, Escape, Printed;
    QuotedEscaped(params[0].1, Printed(params[1..]));
    AfterKeyEnds(params);
    if |params| > 1 {
      PrintedEnds(params[1..]);
      MemchrIs(SEMICOLON, Printed(params[1..]), 0);
    } else {
      EmptyPrint();
    }
  }

  lemma EmptyPrint()
    ensures Printed([]) == []
  {
  }

  lemma TailUnfolds(params: seq<(seq<Byte>, seq<Byte>)>)
    requires params != []
    ensures Tail(params) == [SP] + (params[0].0 + [EQUALS] + AfterKey(params))
  {
    var p := params[0];
    assert Printed(params) == [SEMICOLON] + ([SP] + (p.0 + [EQUALS] + AfterKey(params)));
  }

  lemma ParameterOfPrinted(params: seq<(seq<Byte>, seq<Byte>)>)
    requires params != [] && PlainKey(params[0].0)
    ensures Trim(Tail(params)) != []
    ensures ParameterOf(Tail(params)) == Some(Parameter(params[0].0, Escape(params[0].1), Tail(params[1..])))
  {
    hide Trim, Memchr, ValueOf, AfterKey, Tail;
    var key, rest := params[0].0, AfterKey(params);
    AfterKeyEnds(params);
    TailUnfolds(params);
    var core := key + [EQUALS] + rest;
    assert core[0] == key[0] && core[|core| - 1] == rest[|rest| - 1];
    TrimIs([SP], core);
    assert core[..|key|] == key && core[|key| + 1..] == rest;
    MemchrIs(EQUALS, core, |key|);
    TrimNothing(key);
    TrimNothing(rest);
    ValueOfPrinted(params);
  }

  lemma {:induction false} ParametersOfPrinted(params: seq<(seq<Byte>, seq<Byte>)>, sofar: ContentDisposition)
    requires forall i :: 0 <= i < |params| ==> PlainKey(params[i].0)
    ensures ParametersOf(Tail(params), sofar) == Said(params, sofar)
    decreases |params|
  {
    hide ParameterOf, Trim, Escape, Printed, PlainKey, Said, First;
    if params == [] {
      NothingSaid(sofar);
      TrimEmpty();
    } else {
      ParameterOfPrinted(params);
      SaidStep(params, sofar);
      ParametersOfPrinted(params[1..], Noted(sofar, params[0].0, Escape(params[0].1)));
    }
  }

  lemma NothingSaid(sofar: ContentDisposition)
    ensures Said([], sofar) == sofar
  {
  }

  lemma TrimEmpty()
    ensures Trim([]) == []
  {
  }

  /**
   * Print, then parse: any list of parameters with plain keys, printed with escaped quoted values, is
   * read back as its first `name` and its first `filename`, byte for byte.
   */
  lemma PrintThenParse(params: seq<(seq<Byte>, seq<Byte>)>)
    requires forall i :: 0 <= i < |params| ==> PlainKey(params[i].0)
    ensures DispositionOf(FORM_DATA + Printed(params)) == Some(Said(params, ContentDisposition(None, None)))
  {
    hide Trim, Memchr, ParametersOf, Printed, PlainKey, FORM_DATA, EqIgnoreCase;
    var all := FORM_DATA + Printed(params);
    FormDataIs();
    TrimNothing(FORM_DATA);
    if params == [] {
      EmptyPrint();
      assert all == FORM_DATA;
    } else {
      PrintedEnds(params);
      var n := |FORM_DATA|;
      assert all[0] == FORM_DATA[0] && all[|all| - 1] == Printed(params)[|Printed(params)| - 1];
      TrimNothing(all);
      assert all[..n] == FORM_DATA && all[n] == SEMICOLON && all[n + 1..] == Printed(params)[1..];
      MemchrIs(SEMICOLON, all, n);
      ParametersOfPrinted(params, ContentDisposition(None, None));
    }
  }

  lemma FormDataIs()
    ensures FORM_DATA != [] && !IsPad(FORM_DATA[0]) && !IsPad(FORM_DATA[|FORM_DATA| - 1])
    ensures Memchr(SEMICOLON, FORM_DATA).None? && SEMICOLON !in FORM_DATA
    ensures EqIgnoreCase(FORM_DATA, FORM_DATA)
  {
    assert SEMICOLON !in FORM_DATA;
  }

  /** In particular, a field's name and file name come back, and unescape to what was printed. */
  lemma FieldRoundTrip(name: seq<Byte>, file: seq<Byte>)
    ensures var r := DispositionOf(FORM_DATA + Printed([(NAME, name), (FILENAME, file)]));
            && r == Some(ContentDisposition(Some(Escape(name)), Some(Escape(file))))
            && Unescape(r.value.name.value) == name && Unescape(r.value.fileName.value) == file
  {
    hide DispositionOf, Printed, Escape, Unescape;
    var params: seq<(seq<Byte>, seq<Byte>)> := [(NAME, name), (FILENAME, file)];
    PrintThenParse(params);
    UnescapeEscape(name);
    UnescapeEscape(file);
    assert EqIgnoreCase(NAME, NAME) && EqIgnoreCase(FILENAME, FILENAME);
    assert |FILENAME| != |NAME| && params[1..] == [(FILENAME, file)];
    assert First(params[1..], FILENAME) == Some(Escape(file));
  }
}
