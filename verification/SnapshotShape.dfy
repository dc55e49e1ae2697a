/** Which texts the section scanner accepts, well-formed or not. */
module SnapshotShape {
  import opened Wrappers
  import opened JsonSkipper
  import opened SnapshotScan

  /** From `a` on there is whitespace up to `b` and no further. */
  predicate Blank(t: string, a: nat, b: nat) {
    && a <= b <= |t| && (forall k :: a <= k < b ==> t[k] in {' ', '\t', '\n', '\r'})
    && (b == |t| || t[b] !in {' ', '\t', '\n', '\r'})
  }

  lemma {:induction false} BlankIff(t: string, a: nat, b: nat)
    requires a <= |t|
    ensures SkipWs(t, a) == b <==> Blank(t, a, b)
    decreases |t| - a
  {
    if a < |t| && IsWs(t[a]) {
      BlankIff(t, a + 1, b);
    }
  }

  // ------------------------------------------------ arrays

  /** An element: where its value stands, where skipping it ends, and where the delimiter is. */
  datatype Element = Element(value: nat, end: nat, after: nat)

  predicate ElementAt(t: string, i: nat, e: Element) {
    && Blank(t, i, e.value) && ValueEnd(t, e.value) == Ok(e.end) && Blank(t, e.end, e.after) && e.after < |t|
  }

  /** Elements from `i` on, with commas between them and a closing bracket behind the last one. */
  predicate ElementsAt(t: string, i: nat, es: seq<Element>)
    decreases |es|
  {
    && es != [] && ElementAt(t, i, es[0])
    && if |es| == 1 then t[es[0].after] == ']' else t[es[0].after] == ',' && ElementsAt(t, es[0].after + 1, es[1..])
  }

  lemma {:induction false} CountedElements(t: string, i: nat, count: nat) returns (es: seq<Element>)
    requires i <= |t| && CountElements(t, i, count).Ok?
    ensures ElementsAt(t, i, es)
    decreases |t| - i
  {
    BlankIff(t, i, SkipWs(t, i));
    var value := SkipWs(t, i);
    var end := ValueEnd(t, value).value;
    BlankIff(t, end, SkipWs(t, end));
    var e := Element(value, end, SkipWs(t, end));
    es := [e];
    if t[e.after] == ',' {
      var rest := CountedElements(t, e.after + 1, count + 1);
      es := [e] + rest;
      assert es[1..] == rest;
    }
  }

  lemma CountStep(t: string, i: nat, count: nat, e: Element)
    requires i <= |t| && ElementAt(t, i, e)
    ensures CountElements(t, i, count) ==
      if t[e.after] == ',' then CountElements(t, e.after + 1, count + 1)
      else if t[e.after] == ']' then Ok((count + 1, e.after + 1)) else Err(ValueError)
  {
    hide ValueEnd, SkipWs;
    BlankIff(t, i, e.value);
    BlankIff(t, e.end, e.after);
  }

  lemma {:induction false} ElementsCounted(t: string, i: nat, count: nat, es: seq<Element>)
    requires i <= |t| && ElementsAt(t, i, es)
    ensures CountElements(t, i, count) == Ok((count + |es|, es[|es| - 1].after + 1))
    decreases |es|
  {
    hide CountElements, ElementAt;
    var e := es[0];
    ElementInText(t, i, e);
    CountStep(t, i, count, e);
    if |es| > 1 {
      ElementsCounted(t, e.after + 1, count + 1, es[1..]);
    }
  }

  lemma ElementInText(t: string, i: nat, e: Element)
    requires ElementAt(t, i, e)
    ensures e.after < |t|
  {
  }

  /** A closing bracket at `k`, or elements. */
  ghost predicate ContentsAt(t: string, k: nat, count: nat, end: nat)
    requires k < |t|
  {
    if t[k] == ']' then count == 0 && end == k + 1
    else exists es: seq<Element> :: ElementsAt(t, k, es) && count == |es| && end == es[|es| - 1].after + 1
  }

  /** The array whose bracket is in front of `start` has `count` elements and ends in front of `end`. */
  ghost predicate InBrackets(t: string, start: nat, count: nat, end: nat) {
    exists k: nat :: Blank(t, start, k) && k < |t| && ContentsAt(t, k, count, end)
  }

  lemma ContentsIff(t: string, k: nat, count: nat, end: nat)
    requires k < |t|
    ensures ContentsAt(t, k, count, end) <==>
      if t[k] == ']' then count == 0 && end == k + 1 else CountElements(t, k, 0) == Ok((count, end))
  {
    hide Blank, CountElements;
    if t[k] != ']' {
      if CountElements(t, k, 0).Ok? {
        var es := CountedElements(t, k, 0);
        ElementsCounted(t, k, 0, es);
      }
      forall es: seq<Element> | ElementsAt(t, k, es) ensures CountElements(t, k, 0) == Ok((|es|, es[|es| - 1].after + 1)) {
        ElementsCounted(t, k, 0, es);
      }
    }
  }

  lemma ArrayAtIff(t: string, i: nat, count: nat, end: nat)
    requires i < |t|
    ensures ArrayEnd(t, i) == Ok((count, end)) <==> InBrackets(t, i + 1, count, end)
  {
    hide CountElements, ContentsAt;
    var start := i + 1;
    var k := SkipWs(t, start);
    BlankIff(t, start, k);
    forall j: nat | Blank(t, start, j) ensures j == k {
      BlankIff(t, start, j);
    }
    if k < |t| {
      ContentsIff(t, k, count, end);
    }
  }

  // ------------------------------------------------ members

  datatype MemberAt = MemberAt(quote: nat, keyEnd: nat, key: string, colon: nat, value: nat, end: nat, after: nat)

  predicate IsStructural(key: string) {
    key in {"functions", "calls", "resources", "interactions", "traces"}
  }

  /** A value is skipped, but arrays of structural fields are walked element by element. */
  ghost predicate ValueAt(t: string, key: string, value: nat, end: nat) {
    value < |t| &&
    if t[value] == '[' && IsStructural(key) then var start := value + 1; exists count: nat :: InBrackets(t, start, count, end)
    else ValueEnd(t, value) == Ok(end)
  }

  /** The member from `i` on: a key, a colon, a value, and a delimiter. */
  ghost predicate IsMember(t: string, i: nat, m: MemberAt, decode: string -> Option<string>) {
    && Blank(t, i, m.quote) && m.quote < |t| && t[m.quote] == '"'
    && StringEnd(t, m.quote + 1) == Ok(m.keyEnd) && m.keyEnd <= |t| && decode(t[m.quote..m.keyEnd]) == Some(m.key)
    && Blank(t, m.keyEnd, m.colon) && m.colon < |t| && t[m.colon] == ':' && Blank(t, m.colon + 1, m.value)
    && ValueAt(t, m.key, m.value, m.end) && Blank(t, m.end, m.after) && m.after < |t|
  }

  /** Members from `i` on with commas between them, up to a brace, or up to the end of the text. */
  ghost predicate MembersAt(t: string, i: nat, ms: seq<MemberAt>, decode: string -> Option<string>)
    decreases |ms|
  {
    if ms == [] then exists k: nat :: Blank(t, i, k) && (k == |t| || t[k] == '}')
    else
      && IsMember(t, i, ms[0], decode)
      && ((t[ms[0].after] == '}' && |ms| == 1) || (t[ms[0].after] == ',' && MembersAt(t, ms[0].after + 1, ms[1..], decode)))
  }

  /** Some members follow from `i` on. */
  ghost predicate MembersFrom(t: string, i: nat, decode: string -> Option<string>) {
    exists ms :: MembersAt(t, i, ms, decode)
  }

  lemma ValueScanned(t: string, i: nat, key: string, acc: Sections, end: nat)
    requires i <= |t|
    ensures (exists acc' :: ScanValue(t, i, key, acc) == Ok((end, acc'))) <==> ValueAt(t, key, i, end)
  {
    hide InBrackets, ValueEnd, ArrayEnd;
    var start := i + 1;
    if i < |t| && t[i] == '[' && key in STRUCTURAL {
      forall count: nat ensures ArrayEnd(t, i) == Ok((count, end)) <==> InBrackets(t, start, count, end) {
        ArrayAtIff(t, i, count, end);
      }
      if ArrayEnd(t, i).Ok? {
        var a := ArrayEnd(t, i).value;
        ArrayAtIff(t, i, a.0, end);
        assert a.1 == end ==> ScanValue(t, i, key, acc) == Ok((end, ScanValue(t, i, key, acc).value.1));
      }
    } else if i < |t| && ValueEnd(t, i).Ok? {
      assert ScanValue(t, i, key, acc) == Ok((ValueEnd(t, i).value, ScanValue(t, i, key, acc).value.1));
    }
  }

  lemma MemberScanned(t: string, i: nat, acc: Sections, decode: string -> Option<string>) returns (m: MemberAt)
    requires i < |t| && t[i] == '"' && Blank(t, i, i) && ScanMember(t, i, acc, decode).Ok?
    requires SkipWs(t, ScanMember(t, i, acc, decode).value.0) < |t|
    ensures IsMember(t, i, m, decode) && m.end == ScanMember(t, i, acc, decode).value.0
  {
    hide ScanValue, ValueAt;
    var keyEnd := StringEnd(t, i + 1).value;
    var key := decode(t[i..keyEnd]).value;
    var colon := SkipWs(t, keyEnd);
    BlankIff(t, keyEnd, colon);
    var value := SkipWs(t, colon + 1);
    BlankIff(t, colon + 1, value);
    var end := ScanValue(t, value, key, acc).value.0;
    assert ScanValue(t, value, key, acc) == Ok((end, ScanValue(t, value, key, acc).value.1));
    ValueScanned(t, value, key, acc, end);
    BlankIff(t, end, SkipWs(t, end));
    m := MemberAt(i, keyEnd, key, colon, value, end, SkipWs(t, end));
  }

  lemma MemberAccepted(t: string, i: nat, m: MemberAt, acc: Sections, decode: string -> Option<string>)
    requires i <= |t| && IsMember(t, i, m, decode)
    ensures SkipWs(t, i) == m.quote && ScanMember(t, m.quote, acc, decode).Ok?
    ensures ScanMember(t, m.quote, acc, decode).value.0 == m.end && SkipWs(t, m.end) == m.after
  {
    hide ScanValue, ValueAt;
    BlankIff(t, i, m.quote);
    BlankIff(t, m.keyEnd, m.colon);
    BlankIff(t, m.colon + 1, m.value);
    assert m.value <= |t|;
    ValueScanned(t, m.value, m.key, acc, m.end);
    BlankIff(t, m.end, m.after);
  }

  lemma {:induction false} MembersScanned(t: string, i: nat, acc: Sections, decode: string -> Option<string>) returns (ms: seq<MemberAt>)
    requires i <= |t| && ScanMembers(t, i, acc, decode).Ok?
    ensures MembersAt(t, i, ms, decode)
    decreases |t| - i
  {
    hide ScanMember, IsMember;
    var k := SkipWs(t, i);
    BlankIff(t, i, k);
    ms := [];
    if k < |t| && t[k] != '}' {
      assert Blank(t, k, k);
      var m := MemberScanned(t, k, acc, decode);
      SameStart(t, i, k, m, decode);
      EndInText(t, k, m, decode);
      BlankIff(t, m.end, m.after);
      ms := [m];
      if t[m.after] == ',' {
        var rest := MembersScanned(t, m.after + 1, ScanMember(t, k, acc, decode).value.1, decode);
        ms := [m] + rest;
        assert ms[1..] == rest;
      }
    }
  }

  lemma SameStart(t: string, i: nat, k: nat, m: MemberAt, decode: string -> Option<string>)
    requires Blank(t, i, k) && k < |t| && t[k] == '"' && IsMember(t, k, m, decode)
    ensures IsMember(t, i, m, decode)
  {
    hide ValueAt, StringEnd;
  }

  lemma EndInText(t: string, i: nat, m: MemberAt, decode: string -> Option<string>)
    requires IsMember(t, i, m, decode)
    ensures m.end <= |t| && m.after < |t| && Blank(t, m.end, m.after)
  {
    hide ValueAt, StringEnd;
  }

  lemma {:induction false} MembersAccepted(t: string, i: nat, ms: seq<MemberAt>, acc: Sections, decode: string -> Option<string>)
    requires i <= |t| && MembersAt(t, i, ms, decode)
    ensures ScanMembers(t, i, acc, decode).Ok?
    decreases |ms|
  {
    hide ScanMember, IsMember;
    if ms == [] {
      var k: nat :| Blank(t, i, k) && (k == |t| || t[k] == '}');
      BlankIff(t, i, k);
    } else {
      var m := ms[0];
      MemberAccepted(t, i, m, acc, decode);
      QuoteThere(t, i, m, decode);
      if t[m.after] == ',' && |ms| > 0 && MembersAt(t, m.after + 1, ms[1..], decode) {
        MembersAccepted(t, m.after + 1, ms[1..], ScanMember(t, m.quote, acc, decode).value.1, decode);
      }
    }
  }

  lemma QuoteThere(t: string, i: nat, m: MemberAt, decode: string -> Option<string>)
    requires IsMember(t, i, m, decode)
    ensures m.quote < |t| && t[m.quote] == '"' && m.after < |t|
  {
    hide ValueAt, StringEnd;
  }

  /** The scanner returns sections exactly if the text begins with a brace and members follow: where another member could
      begin, the text may end instead, and a comma may stand in front of the closing brace. What does not begin with a brace
      is no snapshot, and everything else is an error. */
  lemma ScanAccepts(t: string, decode: string -> Option<string>)
    ensures forall i: nat :: Blank(t, 0, i) ==>
      && (Scan(t, decode) == Ok(None) <==> i == |t| || t[i] != '{')
      && (Scan(t, decode).Ok? && Scan(t, decode).value.Some? <==>
            i < |t| && t[i] == '{' && MembersFrom(t, i + 1, decode))
  {
    hide ScanMembers, MembersFrom;
    forall i: nat | Blank(t, 0, i)
      ensures Scan(t, decode) == Ok(None) <==> i == |t| || t[i] != '{'
      ensures Scan(t, decode).Ok? && Scan(t, decode).value.Some? <==>
        i < |t| && t[i] == '{' && MembersFrom(t, i + 1, decode)
    {
      BlankIff(t, 0, i);
      if i < |t| && t[i] == '{' {
        MembersIff(t, i + 1, NOTHING, decode);
      }
    }
  }

  lemma MembersIff(t: string, i: nat, acc: Sections, decode: string -> Option<string>)
    requires i <= |t|
    ensures ScanMembers(t, i, acc, decode).Ok? <==> MembersFrom(t, i, decode)
  {
    hide ScanMembers, MembersAt;
    if ScanMembers(t, i, acc, decode).Ok? {
      var ms := MembersScanned(t, i, acc, decode);
    }
    if ms :| MembersAt(t, i, ms, decode) {
      MembersAccepted(t, i, ms, acc, decode);
    }
  }
}
