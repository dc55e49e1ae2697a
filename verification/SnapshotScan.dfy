/** `scan_graph_sections`: one pass over a snapshot object. */
module SnapshotScan {
  import opened Wrappers
  import opened JsonSkipper

  const STRUCTURAL := {"functions", "calls", "resources", "interactions", "traces"}

  /** A half-open range of the text. */
  datatype Span = Span(start: nat, end: nat)

  /** `scalars` holds spans of the raw values; `process` the span of the process object. */
  datatype Sections = Sections(counts: map<string, nat>, spans: map<string, Span>,
                               scalars: map<string, Span>, process: Option<Span>)

  const NOTHING := Sections(map[], map[], map[], None)

  /** The array loop: counts elements from `i`, which is behind the bracket or a comma. */
  function CountElements(t: string, i: nat, count: nat): (r: Result<(nat, nat), Error>)
    requires i <= |t|
    ensures r.Ok? ==> i < r.value.1 <= |t|
    decreases |t| - i
  {
    var v := ValueEnd(t, SkipWs(t, i));
    if v.Err? then Err(v.error)
    else
      var k := SkipWs(t, v.value);
      if k >= |t| then Err(IndexError)
      else if t[k] == ',' then CountElements(t, k + 1, count + 1)
      else if t[k] == ']' then Ok((count + 1, k + 1))
      else Err(ValueError)
  }

  /** Number of elements and end of the structural array whose bracket is at `i`. */
  function ArrayEnd(t: string, i: nat): (r: Result<(nat, nat), Error>)
    requires i < |t|
    ensures r.Ok? ==> i < r.value.1 <= |t|
  {
    var k := SkipWs(t, i + 1);
    if k >= |t| then Err(IndexError)
    else if t[k] == ']' then Ok((0, k + 1))
    else CountElements(t, k, 0)
  }

  /** The branches on the first character of the value of `key` at `i`. */
  function ScanValue(t: string, i: nat, key: string, acc: Sections): (r: Result<(nat, Sections), Error>)
    ensures r.Ok? ==> i <= r.value.0 <= |t|
  {
    if i >= |t| then Err(IndexError)
    else if t[i] == '[' then
      if key in STRUCTURAL then
        var a := ArrayEnd(t, i);
        if a.Err? then Err(a.error)
        else Ok((a.value.1, acc.(counts := acc.counts[key := a.value.0], spans := acc.spans[key := Span(i, a.value.1)])))
      else
        var v := ValueEnd(t, i);
        if v.Err? then Err(v.error)
        else Ok((v.value, if key == "source_files" then acc.(spans := acc.spans[key := Span(i, v.value)]) else acc))
    else
      var v := ValueEnd(t, i);
      if v.Err? then Err(v.error)
      else if t[i] == '{' then Ok((v.value, if key == "process" then acc.(process := Some(Span(i, v.value))) else acc))
      else Ok((v.value, acc.(scalars := acc.scalars[key := Span(i, v.value)])))
  }

  /** One member whose key starts at `i`. `decode` is the JSON parser on string literals. */
  function ScanMember(t: string, i: nat, acc: Sections, decode: string -> Option<string>): (r: Result<(nat, Sections), Error>)
    requires i < |t|
    ensures r.Ok? ==> i < r.value.0 <= |t|
  {
    var keyEnd := StringEnd(t, i + 1);
    if keyEnd.Err? then Err(keyEnd.error)
    else
      var key := decode(t[i..keyEnd.value]);
      var colon := SkipWs(t, keyEnd.value);
      if key.None? then Err(ValueError)
      else if colon >= |t| || t[colon] != ':' then Err(ValueError)
      else ScanValue(t, SkipWs(t, colon + 1), key.value, acc)
  }

  /** The member loop from `i`, which is behind the opening brace or a comma. */
  function ScanMembers(t: string, i: nat, acc: Sections, decode: string -> Option<string>): Result<Sections, Error>
    requires i <= |t|
    decreases |t| - i
  {
    var k := SkipWs(t, i);
    if k >= |t| || t[k] == '}' then Ok(acc)
    else if t[k] != '"' then Err(ValueError)
    else
      var m := ScanMember(t, k, acc, decode);
      if m.Err? then Err(m.error)
      else
        var after := SkipWs(t, m.value.0);
        if after >= |t| then Err(ValueError)
        else if t[after] == ',' then ScanMembers(t, after + 1, m.value.1, decode)
        else if t[after] == '}' then Ok(m.value.1)
        else Err(ValueError)
  }

  /** `None` if the text is not an object. */
  function Scan(t: string, decode: string -> Option<string>): Result<Option<Sections>, Error> {
    var i := SkipWs(t, 0);
    if i >= |t| || t[i] != '{' then Ok(None)
    else
      var r := ScanMembers(t, i + 1, NOTHING, decode);
      if r.Ok? then Ok(Some(r.value)) else Err(r.error)
  }

  // ------------------------------------------------ the loops

  method ScanArray(t: string, start: nat) returns (r: Result<(nat, nat), Error>)
    requires start < |t|
    ensures r == ArrayEnd(t, start)
  {
    hide ValueEnd;
    var i := SkipWhitespace(t, start + 1);
    if i >= |t| { return Err(IndexError); }
    if t[i] == ']' { return Ok((0, i + 1)); }
    var count := 0;
    ghost var first := i;
    while true
      invariant first <= i <= |t| && CountElements(t, i, count) == CountElements(t, first, 0)
      decreases |t| - i
    {
      var at := SkipWhitespace(t, i);
      var v := SkipValue(t, at);
      if v.Err? { return Err(v.error); }
      count := count + 1;
      var k := SkipWhitespace(t, v.value);
      if k >= |t| { return Err(IndexError); }
      if t[k] == ',' {
        i := k + 1;
        continue;
      }
      if t[k] == ']' { return Ok((count, k + 1)); }
      return Err(ValueError);
    }
  }

  method ScanGraphSections(t: string, decode: string -> Option<string>) returns (r: Result<Option<Sections>, Error>)
    ensures r == Scan(t, decode)
  {
    hide ScanMember;
    var i := SkipWhitespace(t, 0);
    if i >= |t| || t[i] != '{' { return Ok(None); }
    i := i + 1;
    ghost var first := i;
    var acc := NOTHING;
    while true
      invariant first <= i <= |t| && ScanMembers(t, i, acc, decode) == ScanMembers(t, first, NOTHING, decode)
      decreases |t| - i
    {
      i := SkipWhitespace(t, i);
      if i >= |t| || t[i] == '}' { break; }
      if t[i] != '"' { return Err(ValueError); }
      var m := ScanKeyed(t, i, acc, decode);
      if m.Err? { return Err(m.error); }
      acc := m.value.1;
      i := SkipWhitespace(t, m.value.0);
      if i >= |t| { return Err(ValueError); }
      if t[i] == ',' {
        i := i + 1;
        continue;
      }
      if t[i] == '}' { break; }
      return Err(ValueError);
    }
    r := Ok(Some(acc));
  }

  method ScanKeyed(t: string, start: nat, acc: Sections, decode: string -> Option<string>)
    returns (r: Result<(nat, Sections), Error>)
    requires start < |t|
    ensures r == ScanMember(t, start, acc, decode)
  {
    var keyEnd := SkipString(t, start);
    if keyEnd.Err? { return Err(keyEnd.error); }
    var key := decode(t[start..keyEnd.value]);
    if key.None? { return Err(ValueError); }
    var i := SkipWhitespace(t, keyEnd.value);
    if i >= |t| || t[i] != ':' { return Err(ValueError); }
    i := SkipWhitespace(t, i + 1);
    r := ScanOne(t, i, key.value, acc);
  }

  method ScanOne(t: string, i: nat, key: string, acc: Sections) returns (r: Result<(nat, Sections), Error>)
    ensures r == ScanValue(t, i, key, acc)
  {
    if i >= |t| { return Err(IndexError); }
    if t[i] == '[' && key in STRUCTURAL {
      var a := ScanArray(t, i);
      if a.Err? { return Err(a.error); }
      return Ok((a.value.1, acc.(counts := acc.counts[key := a.value.0], spans := acc.spans[key := Span(i, a.value.1)])));
    }
    var v := SkipValue(t, i);
    if v.Err? { return Err(v.error); }
    var acc' := acc;
    if t[i] == '[' {
      if key == "source_files" { acc' := acc.(spans := acc.spans[key := Span(i, v.value)]); }
    } else if t[i] == '{' {
      if key == "process" { acc' := acc.(process := Some(Span(i, v.value))); }
    } else {
      acc' := acc.(scalars := acc.scalars[key := Span(i, v.value)]);
    }
    r := Ok((v.value, acc'));
  }
}
