/** `_JsonWalker`: skipping whitespace, strings and values in a JSON text. */
module JsonSkipper {
  import opened Wrappers

  /** `ValueError` and `IndexError` of the Python code. */
  datatype Error = ValueError | IndexError

  type Pos = Result<nat, Error>

  predicate IsWs(c: char) {
    c in {' ', '\t', '\r', '\n'}
  }

  /** Where the literal or number loop stops; a carriage return is not among these. */
  predicate IsStop(c: char) {
    c in {',', '}', ']', '\n', '\t', ' '}
  }

  function SkipWs(t: string, i: nat): (r: nat)
    ensures i <= r && (i <= |t| ==> r <= |t|)
    decreases |t| - i
  {
    if i < |t| && IsWs(t[i]) then SkipWs(t, i + 1) else i
  }

  /** The end of a string whose content starts at `i`, read forwards: an escape is two
      characters, an unescaped quote ends it. */
  function StringEnd(t: string, i: nat): (r: Pos)
    ensures r.Ok? ==> i < r.value <= |t|
    decreases |t| - i
  {
    if i >= |t| then Err(ValueError)
    else if t[i] == '"' then Ok(i + 1)
    else if t[i] == '\\' then StringEnd(t, i + 2)
    else StringEnd(t, i + 1)
  }

  predicate Opens(c: char) {
    c == '{' || c == '['
  }

  predicate Closes(c: char) {
    c == '}' || c == ']'
  }

  /** The end of the container that is `depth` levels open at `j`. */
  function ContainerEnd(t: string, j: nat, depth: int): (r: Pos)
    ensures r.Ok? ==> j < r.value <= |t|
    decreases |t| - j
  {
    if j >= |t| then Err(ValueError)
    else if t[j] == '"' then
      var k := StringEnd(t, j + 1);
      if k.Ok? then ContainerEnd(t, k.value, depth) else k
    else if Opens(t[j]) then ContainerEnd(t, j + 1, depth + 1)
    else if Closes(t[j]) then
      if depth == 1 then Ok(j + 1) else ContainerEnd(t, j + 1, depth - 1)
    else ContainerEnd(t, j + 1, depth)
  }

  function ScalarEnd(t: string, j: nat): (r: nat)
    ensures j <= r && (j <= |t| ==> r <= |t|)
    ensures r < |t| ==> IsStop(t[r])
    decreases |t| - j
  {
    if j < |t| && !IsStop(t[j]) then ScalarEnd(t, j + 1) else j
  }

  function ValueEnd(t: string, pos: nat): (r: Pos)
    ensures r.Ok? ==> pos <= r.value <= |t|
  {
    if pos >= |t| then Err(IndexError)
    else if t[pos] == '"' then StringEnd(t, pos + 1)
    else if Opens(t[pos]) then ContainerEnd(t, pos, 0)
    else Ok(ScalarEnd(t, pos))
  }

  // ------------------------------------------------ the loops

  method SkipWhitespace(t: string, pos0: nat) returns (pos: nat)
    ensures pos == SkipWs(t, pos0)
  {
    pos := pos0;
    while pos < |t| && IsWs(t[pos])
      invariant SkipWs(t, pos) == SkipWs(t, pos0)
      decreases |t| - pos
    {
      pos := pos + 1;
    }
  }

  /** `text.find('"', from)`, `|t|` for not found. */
  function FindQuote(t: string, from: nat): (r: nat)
    ensures from <= r && (from <= |t| ==> r <= |t|)
    ensures forall k :: from <= k < r && k < |t| ==> t[k] != '"'
    ensures r < |t| ==> t[r] == '"'
    decreases |t| - from
  {
    if from < |t| && t[from] != '"' then FindQuote(t, from + 1) else from
  }

  /** A stretch without quotes that does not end in a backslash. */
  lemma {:induction false} PlainStretch(t: string, i: nat, end: nat)
    requires i <= end <= |t| && (end > i ==> t[end - 1] != '\\')
    requires forall k :: i <= k < end ==> t[k] != '"'
    ensures StringEnd(t, i) == StringEnd(t, end)
    decreases end - i
  {
    if i < end {
      if t[i] == '\\' { PlainStretch(t, i + 2, end); } else { PlainStretch(t, i + 1, end); }
    }
  }

  /** A run of backslashes before position `quote`. */
  lemma {:induction false} BackslashRun(t: string, run: nat, quote: nat)
    requires run <= quote < |t| && t[quote] == '"'
    requires forall k :: run <= k < quote ==> t[k] == '\\'
    ensures StringEnd(t, run) == if (quote - run) % 2 == 1 then StringEnd(t, quote + 1) else Ok(quote + 1)
    decreases quote - run
  {
    if quote - run >= 2 { BackslashRun(t, run + 2, quote); }
  }

  lemma {:induction false} NoQuoteLeft(t: string, i: nat)
    requires forall k :: i <= k < |t| ==> t[k] != '"'
    ensures StringEnd(t, i) == Err(ValueError)
    decreases |t| - i
  {
    if i < |t| {
      if t[i] == '\\' { NoQuoteLeft(t, i + 2); } else { NoQuoteLeft(t, i + 1); }
    }
  }

  /** Jumping from quote to quote and counting the backslashes before each one finds the
      same end as reading forwards. */
  method SkipString(t: string, pos: nat) returns (r: Pos)
    requires pos < |t|
    ensures r == StringEnd(t, pos + 1)
  {
    var end := pos + 1;
    while true
      invariant end <= |t| && StringEnd(t, end) == StringEnd(t, pos + 1)
      decreases |t| - end
    {
      var quote := FindQuote(t, end);
      if quote >= |t| {
        NoQuoteLeft(t, end);
        return Err(ValueError);
      }
      var run := RunStart(t, end, quote);
      PlainStretch(t, end, run);
      BackslashRun(t, run, quote);
      if (quote - run) % 2 == 1 {
        end := quote + 1;
        continue;
      }
      return Ok(quote + 1);
    }
  }

  /** The inner loop over the backslashes before `quote`, not going below `end`. */
  method RunStart(t: string, end: nat, quote: nat) returns (run: nat)
    requires end <= quote < |t|
    ensures end <= run <= quote && (run > end ==> t[run - 1] != '\\')
    ensures forall k :: run <= k < quote ==> t[k] == '\\'
  {
    run := quote;
    while run > end && t[run - 1] == '\\'
      invariant end <= run <= quote
      invariant forall k :: run <= k < quote ==> t[k] == '\\'
    {
      run := run - 1;
    }
  }

  method SkipContainer(t: string, pos: nat) returns (r: Pos)
    requires pos < |t| && Opens(t[pos])
    ensures r == ContainerEnd(t, pos, 0)
  {
    var depth, j := 0, pos;
    while j < |t|
      invariant ContainerEnd(t, j, depth) == ContainerEnd(t, pos, 0)
      decreases |t| - j
    {
      var ch := t[j];
      if ch == '"' {
        var k := SkipString(t, j);
        if k.Err? { return k; }
        j := k.value;
        continue;
      }
      if Opens(ch) {
        depth := depth + 1;
      } else if Closes(ch) {
        depth := depth - 1;
        if depth == 0 {
          return Ok(j + 1);
        }
      }
      j := j + 1;
    }
    r := Err(ValueError);
  }

  method SkipScalar(t: string, pos: nat) returns (j: nat)
    ensures j == ScalarEnd(t, pos)
  {
    j := pos;
    while j < |t| && !IsStop(t[j])
      invariant ScalarEnd(t, j) == ScalarEnd(t, pos)
      decreases |t| - j
    {
      j := j + 1;
    }
  }

  method SkipValue(t: string, pos: nat) returns (r: Pos)
    ensures r == ValueEnd(t, pos)
  {
    if pos >= |t| { return Err(IndexError); }
    if t[pos] == '"' {
      r := SkipString(t, pos);
    } else if Opens(t[pos]) {
      r := SkipContainer(t, pos);
    } else {
      var j := SkipScalar(t, pos);
      r := Ok(j);
    }
  }

  /** A value is never empty, so the skipper stands still exactly where there is none. */
  lemma StandsStill(t: string, pos: nat)
    requires pos < |t|
    ensures ValueEnd(t, pos) == Ok(pos) <==> t[pos] in {',', '}', ']', '\n', '\t', ' '}
  {
    if !IsStop(t[pos]) && t[pos] != '"' && !Opens(t[pos]) {
      assert ScalarEnd(t, pos) == ScalarEnd(t, pos + 1);
    }
  }
}
