/** Node labels of the call tree: the printer and the parser that reads them back. */
module Labels {
  import opened Wrappers
  import opened Formula
  import opened IntegerLiterals
  import opened Splitting

  /** A node without macro expansion; `start == -1` when no definition range is known. */
  datatype Node = Node(name: string, file: string, isExternal: bool, start: int, end: int)

  // ------------------------------------------------ printing

  /** `str` of an integer. */
  function Show(n: int): string {
    if n < 0 then "-" + Digits(10, -n) else Digits(10, n)
  }

  function Block(text: string): string {
    "[" + text + "]"
  }

  function Suffix(node: Node): string {
    if node.start != -1 then Block(Show(node.start) + ":" + Show(node.end)) else ""
  }

  function UniqueId(node: Node): string {
    if node.isExternal then node.name else Block(node.file) + node.name
  }

  /** `label_with_line` without callbacks; a missing line and line 0 are the same. */
  function Label(node: Node, line: int): string {
    if line == 0 then UniqueId(node) + Suffix(node)
    else (if node.isExternal then Block(Show(line)) else Block(node.file + ":" + Show(line))) + node.name + Suffix(node)
  }

  // ------------------------------------------------ `int` on text

  predicate IsSpace(c: char) {
    c == ' ' || '\t' <= c <= '\r'
  }

  function TrimLeft(s: string): string {
    if s != [] && IsSpace(s[0]) then TrimLeft(s[1..]) else s
  }

  function TrimRight(s: string): string {
    if s != [] && IsSpace(s[|s| - 1]) then TrimRight(s[..|s| - 1]) else s
  }

  /** Single underscores may stand between digits. */
  predicate Separated(s: string) {
    && s != [] && DigitValue(s[0]) < 10
    && (|s| > 1 ==> Separated(s[1..]) || (s[1] == '_' && Separated(s[2..])))
  }

  function WithoutUnderscores(s: string): string {
    if s == [] then [] else (if s[0] == '_' then [] else [s[0]]) + WithoutUnderscores(s[1..])
  }

  function ParseNat(s: string): Option<int> {
    if Separated(s) && AllDigits(10, WithoutUnderscores(s)) then Some(Positional(10, WithoutUnderscores(s))) else None
  }

  function ParseInt(text: string): Option<int> {
    var s := TrimRight(TrimLeft(text));
    if s != [] && s[0] == '-' then
      var n := ParseNat(s[1..]);
      if n.Some? then Some(-n.value) else None
    else if s != [] && s[0] == '+' then ParseNat(s[1..])
    else ParseNat(s)
  }

  // ------------------------------------------------ parsing

  /** A label block that `int` or the block parsers reject. */
  datatype Malformed = NoBlock | NotANumber | NoColon

  datatype Position = InFile(file: string) | AtLine(line: int) | InFileAt(inFile: string, atLine: int)

  /** The text of the block that opens before `s`, when it closes before another bracket. */
  function Inner(s: string): Option<string> {
    if s == [] || s[0] == '[' then None
    else if s[0] == ']' then Some("")
    else
      var rest := Inner(s[1..]);
      if rest.None? then None else Some([s[0]] + rest.value)
  }

  lemma {:induction false} InnerFits(s: string)
    ensures Inner(s).Some? ==> |Inner(s).value| < |s|
  {
    if s != [] && s[0] != '[' && s[0] != ']' {
      InnerFits(s[1..]);
    }
  }

  /** `re.finditer` and `re.sub` with the block pattern: the block texts, and the text without blocks. */
  function Parts(s: string): (seq<string>, string) {
    if s == [] then ([], [])
    else if s[0] == '[' && Inner(s[1..]).Some? then
      var inner := Inner(s[1..]).value;
      InnerFits(s[1..]);
      var rest := Parts(s[|inner| + 2..]);
      ([inner] + rest.0, rest.1)
    else
      var rest := Parts(s[1..]);
      (rest.0, [s[0]] + rest.1)
  }

  predicate Truthy(o: Option<string>) {
    o.Some? && o.value != ""
  }

  function Choose(blocks: seq<string>): (Option<string>, Option<string>) {
    if blocks == [] then (None, None)
    else
      var before := Choose(blocks[..|blocks| - 1]);
      var block := Some(blocks[|blocks| - 1]);
      if !Truthy(before.0) then (block, before.1)
      else if !Truthy(before.1) then (before.0, block)
      else before
  }

  method ProcessWholeString(text: string) returns (first: Option<string>, second: Option<string>, name: string)
    ensures (first, second) == Choose(Parts(text).0) && name == Parts(text).1
  {
    var blocks := Parts(text).0;
    name := Parts(text).1;
    first, second := None, None;
    for n := 0 to |blocks|
      invariant (first, second) == Choose(blocks[..n])
    {
      assert blocks[..n + 1][..n] == blocks[..n];
      if !Truthy(first) {
        first := Some(blocks[n]);
      } else if !Truthy(second) {
        second := Some(blocks[n]);
      }
    }
    assert blocks[..|blocks|] == blocks;
  }

  function ProcessFirstBlock(block: Option<string>): Result<Position, Malformed> {
    if block.None? then Err(NoBlock)
    else if ':' in block.value then
      var parts := Split(block.value, ':');
      if |parts| < 2 then Err(NoColon)
      else if ParseInt(parts[1]).None? then Err(NotANumber)
      else Ok(InFileAt(parts[0], ParseInt(parts[1]).value))
    else if ParseInt(block.value).Some? then Ok(AtLine(ParseInt(block.value).value))
    else Ok(InFile(block.value))
  }

  function ProcessSecondBlock(block: Option<string>): Result<Option<(int, int)>, Malformed> {
    if !Truthy(block) then Ok(None)
    else
      var parts := Split(block.value, ':');
      if ParseInt(parts[0]).None? then Err(NotANumber)
      else if |parts| < 2 then Err(NoColon)
      else if ParseInt(parts[1]).None? then Err(NotANumber)
      else Ok(Some((ParseInt(parts[0]).value, ParseInt(parts[1]).value)))
  }

  // ------------------------------------------------ numbers

  predicate Numeral(s: string) {
    s != [] && forall i :: 0 <= i < |s| ==> '0' <= s[i] <= '9'
  }

  lemma {:induction false} NumeralSeparated(s: string)
    requires Numeral(s)
    ensures Separated(s) && WithoutUnderscores(s) == s
  {
    if |s| > 1 {
      NumeralSeparated(s[1..]);
    } else {
      assert s[1..] == [] && WithoutUnderscores(s[1..]) == [];
    }
  }

  lemma NumeralParses(n: nat)
    ensures Numeral(Digits(10, n)) && ParseNat(Digits(10, n)) == Some(n)
  {
    DecimalDigits(n);
    NumeralSeparated(Digits(10, n));
    PositionalOfDigits(10, n);
  }

  lemma TrimKeeps(s: string)
    requires s != [] && !IsSpace(s[0]) && !IsSpace(s[|s| - 1])
    ensures TrimRight(TrimLeft(s)) == s
  {
  }

  /** Characters that only structure a label. */
  predicate Plain(s: string) {
    forall i :: 0 <= i < |s| ==> s[i] != '[' && s[i] != ']' && s[i] != ':'
  }

  lemma ShowParses(n: int)
    ensures ParseInt(Show(n)) == Some(n) && Plain(Show(n)) && Show(n) != []
  {
    hide ParseNat, TrimLeft, TrimRight;
    var m := if n < 0 then -n else n;
    NumeralParses(m);
    TrimKeeps(Show(n));
    assert n < 0 ==> Show(n)[1..] == Digits(10, m);
  }

  // ------------------------------------------------ blocks

  predicate NoBrackets(s: string) {
    forall i :: 0 <= i < |s| ==> s[i] != '[' && s[i] != ']'
  }

  lemma {:induction false} InnerOfBlock(text: string, rest: string)
    requires NoBrackets(text)
    ensures Inner(text + "]" + rest) == Some(text)
  {
    if text == [] {
      assert text + "]" + rest == "]" + rest;
    } else {
      InnerOfBlock(text[1..], rest);
      assert (text + "]" + rest)[1..] == text[1..] + "]" + rest;
      assert text == [text[0]] + text[1..];
    }
  }

  lemma PartsOfBlock(text: string, rest: string)
    requires NoBrackets(text)
    ensures Parts(Block(text) + rest) == ([text] + Parts(rest).0, Parts(rest).1)
  {
    var s := Block(text) + rest;
    InnerOfBlock(text, rest);
    assert s[1..] == text + "]" + rest;
    assert s[|text| + 2..] == rest;
  }

  lemma {:induction false} PartsOfName(name: string, rest: string)
    requires NoBrackets(name)
    ensures Parts(name + rest) == (Parts(rest).0, name + Parts(rest).1)
  {
    if name == [] {
      assert name + rest == rest && name + Parts(rest).1 == Parts(rest).1;
    } else {
      PartsOfName(name[1..], rest);
      assert (name + rest)[1..] == name[1..] + rest;
      assert name + Parts(rest).1 == [name[0]] + (name[1..] + Parts(rest).1);
    }
  }

  lemma SplitPair(a: string, b: string)
    requires ':' !in a && ':' !in b
    ensures Split(a + ":" + b, ':') == [a, b]
  {
    SplitFirst(a, ':', b);
    SplitFirst(b, ':', "");
    assert a + ":" + b == a + [':'] + b;
  }

  // ------------------------------------------------ the round trip

  /** What a reader of the label should learn. */
  function Meant(node: Node, line: int): Position {
    if line == 0 then InFile(node.file)
    else if node.isExternal then AtLine(line)
    else InFileAt(node.file, line)
  }

  function MeantRange(node: Node): Option<(int, int)> {
    if node.start != -1 then Some((node.start, node.end)) else None
  }

  /** Names without brackets; file names that are non-empty, no number, and free of colon and brackets. */
  predicate Printable(node: Node) {
    NoBrackets(node.name) && Plain(node.file) && node.file != [] && ParseInt(node.file).None?
  }

  /** All three parsers on one label. */
  function Read(text: string): (Result<Position, Malformed>, Result<Option<(int, int)>, Malformed>, string) {
    var blocks := Choose(Parts(text).0);
    (ProcessFirstBlock(blocks.0), ProcessSecondBlock(blocks.1), Parts(text).1)
  }

  function FirstText(node: Node, line: int): string {
    if line == 0 then node.file else if node.isExternal then Show(line) else node.file + ":" + Show(line)
  }

  function RangeText(node: Node): string {
    Show(node.start) + ":" + Show(node.end)
  }

  lemma FirstTextReads(node: Node, line: int)
    requires Printable(node)
    ensures NoBrackets(FirstText(node, line)) && FirstText(node, line) != ""
    ensures ProcessFirstBlock(Some(FirstText(node, line))) == Ok(Meant(node, line))
  {
    hide ParseInt, Show, Split;
    ShowParses(line);
    if line != 0 && !node.isExternal {
      SplitPair(node.file, Show(line));
      assert (node.file + ":" + Show(line))[|node.file|] == ':';
    }
  }

  lemma RangeTextReads(node: Node)
    ensures NoBrackets(RangeText(node)) && RangeText(node) != ""
    ensures ProcessSecondBlock(Some(RangeText(node))) == Ok(Some((node.start, node.end)))
  {
    hide ParseInt, Show, Split;
    ShowParses(node.start);
    ShowParses(node.end);
    SplitPair(Show(node.start), Show(node.end));
  }

  lemma SuffixParts(node: Node)
    ensures Parts(Suffix(node)) == (if node.start != -1 then [RangeText(node)] else [], "")
  {
    hide Show;
    if node.start != -1 {
      RangeTextReads(node);
      assert Suffix(node) == Block(RangeText(node)) + "";
      PartsOfBlock(RangeText(node), "");
      assert [RangeText(node)] + [] == [RangeText(node)];
    }
  }

  lemma ChooseOne(a: string)
    ensures Choose([a]) == (Some(a), None)
  {
    assert [a][..0] == [] && Choose([]) == (None, None);
  }

  lemma ChooseTwo(a: string, b: string)
    requires a != ""
    ensures Choose([a, b]) == (Some(a), Some(b))
  {
    ChooseOne(a);
    assert [a, b][..1] == [a];
  }

  /** The label of an internal node, or of any node with a line, reads back as its file, line, name and range. */
  lemma LabelRoundTrip(node: Node, line: int)
    requires Printable(node) && (!node.isExternal || line != 0)
    ensures Read(Label(node, line)) == (Ok(Meant(node, line)), Ok(MeantRange(node)), node.name)
  {
    hide ProcessFirstBlock, ProcessSecondBlock, Show, Choose, Parts, Suffix, NoBrackets, ParseInt, RangeText;
    var text := FirstText(node, line);
    FirstTextReads(node, line);
    RangeTextReads(node);
    assert Label(node, line) == Block(text) + (node.name + Suffix(node));
    PartsOfBlock(text, node.name + Suffix(node));
    PartsOfName(node.name, Suffix(node));
    SuffixParts(node);
    ChooseOne(text);
    ChooseTwo(text, RangeText(node));
    NoSecond();
    assert node.name + "" == node.name;
    assert [text] + [] == [text] && [text] + [RangeText(node)] == [text, RangeText(node)];
  }

  lemma NoSecond()
    ensures ProcessSecondBlock(None) == Ok(None)
  {
  }

  /** An external node printed without a line has no position block: its range, if any, is taken for one. */
  lemma ExternalWithoutLine(node: Node)
    requires Printable(node) && node.isExternal
    ensures Read(Label(node, 0)).0 ==
            if node.start != -1 then Ok(InFileAt(Show(node.start), node.end)) else Err(NoBlock)
  {
    hide Show, Choose, Parts, Suffix, NoBrackets, ParseInt, Split, ProcessSecondBlock;
    PartsOfName(node.name, Suffix(node));
    SuffixParts(node);
    if node.start != -1 {
      ChooseOne(RangeText(node));
      ShowParses(node.start);
      ShowParses(node.end);
      SplitPair(Show(node.start), Show(node.end));
      assert RangeText(node)[|Show(node.start)|] == ':';
    } else {
      ChooseNone();
    }
  }

  lemma ChooseNone()
    ensures Choose([]) == (None, None)
  {
  }

  /** The printed label reads back exactly when it has a position block of its own. */
  lemma RoundTripIff(node: Node, line: int)
    requires Printable(node)
    ensures Read(Label(node, line)) == (Ok(Meant(node, line)), Ok(MeantRange(node)), node.name) <==>
            !node.isExternal || line != 0
  {
    hide Read, Label, MeantRange;
    if !node.isExternal || line != 0 {
      LabelRoundTrip(node, line);
    } else {
      ExternalWithoutLine(node);
    }
  }
}
