/** How labels are read: which blocks count, and which texts Python's `int` takes for a number. */
module LabelReading {
  import opened Wrappers
  import opened Formula
  import opened Splitting
  import opened Labels

  /** Tab, line feed, vertical tab, form feed, carriage return and space. */
  ghost predicate Spaces(s: string) {
    forall i :: 0 <= i < |s| ==> s[i] as int in {9, 10, 11, 12, 13, 32}
  }

  /** `groups`, with one underscore between each two. */
  function Grouped(groups: seq<string>): string {
    if groups == [] then "" else if |groups| == 1 then groups[0] else groups[0] + "_" + Grouped(groups[1..])
  }

  function Together(groups: seq<string>): string {
    if groups == [] then "" else groups[0] + Together(groups[1..])
  }

  predicate Numerals(groups: seq<string>) {
    groups != [] && forall i :: 0 <= i < |groups| ==> Numeral(groups[i])
  }

  function Signed(sign: string, m: int): int {
    if sign == "-" then -m else m
  }

  /** The text has spaces around a sign, if any, and groups of decimal digits that together spell `n` without it. */
  ghost predicate SpellsInt(text: string, n: int) {
    exists before, sign, groups, after ::
      && text == before + sign + Grouped(groups) + after && Spaces(before) && Spaces(after)
      && sign in {"", "+", "-"} && Numerals(groups)
      && n == Signed(sign, Positional(10, Together(groups)))
  }

  // ------------------------------------------------ groups of digits

  lemma DigitIff(c: char)
    ensures DigitValue(c) < 10 <==> '0' <= c <= '9'
  {
  }

  lemma WithoutFirst(s: string)
    requires s != []
    ensures WithoutUnderscores(s) == (if s[0] == '_' then [] else [s[0]]) + WithoutUnderscores(s[1..])
    ensures WithoutUnderscores([]) == []
  {
  }

  lemma {:induction false} GroupsOf(s: string) returns (groups: seq<string>)
    requires Separated(s)
    ensures Numerals(groups) && Grouped(groups) == s && Together(groups) == WithoutUnderscores(s)
  {
    hide Grouped, Together, WithoutUnderscores;
    DigitIff(s[0]);
    WithoutFirst(s);
    assert s == [s[0]] + s[1..];
    if |s| == 1 {
      groups := [s];
      assert s[1..] == [] && [s] + [] == [s] && s + "" == s;
      GroupedFirst(s, []);
      NothingTogether();
    } else if Separated(s[1..]) {
      var rest := GroupsOf(s[1..]);
      groups := [[s[0]] + rest[0]] + rest[1..];
      FirstLonger(s[0], rest);
    } else {
      var rest := GroupsOf(s[2..]);
      groups := [[s[0]]] + rest;
      assert s[1..] == "_" + s[2..] && s[1..][1..] == s[2..] && s == [s[0]] + "_" + s[2..];
      GroupedFirst([s[0]], rest);
      WithoutFirst(s[1..]);
    }
  }

  lemma NothingTogether()
    ensures Together([]) == ""
  {
  }

  lemma FirstLonger(c: char, rest: seq<string>)
    requires rest != []
    ensures Grouped([[c] + rest[0]] + rest[1..]) == [c] + Grouped(rest)
    ensures Together([[c] + rest[0]] + rest[1..]) == [c] + Together(rest)
  {
    hide Grouped, Together;
    var first, more := rest[0], rest[1..];
    GroupedFirst([c] + first, more);
    GroupedFirst(first, more);
    assert rest == [first] + more;
    InFront(c, first, "_" + Grouped(more));
    InFront(c, first, Together(more));
    assert first + "_" + Grouped(more) == first + ("_" + Grouped(more));
    assert [c] + first + "_" + Grouped(more) == [c] + first + ("_" + Grouped(more));
  }

  lemma InFront(c: char, first: string, more: string)
    ensures [c] + first + more == [c] + (first + more)
  {
  }

  lemma GroupedFirst(first: string, rest: seq<string>)
    ensures Grouped([first] + rest) == if rest == [] then first else first + "_" + Grouped(rest)
    ensures Together([first] + rest) == first + Together(rest)
  {
    assert ([first] + rest)[1..] == rest;
  }

  lemma {:induction false} GroupsRead(groups: seq<string>)
    requires Numerals(groups)
    ensures Separated(Grouped(groups)) && WithoutUnderscores(Grouped(groups)) == Together(groups) && Numeral(Together(groups))
  {
    var first := groups[0];
    if |groups| == 1 {
      assert groups[1..] == [] && first + "" == first;
      NumeralSeparated(first);
    } else {
      GroupsRead(groups[1..]);
      GroupInFront(first, Grouped(groups[1..]));
    }
  }

  lemma DigitInFront(c: char, s: string)
    requires '0' <= c <= '9' && Separated(s)
    ensures Separated([c] + s) && WithoutUnderscores([c] + s) == [c] + WithoutUnderscores(s)
  {
    DigitIff(c);
    assert ([c] + s)[1..] == s;
  }

  lemma DigitAndUnderscore(c: char, s: string)
    requires '0' <= c <= '9' && Separated(s)
    ensures Separated([c] + "_" + s) && WithoutUnderscores([c] + "_" + s) == [c] + WithoutUnderscores(s)
  {
    DigitIff(c);
    var t := [c] + "_" + s;
    assert t[1..] == "_" + s && t[2..] == s && t[1..][1..] == s;
  }

  lemma {:induction false} GroupInFront(first: string, rest: string)
    requires Numeral(first) && Separated(rest)
    ensures Separated(first + "_" + rest)
    ensures WithoutUnderscores(first + "_" + rest) == first + WithoutUnderscores(rest)
  {
    hide Separated, WithoutUnderscores;
    assert first == [first[0]] + first[1..];
    if |first| == 1 {
      assert first == [first[0]];
      DigitAndUnderscore(first[0], rest);
    } else {
      GroupInFront(first[1..], rest);
      DigitInFront(first[0], first[1..] + "_" + rest);
      assert first + "_" + rest == [first[0]] + (first[1..] + "_" + rest);
      assert [first[0]] + (first[1..] + WithoutUnderscores(rest)) == first + WithoutUnderscores(rest);
    }
  }

  lemma NumeralDigits(s: string)
    requires Numeral(s)
    ensures AllDigits(10, s)
  {
    forall i | 0 <= i < |s| ensures DigitValue(s[i]) < 10 {
      DigitIff(s[i]);
    }
  }

  /** Digits in groups are read as the number that they spell together. */
  lemma ParseNatIff(s: string, n: int)
    ensures ParseNat(s) == Some(n) <==>
      exists groups :: Numerals(groups) && s == Grouped(groups) && n == Positional(10, Together(groups))
  {
    hide Positional, AllDigits, Separated, WithoutUnderscores, Grouped, Together, Numerals;
    if Separated(s) && ParseNat(s) == Some(n) {
      var groups := GroupsOf(s);
      assert Numerals(groups) && s == Grouped(groups) && n == Positional(10, Together(groups));
    }
    if groups :| Numerals(groups) && s == Grouped(groups) && n == Positional(10, Together(groups)) {
      GroupsRead(groups);
      NumeralDigits(Together(groups));
    }
  }

  // ------------------------------------------------ spaces

  lemma SpaceIff(c: char)
    ensures IsSpace(c) <==> c as int in {9, 10, 11, 12, 13, 32}
  {
  }

  lemma {:induction false} TrimLeftIs(s: string) returns (before: string)
    ensures s == before + TrimLeft(s) && Spaces(before) && (TrimLeft(s) != [] ==> !IsSpace(TrimLeft(s)[0]))
  {
    before := "";
    if s != [] && IsSpace(s[0]) {
      SpaceIff(s[0]);
      before := TrimLeftIs(s[1..]);
      before := [s[0]] + before;
      assert s == [s[0]] + s[1..];
    }
  }

  lemma {:induction false} TrimRightIs(s: string) returns (after: string)
    ensures s == TrimRight(s) + after && Spaces(after)
  {
    after := "";
    if s != [] && IsSpace(s[|s| - 1]) {
      SpaceIff(s[|s| - 1]);
      after := TrimRightIs(s[..|s| - 1]);
      after := after + [s[|s| - 1]];
      assert s == s[..|s| - 1] + [s[|s| - 1]];
    }
  }

  lemma {:induction false} TrimsLeft(before: string, core: string)
    requires Spaces(before) && core != [] && !IsSpace(core[0])
    ensures TrimLeft(before + core) == core
  {
    if before == [] {
      assert before + core == core;
    } else {
      SpaceIff(before[0]);
      assert (before + core)[1..] == before[1..] + core;
      TrimsLeft(before[1..], core);
    }
  }

  lemma {:induction false} TrimsRight(core: string, after: string)
    requires Spaces(after) && core != [] && !IsSpace(core[|core| - 1])
    ensures TrimRight(core + after) == core
  {
    if after == [] {
      assert core + after == core;
    } else {
      SpaceIff(after[|after| - 1]);
      assert (core + after)[..|core + after| - 1] == core + after[..|after| - 1];
      TrimsRight(core, after[..|after| - 1]);
    }
  }

  lemma {:induction false} GroupedEnds(groups: seq<string>)
    requires Numerals(groups)
    ensures Grouped(groups) != [] && '0' <= Grouped(groups)[0] <= '9' && '0' <= Grouped(groups)[|Grouped(groups)| - 1] <= '9'
  {
    if |groups| > 1 {
      GroupedEnds(groups[1..]);
    }
  }

  // ------------------------------------------------ the whole text

  /** `int` reads a text as `n` exactly if it spells `n`. */
  lemma ParseIntIff(text: string, n: int)
    ensures ParseInt(text) == Some(n) <==> SpellsInt(text, n)
  {
    hide Positional, Grouped, Together, Numerals, ParseNat, Spaces, TrimLeft, TrimRight, IsSpace;
    if ParseInt(text) == Some(n) {
      Spelled(text, n);
    }
    if SpellsInt(text, n) {
      var before, sign, groups, after :|
        && text == before + sign + Grouped(groups) + after && Spaces(before) && Spaces(after)
        && sign in {"", "+", "-"} && Numerals(groups)
        && n == Signed(sign, Positional(10, Together(groups)));
      ReadsSpelled(before, sign, groups, after);
    }
  }

  /** The sign and the digits that are read. */
  lemma SignAndDigits(s: string, n: int) returns (sign: string, digits: string)
    requires if s != [] && s[0] == '-' then ParseNat(s[1..]) == Some(-n)
             else if s != [] && s[0] == '+' then ParseNat(s[1..]) == Some(n)
             else ParseNat(s) == Some(n)
    ensures sign in {"", "+", "-"} && s == sign + digits && ParseNat(digits) == Some(Signed(sign, n))
  {
    hide ParseNat;
    if s != [] && (s[0] == '-' || s[0] == '+') {
      sign, digits := [s[0]], s[1..];
    } else {
      sign, digits := "", s;
    }
  }

  lemma Spelled(text: string, n: int)
    requires ParseInt(text) == Some(n)
    ensures SpellsInt(text, n)
  {
    hide Positional, Grouped, Together, Numerals, ParseNat, Spaces, TrimLeft, TrimRight, IsSpace, Signed;
    var before := TrimLeftIs(text);
    var after := TrimRightIs(TrimLeft(text));
    var s := TrimRight(TrimLeft(text));
    var sign, digits := SignAndDigits(s, n);
    ParseNatIff(digits, Signed(sign, n));
    var groups :| Numerals(groups) && digits == Grouped(groups) && Signed(sign, n) == Positional(10, Together(groups));
    assert text == before + sign + Grouped(groups) + after;
    SignedTwice(sign, n);
  }

  lemma SignedTwice(sign: string, n: int)
    ensures Signed(sign, Signed(sign, n)) == n
  {
  }

  lemma ReadsSpelled(before: string, sign: string, groups: seq<string>, after: string)
    requires Spaces(before) && Spaces(after) && sign in {"", "+", "-"} && Numerals(groups)
    ensures ParseInt(before + sign + Grouped(groups) + after) ==
      Some(Signed(sign, Positional(10, Together(groups))))
  {
    hide Positional, Grouped, Together, Numerals, ParseNat, Spaces, TrimLeft, TrimRight;
    var digits := Grouped(groups);
    var core := sign + digits;
    GroupedEnds(groups);
    assert core[|core| - 1] == digits[|digits| - 1];
    assert before + sign + digits + after == before + (core + after);
    TrimsLeft(before, core + after);
    TrimsRight(core, after);
    ParseNatIff(digits, Positional(10, Together(groups)));
    assert sign != "" ==> core[0] == sign[0] && core[1..] == digits;
    assert sign == "" ==> core == digits;
  }

  // ------------------------------------------------ the two blocks

  ghost predicate FirstFilled(blocks: seq<string>, i: int) {
    0 <= i < |blocks| && blocks[i] != "" && forall j :: 0 <= j < i ==> blocks[j] == ""
  }

  ghost predicate AllEmpty(blocks: seq<string>) {
    forall i :: 0 <= i < |blocks| ==> blocks[i] == ""
  }

  /** `block` is the first block that is not empty; if all are, it is empty, and missing if there are none. */
  ghost predicate Picked(blocks: seq<string>, block: Option<string>) {
    && (forall i :: FirstFilled(blocks, i) ==> block == Some(blocks[i]))
    && (AllEmpty(blocks) ==> block == if blocks == [] then None else Some(""))
  }

  lemma PickedSnoc(blocks: seq<string>, block: Option<string>, last: string)
    requires Picked(blocks, block)
    ensures Picked(blocks + [last], if Truthy(block) then block else Some(last))
  {
    var all := blocks + [last];
    if i :| FirstFilled(blocks, i) {
      assert FirstFilled(all, i);
      assert forall j :: FirstFilled(all, j) ==> j == i;
      assert all[i] != "";
    } else {
      NoneFilled(blocks);
      assert forall i :: FirstFilled(all, i) ==> i == |blocks|;
      assert all[|blocks|] == last;
      assert AllEmpty(all) ==> last == "";
    }
  }

  lemma {:induction false} NoneFilled(blocks: seq<string>)
    requires forall i :: !FirstFilled(blocks, i)
    ensures AllEmpty(blocks)
  {
    if blocks != [] {
      var init := blocks[..|blocks| - 1];
      forall i ensures !FirstFilled(init, i) {
        assert FirstFilled(init, i) ==> FirstFilled(blocks, i);
      }
      NoneFilled(init);
      assert !FirstFilled(blocks, |blocks| - 1);
      assert forall i :: 0 <= i < |blocks| - 1 ==> blocks[i] == init[i];
    }
  }

  /** The first block is picked among all of them, the second one among those behind the first that is not empty. */
  lemma {:induction false} ChooseIs(blocks: seq<string>)
    ensures Picked(blocks, Choose(blocks).0)
    ensures forall i :: FirstFilled(blocks, i) ==> Picked(blocks[i + 1..], Choose(blocks).1)
    ensures AllEmpty(blocks) ==> Choose(blocks).1 == None
  {
    hide Picked;
    if blocks == [] {
      NothingPicked();
    } else {
      var init, last := blocks[..|blocks| - 1], blocks[|blocks| - 1];
      var before := Choose(init);
      ChooseIs(init);
      assert blocks == init + [last];
      PickedSnoc(init, before.0, last);
      TruthyIff(init, before.0);
      forall i | FirstFilled(blocks, i) ensures Picked(blocks[i + 1..], Choose(blocks).1) {
        if i < |init| {
          assert FirstFilled(init, i);
          assert blocks[i + 1..] == init[i + 1..] + [last];
          PickedSnoc(init[i + 1..], before.1, last);
        } else {
          NothingPicked();
          assert blocks[i + 1..] == [];
        }
      }
    }
  }

  lemma NothingPicked()
    ensures Picked([], None) && AllEmpty([])
  {
  }

  lemma TruthyIff(blocks: seq<string>, block: Option<string>)
    requires Picked(blocks, block)
    ensures Truthy(block) <==> !AllEmpty(blocks)
  {
    if forall i :: !FirstFilled(blocks, i) {
      NoneFilled(blocks);
    }
  }

  /** A first block with a colon is a file and a line; one without is a line if it spells a number, and else a file. */
  lemma FirstBlockIs(file: string, line: string, n: int)
    requires ':' !in file && ':' !in line
    ensures ProcessFirstBlock(Some(file + ":" + line)) == Ok(InFileAt(file, n)) <==> SpellsInt(line, n)
    ensures (forall m :: !SpellsInt(line, m)) ==> ProcessFirstBlock(Some(file + ":" + line)) == Err(NotANumber)
    ensures ProcessFirstBlock(Some(file)) == Ok(AtLine(n)) <==> SpellsInt(file, n)
    ensures (forall m :: !SpellsInt(file, m)) ==> ProcessFirstBlock(Some(file)) == Ok(InFile(file))
    ensures ProcessFirstBlock(None) == Err(NoBlock)
  {
    hide SpellsInt, ParseInt, Split;
    SplitPair(file, line);
    assert (file + ":" + line)[|file|] == ':';
    ReadsOrNot(line, n);
    ReadsOrNot(file, n);
  }

  lemma ReadsOrNot(text: string, n: int)
    ensures ParseInt(text) == Some(n) <==> SpellsInt(text, n)
    ensures ParseInt(text) == None <==> forall m :: !SpellsInt(text, m)
  {
    hide SpellsInt, ParseInt;
    forall m ensures ParseInt(text) == Some(m) <==> SpellsInt(text, m) {
      ParseIntIff(text, m);
    }
    if ParseInt(text).Some? {
      ParseIntIff(text, ParseInt(text).value);
    }
  }

  /** A second block is a range if both ends spell numbers; without one there is no range. */
  lemma SecondBlockIs(start: string, end: string, m: int, n: int)
    requires ':' !in start && ':' !in end
    ensures ProcessSecondBlock(Some(start + ":" + end)) == Ok(Some((m, n))) <==> SpellsInt(start, m) && SpellsInt(end, n)
    ensures (exists k :: SpellsInt(start, k)) && start != "" ==> ProcessSecondBlock(Some(start)) == Err(NoColon)
    ensures ProcessSecondBlock(None) == ProcessSecondBlock(Some("")) == Ok(None)
  {
    hide SpellsInt, ParseInt, Split;
    SplitPair(start, end);
    SplitFirst(start, ':', "");
    ReadsOrNot(start, m);
    ReadsOrNot(end, n);
  }
}
