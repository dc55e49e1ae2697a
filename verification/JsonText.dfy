/** JSON texts with their whitespace (RFC 8259, sections 2 to 7) and what skipping does on
    them. */
module JsonText {
  import opened Wrappers
  import opened JsonSkipper

  /** One character of a string: itself, or a backslash and the character after it. A
      four-digit escape is an escape followed by four plain characters. */
  datatype StrChar = Plain(c: char) | Escape(c: char)

  /** A value with all whitespace spelled out. `pad` is the whitespace of an empty container,
      `pre` and `post` surround an element, `mid` and `gap` the colon of a member. */
  datatype Json =
    | JStr(body: seq<StrChar>)
    | JScalar(token: string)
    | JArr(pad: string, items: Items)
    | JObj(pad: string, members: Members)

  datatype Items = NoItem | Item(pre: string, v: Json, post: string, rest: Items)

  datatype Members =
    | NoMember
    | Member(pre: string, key: seq<StrChar>, mid: string, gap: string, v: Json, post: string, rest: Members)

  predicate AllWs(s: string) {
    forall i :: 0 <= i < |s| ==> s[i] == ' ' || s[i] == '\t' || s[i] == '\n' || s[i] == '\r'
  }

  /** The characters of numbers, `true`, `false` and `null`. */
  predicate ScalarChar(c: char) {
    ('0' <= c <= '9') || ('a' <= c <= 'z') || c in {'+', '-', '.', 'E'}
  }

  predicate WellFormed(v: Json) {
    match v
    case JStr(body) => StrWellFormed(body)
    case JScalar(token) => token != [] && forall i :: 0 <= i < |token| ==> ScalarChar(token[i])
    case JArr(pad, items) => AllWs(pad) && ItemsWellFormed(items)
    case JObj(pad, members) => AllWs(pad) && MembersWellFormed(members)
  }

  predicate StrWellFormed(body: seq<StrChar>) {
    forall i :: 0 <= i < |body| ==> (body[i].Plain? ==> body[i].c != '"' && body[i].c != '\\')
  }

  predicate ItemsWellFormed(items: Items) {
    match items
    case NoItem => true
    case Item(pre, v, post, rest) => AllWs(pre) && WellFormed(v) && AllWs(post) && ItemsWellFormed(rest)
  }

  predicate MembersWellFormed(members: Members) {
    match members
    case NoMember => true
    case Member(pre, key, mid, gap, v, post, rest) =>
      && AllWs(pre) && StrWellFormed(key) && AllWs(mid) && AllWs(gap) && WellFormed(v) && AllWs(post)
      && MembersWellFormed(rest)
  }

  function BodyText(body: seq<StrChar>): string {
    if body == [] then ""
    else (match body[0] case Plain(c) => [c] case Escape(c) => ['\\', c]) + BodyText(body[1..])
  }

  function StrText(body: seq<StrChar>): string {
    "\"" + BodyText(body) + "\""
  }

  function Text(v: Json): string {
    match v
    case JStr(body) => StrText(body)
    case JScalar(token) => token
    case JArr(pad, items) => "[" + (if items.NoItem? then pad else ItemsText(items)) + "]"
    case JObj(pad, members) => "{" + (if members.NoMember? then pad else MembersText(members)) + "}"
  }

  function ItemsText(items: Items): string {
    match items
    case NoItem => ""
    case Item(pre, v, post, rest) =>
      pre + (Text(v) + (post + (if rest.NoItem? then "" else "," + ItemsText(rest))))
  }

  function MembersText(members: Members): string
    decreases members, 0
  {
    match members
    case NoMember => ""
    case Member(pre, key, mid, gap, v, post, rest) =>
      pre + (StrText(key) + (mid + (":" + (gap + (Text(v) + (post + Tail(rest)))))))
  }

  /** A comma and the remaining members, if there are any. */
  function Tail(rest: Members): string
    decreases rest, 1
  {
    if rest.NoMember? then "" else "," + MembersText(rest)
  }

  // ------------------------------------------------ pieces of a text

  /** `s` stands at position `i` of `t`. */
  predicate At(t: string, i: nat, s: string) {
    i + |s| <= |t| && t[i..i + |s|] == s
  }

  lemma AtConcat(t: string, i: nat, a: string, b: string)
    ensures At(t, i, a + b) <==> At(t, i, a) && At(t, i + |a|, b)
  {
    if At(t, i, a + b) {
      assert t[i..i + |a|] == t[i..i + |a + b|][..|a|];
      assert t[i + |a|..i + |a + b|] == t[i..i + |a + b|][|a|..];
    }
    if At(t, i, a) && At(t, i + |a|, b) {
      assert t[i..i + |a + b|] == t[i..i + |a|] + t[i + |a|..i + |a| + |b|];
    }
  }

  lemma AtChar(t: string, i: nat, s: string, k: nat)
    requires At(t, i, s) && k < |s|
    ensures i + k < |t| && t[i + k] == s[k]
  {
    assert t[i..i + |s|][k] == s[k];
  }

  // ------------------------------------------------ strings

  lemma {:induction false} BodyRead(t: string, i: nat, body: seq<StrChar>)
    requires StrWellFormed(body) && At(t, i, BodyText(body))
    ensures StringEnd(t, i) == StringEnd(t, i + |BodyText(body)|)
    decreases |body|
  {
    if body != [] {
      var first := match body[0] case Plain(c) => [c] case Escape(c) => ['\\', c];
      AtConcat(t, i, first, BodyText(body[1..]));
      AtChar(t, i, first, 0);
      BodyRead(t, i + |first|, body[1..]);
    }
  }

  /** Skipping a string ends right after its closing quote, whatever follows. */
  lemma StringSkipped(t: string, i: nat, body: seq<StrChar>)
    requires StrWellFormed(body) && At(t, i, StrText(body))
    ensures t[i] == '"' && StringEnd(t, i + 1) == Ok(i + |StrText(body)|)
  {
    hide At, BodyText;
    AtConcat(t, i, "\"" + BodyText(body), "\"");
    AtConcat(t, i, "\"", BodyText(body));
    AtChar(t, i, "\"", 0);
    AtChar(t, i + 1 + |BodyText(body)|, "\"", 0);
    BodyRead(t, i + 1, body);
  }

  // ------------------------------------------------ containers

  predicate Neutral(c: char) {
    c != '"' && !Opens(c) && !Closes(c)
  }

  lemma {:induction false} NeutralRun(t: string, j: nat, s: string, depth: int)
    requires At(t, j, s) && forall k :: 0 <= k < |s| ==> Neutral(s[k])
    ensures ContainerEnd(t, j, depth) == ContainerEnd(t, j + |s|, depth)
    decreases |s|
  {
    if s != [] {
      AtConcat(t, j, s[..1], s[1..]);
      assert s[..1] + s[1..] == s;
      AtChar(t, j, s, 0);
      NeutralRun(t, j + 1, s[1..], depth);
    }
  }

  lemma StringInside(t: string, j: nat, body: seq<StrChar>, depth: int)
    requires StrWellFormed(body) && At(t, j, StrText(body))
    ensures ContainerEnd(t, j, depth) == ContainerEnd(t, j + |StrText(body)|, depth)
  {
    StringSkipped(t, j, body);
  }

  /** A whole value inside a container leaves the depth where it was: brackets and quotes
      inside strings do not count, nested brackets balance. */
  lemma {:induction false} Balanced(t: string, j: nat, v: Json, depth: int)
    requires WellFormed(v) && At(t, j, Text(v)) && depth >= 1
    ensures ContainerEnd(t, j, depth) == ContainerEnd(t, j + |Text(v)|, depth)
    decreases v, 1
  {
    hide At, ContainerEnd;
    match v
    case JStr(body) => StringInside(t, j, body, depth);
    case JScalar(token) => NeutralRun(t, j, token, depth);
    case JArr(_, _) =>
      BalancedInside(t, j, v, depth + 1);
      AroundInside(t, j, |Inside(v)|, depth);
    case JObj(_, _) =>
      BalancedInside(t, j, v, depth + 1);
      AroundInside(t, j, |Inside(v)|, depth);
  }

  lemma AroundInside(t: string, j: nat, n: nat, depth: int)
    requires j + 1 + n < |t| && Opens(t[j]) && Closes(t[j + 1 + n]) && depth >= 1
    requires ContainerEnd(t, j + 1, depth + 1) == ContainerEnd(t, j + 1 + n, depth + 1)
    ensures ContainerEnd(t, j, depth) == ContainerEnd(t, j + n + 2, depth)
  {
  }

  function Inside(v: Json): string
    requires v.JArr? || v.JObj?
  {
    match v
    case JArr(pad, items) => if items.NoItem? then pad else ItemsText(items)
    case JObj(pad, members) => if members.NoMember? then pad else MembersText(members)
  }

  lemma {:induction false} BalancedInside(t: string, j: nat, v: Json, depth: int)
    requires (v.JArr? || v.JObj?) && WellFormed(v) && At(t, j, Text(v)) && depth >= 1
    ensures |Text(v)| == |Inside(v)| + 2 && j + |Text(v)| <= |t|
    ensures Opens(t[j]) && Closes(t[j + 1 + |Inside(v)|])
    ensures ContainerEnd(t, j + 1, depth) == ContainerEnd(t, j + 1 + |Inside(v)|, depth)
    decreases v, 0
  {
    hide At, StringEnd, ContainerEnd;
    var open, close := if v.JArr? then "[" else "{", if v.JArr? then "]" else "}";
    assert Text(v) == open + Inside(v) + close;
    AtConcat(t, j, open + Inside(v), close);
    AtConcat(t, j, open, Inside(v));
    AtChar(t, j, open, 0);
    AtChar(t, j + 1 + |Inside(v)|, close, 0);
    match v
    case JArr(pad, items) =>
      if items.NoItem? { NeutralRun(t, j + 1, pad, depth); } else { BalancedItems(t, j + 1, items, depth); }
    case JObj(pad, members) =>
      if members.NoMember? { NeutralRun(t, j + 1, pad, depth); } else { BalancedMembers(t, j + 1, members, depth); }
  }

  lemma ItemAt(t: string, j: nat, a: string, b: string, c: string, d: string)
    requires At(t, j, a + (b + (c + d)))
    ensures At(t, j, a) && At(t, j + |a|, b) && At(t, j + |a| + |b|, c) && At(t, j + |a| + |b| + |c|, d)
  {
    hide At;
    AtConcat(t, j, a, b + (c + d));
    AtConcat(t, j + |a|, b, c + d);
    AtConcat(t, j + |a| + |b|, c, d);
  }

  lemma {:induction false} BalancedItems(t: string, j: nat, items: Items, depth: int)
    requires ItemsWellFormed(items) && At(t, j, ItemsText(items)) && depth >= 1
    ensures ContainerEnd(t, j, depth) == ContainerEnd(t, j + |ItemsText(items)|, depth)
    decreases items
  {
    hide At, ContainerEnd;
    match items
    case NoItem =>
    case Item(pre, v, post, rest) =>
      var tail := if rest.NoItem? then "" else "," + ItemsText(rest);
      var k := j + |pre| + |Text(v)|;
      ItemAt(t, j, pre, Text(v), post, tail);
      NeutralRun(t, j, pre, depth);
      Balanced(t, j + |pre|, v, depth);
      NeutralRun(t, k, post, depth);
      if !rest.NoItem? {
        AtConcat(t, k + |post|, ",", ItemsText(rest));
        NeutralRun(t, k + |post|, ",", depth);
        BalancedItems(t, k + |post| + 1, rest, depth);
      }
  }

  lemma NothingToRead()
    ensures MembersText(NoMember) == "" && ItemsText(NoItem) == ""
  {
  }

  lemma {:induction false} BalancedMembers(t: string, j: nat, members: Members, depth: int)
    requires MembersWellFormed(members) && At(t, j, MembersText(members)) && depth >= 1
    ensures ContainerEnd(t, j, depth) == ContainerEnd(t, j + |MembersText(members)|, depth)
    decreases members
  {
    hide At, ContainerEnd, MembersText, Text, StrText;
    match members
    case NoMember => NothingToRead();
    case Member(pre, key, mid, gap, v, post, rest) =>
      var s := MemberAt(t, j, members);
      NeutralRun(t, j, pre, depth);
      StringInside(t, s.key, key, depth);
      NeutralRun(t, s.mid, mid, depth);
      NeutralRun(t, s.colon, ":", depth);
      NeutralRun(t, s.gap, gap, depth);
      Balanced(t, s.value, v, depth);
      NeutralRun(t, s.post, post, depth);
      if !rest.NoMember? {
        AtConcat(t, s.end, ",", MembersText(rest));
        NeutralRun(t, s.end, ",", depth);
        BalancedMembers(t, s.end + 1, rest, depth);
      }
  }

  /** Where the parts of a member stand. */
  datatype Spot = Spot(key: nat, mid: nat, colon: nat, gap: nat, value: nat, post: nat, end: nat)

  lemma MemberAt(t: string, j: nat, members: Members) returns (s: Spot)
    requires members.Member? && At(t, j, MembersText(members))
    ensures s == SpotOf(j, members)
    ensures At(t, j, members.pre) && At(t, s.key, StrText(members.key)) && At(t, s.mid, members.mid)
    ensures At(t, s.colon, ":") && At(t, s.gap, members.gap) && At(t, s.value, Text(members.v))
    ensures At(t, s.post, members.post) && At(t, s.end, Tail(members.rest))
    ensures s.end + |Tail(members.rest)| == j + |MembersText(members)|
  {
    hide At, Text, StrText, Tail;
    s := SpotOf(j, members);
    var tail := Tail(members.rest);
    var t5 := Text(members.v) + (members.post + tail);
    ItemAt(t, j, members.pre, StrText(members.key), members.mid, ":" + (members.gap + t5));
    AtConcat(t, s.colon, ":", members.gap + t5);
    ItemAt(t, s.gap, members.gap, Text(members.v), members.post, tail);
  }

  function SpotOf(j: nat, members: Members): Spot
    requires members.Member?
  {
    var key := j + |members.pre|;
    var mid := key + |StrText(members.key)|;
    var colon := mid + |members.mid|;
    var gap := colon + 1;
    var value := gap + |members.gap|;
    var post := value + |Text(members.v)|;
    Spot(key, mid, colon, gap, value, post, post + |members.post|)
  }

  // ------------------------------------------------ values

  lemma {:induction false} ScalarRead(t: string, j: nat, token: string)
    requires At(t, j, token) && forall k :: 0 <= k < |token| ==> !IsStop(token[k])
    ensures ScalarEnd(t, j) == ScalarEnd(t, j + |token|)
    decreases |token|
  {
    if token != [] {
      AtConcat(t, j, token[..1], token[1..]);
      assert token[..1] + token[1..] == token;
      AtChar(t, j, token, 0);
      ScalarRead(t, j + 1, token[1..]);
    }
  }

  lemma ScalarSkipped(t: string, i: nat, token: string)
    requires WellFormed(JScalar(token)) && At(t, i, token)
    ensures i < |t| && ValueEnd(t, i) == Ok(ScalarEnd(t, i + |token|))
  {
    hide At, ScalarEnd;
    AtChar(t, i, token, 0);
    ScalarRead(t, i, token);
  }

  lemma ContainerSkipped(t: string, i: nat, v: Json)
    requires (v.JArr? || v.JObj?) && WellFormed(v) && At(t, i, Text(v))
    ensures i < |t| && ValueEnd(t, i) == Ok(i + |Text(v)|)
  {
    hide At, Text, Inside, WellFormed;
    BalancedInside(t, i, v, 1);
  }

  /** For every JSON value, in every text around it: strings and containers are skipped to the
      index just past them; numbers and literals as far as the next stop character. */
  lemma ValueSkipped(t: string, i: nat, v: Json)
    requires WellFormed(v) && At(t, i, Text(v))
    ensures i < |t|
    ensures ValueEnd(t, i) == Ok(if v.JScalar? then ScalarEnd(t, i + |Text(v)|) else i + |Text(v)|)
  {
    hide At, StrText, ScalarEnd;
    match v
    case JStr(body) => StringSkipped(t, i, body);
    case JScalar(token) => ScalarSkipped(t, i, token);
    case _ => ContainerSkipped(t, i, v);
  }

  /** So the index is just past the value exactly if the value is not a number or literal
      with a carriage return, or other text that is no stop, right behind it. */
  lemma SkippedExactly(t: string, i: nat, v: Json)
    requires WellFormed(v) && At(t, i, Text(v))
    ensures ValueEnd(t, i) == Ok(i + |Text(v)|) <==>
            !v.JScalar? || i + |Text(v)| == |t| || t[i + |Text(v)|] in {',', '}', ']', '\n', '\t', ' '}
  {
    ValueSkipped(t, i, v);
    var end := i + |Text(v)|;
    if end < |t| && !IsStop(t[end]) { assert ScalarEnd(t, end) == ScalarEnd(t, end + 1); }
  }

  /** A number with a carriage return behind it: the index is one too far. */
  lemma CarriageReturnSkipped()
    ensures WellFormed(JScalar("1")) && Text(JScalar("1")) == "1" && At("1\r", 0, "1")
    ensures ValueEnd("1\r", 0) == Ok(2)
  {
    var t := "1\r";
    ValueSkipped(t, 0, JScalar("1"));
    assert ScalarEnd(t, 1) == ScalarEnd(t, 2) == 2;
  }

  /** What may follow a value: whitespace, then a comma, a closing bracket or the end. */
  predicate LegalAfter(t: string, end: nat) {
    var k := SkipWs(t, end);
    k >= |t| || t[k] == ',' || Closes(t[k])
  }

  lemma {:induction false} OvershootIsWs(t: string, end: nat)
    requires end <= |t| && LegalAfter(t, end)
    ensures SkipWs(t, ScalarEnd(t, end)) == SkipWs(t, end)
    decreases |t| - end
  {
    if end < |t| && !IsStop(t[end]) {
      assert IsWs(t[end]);
      OvershootIsWs(t, end + 1);
    }
  }

  /** Skipping a value and then whitespace always arrives at the delimiter, also when the
      value is followed by carriage returns. */
  lemma ValueThenWs(t: string, i: nat, v: Json)
    requires WellFormed(v) && At(t, i, Text(v)) && LegalAfter(t, i + |Text(v)|)
    ensures ValueEnd(t, i).Ok? && SkipWs(t, ValueEnd(t, i).value) == SkipWs(t, i + |Text(v)|)
  {
    ValueSkipped(t, i, v);
    OvershootIsWs(t, i + |Text(v)|);
  }
}
