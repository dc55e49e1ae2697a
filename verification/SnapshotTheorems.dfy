/** The scanner against a full parse, for every snapshot text. */
module SnapshotTheorems {
  import opened Wrappers
  import opened JsonSkipper
  import opened JsonText
  import opened SnapshotScan

  // ------------------------------------------------ whitespace and first characters

  lemma {:induction false} WsRun(t: string, i: nat, s: string)
    requires At(t, i, s) && AllWs(s)
    ensures SkipWs(t, i) == SkipWs(t, i + |s|)
    decreases |s|
  {
    if s != [] {
      AtConcat(t, i, s[..1], s[1..]);
      assert s[..1] + s[1..] == s;
      AtChar(t, i, s, 0);
      WsRun(t, i + 1, s[1..]);
    }
  }

  /** Whitespace followed by a character that is none. */
  lemma WsThen(t: string, i: nat, s: string)
    requires At(t, i, s) && AllWs(s)
    requires i + |s| >= |t| || !IsWs(t[i + |s|])
    ensures SkipWs(t, i) == i + |s|
  {
    WsRun(t, i, s);
  }

  lemma {:induction false} SkipTwice(t: string, i: nat)
    ensures SkipWs(t, SkipWs(t, i)) == SkipWs(t, i)
    decreases |t| - i
  {
    if i < |t| && IsWs(t[i]) { SkipTwice(t, i + 1); }
  }

  lemma FirstChar(t: string, i: nat, v: Json)
    requires WellFormed(v) && At(t, i, Text(v))
    ensures i < |t| && !IsWs(t[i]) && !Closes(t[i]) && t[i] != ','
    ensures t[i] == '"' <==> v.JStr?
    ensures t[i] == '[' <==> v.JArr?
    ensures t[i] == '{' <==> v.JObj?
  {
    match v
    case JStr(body) =>
      AtConcat(t, i, "\"" + BodyText(body), "\"");
      AtConcat(t, i, "\"", BodyText(body));
      AtChar(t, i, "\"", 0);
    case JScalar(token) => AtChar(t, i, token, 0);
    case JArr(_, _) => AtConcat(t, i, "[" + Inside(v), "]"); AtConcat(t, i, "[", Inside(v)); AtChar(t, i, "[", 0);
    case JObj(_, _) => AtConcat(t, i, "{" + Inside(v), "}"); AtConcat(t, i, "{", Inside(v)); AtChar(t, i, "{", 0);
  }

  // ------------------------------------------------ arrays

  function Count(items: Items): nat {
    match items
    case NoItem => 0
    case Item(_, _, _, rest) => 1 + Count(rest)
  }

  function ItemTail(rest: Items): string {
    if rest.NoItem? then "" else "," + ItemsText(rest)
  }

  /** Where the parts of the first element stand, and what follows it. */
  lemma ItemParts(t: string, i: nat, items: Items)
    requires items.Item? && At(t, i, ItemsText(items))
    ensures At(t, i, items.pre) && At(t, i + |items.pre|, Text(items.v))
    ensures At(t, i + |items.pre| + |Text(items.v)|, items.post)
    ensures var k := i + |items.pre| + |Text(items.v)| + |items.post|;
            if items.rest.NoItem? then k == i + |ItemsText(items)|
            else k < |t| && t[k] == ',' && At(t, k + 1, ItemsText(items.rest)) &&
                 k + 1 + |ItemsText(items.rest)| == i + |ItemsText(items)|
  {
    var Item(pre, v, post, rest) := items;
    ItemAt(t, i, pre, Text(v), post, ItemTail(rest));
    var k := i + |pre| + |Text(v)| + |post|;
    if !rest.NoItem? {
      AtConcat(t, k, ",", ItemsText(rest));
      AtChar(t, k, ",", 0);
    }
  }

  lemma CountOne(t: string, i: nat, count: nat, at: nat, k: nat)
    requires i <= |t| && SkipWs(t, i) == at && ValueEnd(t, at).Ok? && SkipWs(t, ValueEnd(t, at).value) == k < |t|
    ensures t[k] == ',' ==> CountElements(t, i, count) == CountElements(t, k + 1, count + 1)
    ensures t[k] == ']' ==> CountElements(t, i, count) == Ok((count + 1, k + 1))
  {
  }

  lemma {:induction false} ElementsCounted(t: string, i: nat, items: Items, count: nat)
    requires items.Item? && ItemsWellFormed(items) && At(t, i, ItemsText(items))
    requires i + |ItemsText(items)| < |t| && t[i + |ItemsText(items)|] == ']'
    ensures i <= |t| && CountElements(t, i, count) == Ok((count + Count(items), i + |ItemsText(items)| + 1))
    decreases items
  {
    hide At, Text, ItemsText, CountElements, SkipWs, ValueEnd, WellFormed;
    var k := i + |items.pre| + |Text(items.v)| + |items.post|;
    ItemParts(t, i, items);
    ElementEnds(t, i, items.pre, items.v, items.post);
    CountOne(t, i, count, i + |items.pre|, k);
    if !items.rest.NoItem? {
      ElementsCounted(t, k + 1, items.rest, count + 1);
    }
  }

  /** One element with its whitespace, up to the comma or bracket behind it. */
  lemma ElementEnds(t: string, i: nat, pre: string, v: Json, post: string)
    requires AllWs(pre) && WellFormed(v) && AllWs(post)
    requires At(t, i, pre) && At(t, i + |pre|, Text(v)) && At(t, i + |pre| + |Text(v)|, post)
    requires i + |pre| + |Text(v)| + |post| < |t|
    requires t[i + |pre| + |Text(v)| + |post|] == ',' || Closes(t[i + |pre| + |Text(v)| + |post|])
    ensures SkipWs(t, i) == i + |pre| && ValueEnd(t, i + |pre|).Ok?
    ensures SkipWs(t, ValueEnd(t, i + |pre|).value) == i + |pre| + |Text(v)| + |post|
  {
    hide At, Text, WellFormed;
    FirstChar(t, i + |pre|, v);
    WsThen(t, i, pre);
    WsThen(t, i + |pre| + |Text(v)|, post);
    ValueThenWs(t, i + |pre|, v);
  }

  lemma ArrayParts(t: string, i: nat, v: Json)
    requires v.JArr? && At(t, i, Text(v))
    ensures At(t, i + 1, Inside(v)) && |Text(v)| == |Inside(v)| + 2
    ensures i + 1 + |Inside(v)| < |t| && t[i + 1 + |Inside(v)|] == ']'
  {
    AtConcat(t, i, "[" + Inside(v), "]");
    AtConcat(t, i, "[", Inside(v));
    AtChar(t, i + 1 + |Inside(v)|, "]", 0);
  }

  lemma {:induction false} CountFromFirst(t: string, i: nat, count: nat)
    requires i <= |t|
    ensures CountElements(t, SkipWs(t, i), count) == CountElements(t, i, count)
  {
    SkipTwice(t, i);
  }

  /** The array loop counts the elements and stops right behind the array. */
  lemma ArrayCounted(t: string, i: nat, v: Json)
    requires v.JArr? && WellFormed(v) && At(t, i, Text(v))
    ensures i < |t| && ArrayEnd(t, i) == Ok((Count(v.items), i + |Text(v)|))
  {
    hide At, Text, ItemsText, CountElements, SkipWs;
    ArrayParts(t, i, v);
    if v.items.NoItem? {
      WsThen(t, i + 1, v.pad);
    } else {
      FirstOfItems(t, i + 1, v.items);
      ElementsCounted(t, i + 1, v.items, 0);
      CountFromFirst(t, i + 1, 0);
    }
  }

  lemma FirstOfItems(t: string, i: nat, items: Items)
    requires items.Item? && ItemsWellFormed(items) && At(t, i, ItemsText(items))
    ensures SkipWs(t, i) < |t| && t[SkipWs(t, i)] != ']'
  {
    ItemAt(t, i, items.pre, Text(items.v), items.post, ItemTail(items.rest));
    FirstChar(t, i + |items.pre|, items.v);
    WsThen(t, i, items.pre);
  }

  // ------------------------------------------------ members

  /** What the scanner should record for `key` with value `v` at `at`. */
  function Note(t: string, key: string, v: Json, at: nat, acc: Sections): Sections {
    var end := at + |Text(v)|;
    match v
    case JArr(_, items) =>
      if key in STRUCTURAL then
        acc.(counts := acc.counts[key := Count(items)], spans := acc.spans[key := Span(at, end)])
      else if key == "source_files" then acc.(spans := acc.spans[key := Span(at, end)])
      else acc
    case JObj(_, _) => if key == "process" then acc.(process := Some(Span(at, end))) else acc
    case JStr(_) => acc.(scalars := acc.scalars[key := Span(at, end)])
    case JScalar(_) => acc.(scalars := acc.scalars[key := Span(at, ScalarEnd(t, end))])
  }

  ghost predicate KeysDecode(members: Members, decode: string -> Option<string>) {
    match members
    case NoMember => true
    case Member(_, key, _, _, _, _, rest) => decode(StrText(key)).Some? && KeysDecode(rest, decode)
  }

  /** All members in turn, the first one at `j`. */
  ghost function NoteAll(t: string, j: nat, members: Members, acc: Sections, decode: string -> Option<string>): Sections
    requires KeysDecode(members, decode)
    decreases members
  {
    match members
    case NoMember => acc
    case Member(_, key, _, _, v, _, rest) =>
      var s := SpotOf(j, members);
      NoteAll(t, s.end + 1, rest, Note(t, decode(StrText(key)).value, v, s.value, acc), decode)
  }

  lemma ValueNoted(t: string, i: nat, key: string, v: Json, acc: Sections)
    requires WellFormed(v) && At(t, i, Text(v))
    ensures ValueEnd(t, i).Ok?
    ensures ScanValue(t, i, key, acc) == Ok((ValueEnd(t, i).value, Note(t, key, v, i, acc)))
  {
    hide At, Text, WellFormed;
    FirstChar(t, i, v);
    ValueSkipped(t, i, v);
    if v.JArr? { ArrayCounted(t, i, v); }
  }

  /** From the quote of the key to the value. */
  lemma KeyRead(t: string, members: Members, s: Spot, acc: Sections, decode: string -> Option<string>)
    requires members.Member? && MembersWellFormed(members) && decode(StrText(members.key)).Some?
    requires At(t, s.key, StrText(members.key)) && At(t, s.mid, members.mid) && At(t, s.colon, ":") && At(t, s.gap, members.gap)
    requires s.mid == s.key + |StrText(members.key)| && s.colon == s.mid + |members.mid| && s.gap == s.colon + 1
    requires s.value == s.gap + |members.gap| < |t| && !IsWs(t[s.value])
    ensures s.key < |t| && t[s.key] == '"'
    ensures ScanMember(t, s.key, acc, decode) == ScanValue(t, s.value, decode(StrText(members.key)).value, acc)
  {
    hide At, StrText, ScanValue, SkipWs, StringEnd, WellFormed;
    StringSkipped(t, s.key, members.key);
    Slice(t, s.key, StrText(members.key));
    AtChar(t, s.colon, ":", 0);
    WsThen(t, s.mid, members.mid);
    WsThen(t, s.gap, members.gap);
  }

  lemma MemberScanned(t: string, j: nat, members: Members, acc: Sections, decode: string -> Option<string>)
    requires members.Member? && MembersWellFormed(members) && KeysDecode(members, decode)
    requires At(t, j, MembersText(members))
    requires SpotOf(j, members).end < |t| && (t[SpotOf(j, members).end] == ',' || t[SpotOf(j, members).end] == '}')
    ensures var s := SpotOf(j, members);
            && SkipWs(t, j) == s.key && s.key < |t| && t[s.key] == '"'
            && ScanMember(t, s.key, acc, decode).Ok?
            && SkipWs(t, ScanMember(t, s.key, acc, decode).value.0) == s.end
            && ScanMember(t, s.key, acc, decode).value.1 == Note(t, decode(StrText(members.key)).value, members.v, s.value, acc)
  {
    hide At, Text, StrText, MembersText, Note, WellFormed, ScanValue, ScanMember, SkipWs, ValueEnd;
    var s := MemberAt(t, j, members);
    FirstChar(t, s.value, members.v);
    KeyRead(t, members, s, acc, decode);
    WsThen(t, j, members.pre);
    ValueNoted(t, s.value, decode(StrText(members.key)).value, members.v, acc);
    WsThen(t, s.post, members.post);
    ValueThenWs(t, s.value, members.v);
  }

  lemma Slice(t: string, i: nat, s: string)
    requires At(t, i, s)
    ensures i + |s| <= |t| && t[i..i + |s|] == s
  {
  }

  lemma {:induction false} MembersScanned(t: string, j: nat, members: Members, acc: Sections, decode: string -> Option<string>)
    requires members.Member? && MembersWellFormed(members) && KeysDecode(members, decode)
    requires At(t, j, MembersText(members))
    requires j + |MembersText(members)| < |t| && t[j + |MembersText(members)|] == '}'
    ensures j <= |t| && ScanMembers(t, j, acc, decode) == Ok(NoteAll(t, j, members, acc, decode))
    decreases members
  {
    hide At, Text, StrText, MembersText, Note, WellFormed, ScanMember;
    var s := MemberAt(t, j, members);
    TailAt(t, s.end, members.rest);
    MemberScanned(t, j, members, acc, decode);
    if !members.rest.NoMember? {
      MembersScanned(t, s.end + 1, members.rest,
                     Note(t, decode(StrText(members.key)).value, members.v, s.value, acc), decode);
    }
  }

  lemma TailAt(t: string, i: nat, rest: Members)
    requires At(t, i, Tail(rest))
    ensures rest.NoMember? ==> Tail(rest) == ""
    ensures rest.Member? ==> i < |t| && t[i] == ',' && At(t, i + 1, MembersText(rest)) && |Tail(rest)| == 1 + |MembersText(rest)|
  {
    if rest.Member? {
      AtConcat(t, i, ",", MembersText(rest));
      AtChar(t, i, ",", 0);
    }
  }

  // ------------------------------------------------ whole snapshots

  /** For every rendering of an object, with any whitespace and whatever follows it, the scan
      records every member in turn. */
  lemma SnapshotScanned(t: string, lead: string, v: Json, decode: string -> Option<string>)
    requires v.JObj? && WellFormed(v) && AllWs(lead) && KeysDecode(v.members, decode)
    requires At(t, 0, lead + Text(v))
    ensures Scan(t, decode) == Ok(Some(NoteAll(t, |lead| + 1, v.members, NOTHING, decode)))
  {
    hide At, Text, MembersText, WellFormed, ScanMembers, SkipWs, NoteAll;
    AtConcat(t, 0, lead, Text(v));
    FirstChar(t, |lead|, v);
    WsThen(t, 0, lead);
    ObjectParts(t, |lead|, v);
    if v.members.NoMember? {
      WsThen(t, |lead| + 1, v.pad);
      NothingScanned(t, |lead| + 1, decode);
    } else {
      ObjectMembers(v);
      MembersScanned(t, |lead| + 1, v.members, NOTHING, decode);
    }
  }

  lemma ObjectMembers(v: Json)
    requires v.JObj? && WellFormed(v) && v.members.Member?
    ensures MembersWellFormed(v.members) && Inside(v) == MembersText(v.members)
  {
  }

  lemma NothingScanned(t: string, j: nat, decode: string -> Option<string>)
    requires SkipWs(t, j) < |t| && t[SkipWs(t, j)] == '}' && j <= |t|
    ensures ScanMembers(t, j, NOTHING, decode) == Ok(NoteAll(t, j, NoMember, NOTHING, decode))
  {
  }

  lemma ObjectParts(t: string, i: nat, v: Json)
    requires v.JObj? && WellFormed(v) && At(t, i, Text(v))
    ensures At(t, i + 1, Inside(v)) && AllWs(v.pad)
    ensures i + 1 + |Inside(v)| < |t| && t[i + 1 + |Inside(v)|] == '}'
  {
    AtConcat(t, i, "{" + Inside(v), "}");
    AtConcat(t, i, "{", Inside(v));
    AtChar(t, i + 1 + |Inside(v)|, "}", 0);
  }

  /** A member value and where its text stands. */
  datatype Found = Found(v: Json, at: nat)

  /** The last member named `k`: what a dictionary built from the object holds for it. */
  ghost function LastMember(j: nat, members: Members, k: string, decode: string -> Option<string>): Option<Found>
    requires KeysDecode(members, decode)
    decreases members
  {
    match members
    case NoMember => None
    case Member(_, key, _, _, v, _, rest) =>
      var s := SpotOf(j, members);
      var later := LastMember(s.end + 1, rest, k, decode);
      if later.Some? then later
      else if decode(StrText(key)).value == k then Some(Found(v, s.value))
      else None
  }

  /** The last member named `k` that is an array. */
  ghost function LastArray(j: nat, members: Members, k: string, decode: string -> Option<string>): Option<Found>
    requires KeysDecode(members, decode)
    decreases members
  {
    match members
    case NoMember => None
    case Member(_, key, _, _, v, _, rest) =>
      var s := SpotOf(j, members);
      var later := LastArray(s.end + 1, rest, k, decode);
      if later.Some? then later
      else if decode(StrText(key)).value == k && v.JArr? then Some(Found(v, s.value))
      else None
  }

  /** What is recorded for an array field: its length and its span. */
  datatype Field = Field(count: Option<nat>, span: Option<Span>)

  function FieldOf(r: Sections, k: string): Field {
    Field(if k in r.counts then Some(r.counts[k]) else None, if k in r.spans then Some(r.spans[k]) else None)
  }

  function ArrayField(found: Found): Field {
    Field(Some(if found.v.JArr? then Count(found.v.items) else 0), Some(Span(found.at, found.at + |Text(found.v)|)))
  }

  lemma NoteField(t: string, key: string, v: Json, at: nat, acc: Sections, k: string)
    requires k in STRUCTURAL
    ensures FieldOf(Note(t, key, v, at, acc), k) == if key == k && v.JArr? then ArrayField(Found(v, at)) else FieldOf(acc, k)
  {
    hide Text;
  }

  lemma {:induction false} ArrayNoted(t: string, j: nat, members: Members, acc: Sections, k: string, decode: string -> Option<string>)
    requires KeysDecode(members, decode) && k in STRUCTURAL
    ensures var a := LastArray(j, members, k, decode);
            FieldOf(NoteAll(t, j, members, acc, decode), k) == (if a.Some? then ArrayField(a.value) else FieldOf(acc, k))
            && (a.Some? ==> a.value.v.JArr?)
    decreases members
  {
    hide Text, StrText, Note, FieldOf, ArrayField;
    match members
    case NoMember =>
    case Member(_, key, _, _, v, _, rest) =>
      var s := SpotOf(j, members);
      NoteField(t, decode(StrText(key)).value, v, s.value, acc, k);
      ArrayNoted(t, s.end + 1, rest, Note(t, decode(StrText(key)).value, v, s.value, acc), k, decode);
  }

  /** Where a member is found, its text stands. */
  lemma {:induction false} FoundStands(t: string, j: nat, members: Members, k: string, decode: string -> Option<string>)
    requires MembersWellFormed(members) && KeysDecode(members, decode) && At(t, j, MembersText(members))
    ensures var a := LastArray(j, members, k, decode); a.Some? ==> At(t, a.value.at, Text(a.value.v))
    decreases members
  {
    hide At, Text, StrText, MembersText, WellFormed;
    if members.Member? {
      var s := MemberAt(t, j, members);
      TailAt(t, s.end, members.rest);
      if members.rest.Member? {
        FoundStands(t, s.end + 1, members.rest, k, decode);
      }
    }
  }

  /** The scan gives the true length and exactly the text of the array of every structural
      field, and no span for a field without an array. */
  lemma StructuralFieldScanned(t: string, lead: string, v: Json, k: string, decode: string -> Option<string>)
    requires v.JObj? && WellFormed(v) && AllWs(lead) && KeysDecode(v.members, decode) && k in STRUCTURAL
    requires At(t, 0, lead + Text(v))
    ensures Scan(t, decode).Ok? && Scan(t, decode).value.Some?
    ensures var r, a := Scan(t, decode).value.value, LastArray(|lead| + 1, v.members, k, decode);
            if a.Some? then
              && a.value.v.JArr? && k in r.counts && r.counts[k] == Count(a.value.v.items)
              && k in r.spans && r.spans[k].start <= r.spans[k].end <= |t|
              && t[r.spans[k].start..r.spans[k].end] == Text(a.value.v)
            else k !in r.counts && k !in r.spans
  {
    hide At, Text, MembersText, WellFormed, Scan, NoteAll, LastArray;
    SnapshotScanned(t, lead, v, decode);
    ArrayNoted(t, |lead| + 1, v.members, NOTHING, k, decode);
    AtConcat(t, 0, lead, Text(v));
    if v.members.Member? {
      ObjectMembers(v);
      ObjectParts(t, |lead|, v);
      FoundStands(t, |lead| + 1, v.members, k, decode);
      var a := LastArray(|lead| + 1, v.members, k, decode);
      if a.Some? { Slice(t, a.value.at, Text(a.value.v)); }
    } else {
      NoArray(|lead| + 1, k, decode);
    }
  }

  lemma NoArray(j: nat, k: string, decode: string -> Option<string>)
    ensures LastArray(j, NoMember, k, decode) == None
  {
  }

  // ------------------------------------------------ against the full parse

  /** Python values, as far as the comparison needs them. */
  datatype PyValue =
    | PyList(items: seq<PyValue>)
    | PyDict(entries: map<string, PyValue>)
    | PyStr(text: string)
    | PyOther(token: string)

  /** `_load_span` */
  function LoadSpan(r: Sections, t: string, k: string, loads: string -> PyValue): (value: PyValue)
    ensures value.PyList?
  {
    if k in r.spans && r.spans[k].start <= r.spans[k].end <= |t| then
      var value := loads(t[r.spans[k].start..r.spans[k].end]);
      if value.PyList? then value else PyList([])
    else PyList([])
  }

  /** `graph.get(k, [])` after a full parse: the parser is compositional, so the value is
      that of the text of the last member named `k`. */
  ghost function FullGet(j: nat, members: Members, k: string, decode: string -> Option<string>, loads: string -> PyValue): PyValue
    requires KeysDecode(members, decode)
  {
    match LastMember(j, members, k, decode)
    case None => PyList([])
    case Some(found) => loads(Text(found.v))
  }

  /** The parser gives a list exactly for arrays, for every member value of the object. */
  ghost predicate ListsAreArrays(members: Members, loads: string -> PyValue) {
    match members
    case NoMember => true
    case Member(_, _, _, _, v, _, rest) => (loads(Text(v)).PyList? <==> v.JArr?) && ListsAreArrays(rest, loads)
  }

  lemma {:induction false} LastMemberIsLastArray(j: nat, members: Members, k: string, decode: string -> Option<string>,
                                                 loads: string -> PyValue)
    requires KeysDecode(members, decode) && ListsAreArrays(members, loads)
    ensures var m, a := LastMember(j, members, k, decode), LastArray(j, members, k, decode);
            && (m.None? ==> a.None?) && (m.Some? && m.value.v.JArr? ==> a == m)
            && (m.Some? ==> (loads(Text(m.value.v)).PyList? <==> m.value.v.JArr?))
            && (a.Some? ==> a.value.v.JArr? && loads(Text(a.value.v)).PyList?)
    decreases members
  {
    hide Text, StrText;
    match members
    case NoMember =>
    case Member(_, _, _, _, _, _, rest) =>
      LastMemberIsLastArray(SpotOf(j, members).end + 1, rest, k, decode, loads);
  }

  /** The fast path gives the same list as the full parse exactly if the field is absent or
      the last member of that name is an array. */
  lemma FastPathAgrees(t: string, lead: string, v: Json, k: string, decode: string -> Option<string>, loads: string -> PyValue)
    requires v.JObj? && WellFormed(v) && AllWs(lead) && KeysDecode(v.members, decode) && k in STRUCTURAL
    requires At(t, 0, lead + Text(v)) && ListsAreArrays(v.members, loads)
    ensures Scan(t, decode).Ok? && Scan(t, decode).value.Some?
    ensures var m := LastMember(|lead| + 1, v.members, k, decode);
            (LoadSpan(Scan(t, decode).value.value, t, k, loads) == FullGet(|lead| + 1, v.members, k, decode, loads))
            <==> (m.None? || m.value.v.JArr?)
  {
    hide At, Text, WellFormed, Scan, LastMember, LastArray;
    StructuralFieldScanned(t, lead, v, k, decode);
    LastMemberIsLastArray(|lead| + 1, v.members, k, decode, loads);
  }

  function CallsMember(v: Json, rest: Members): Members {
    Member("", CALLS, "", "", v, "", rest)
  }

  /** `{"calls":{}}` and `{"calls":[],"calls":{}}` */
  const OBJECT_CALLS := JObj("", CallsMember(JObj("", NoMember), NoMember))
  const ARRAY_THEN_OBJECT := JObj("", CallsMember(JArr("", NoItem), CallsMember(JObj("", NoMember), NoMember)))

  const CALLS: seq<StrChar> := [Plain('c'), Plain('a'), Plain('l'), Plain('l'), Plain('s')]

  lemma CallsKey()
    ensures StrText(CALLS) == "\"calls\""
  {
    assert BodyText(CALLS[5..]) == "" && BodyText(CALLS[4..]) == "s" && BodyText(CALLS[3..]) == "ls";
    assert BodyText(CALLS[2..]) == "lls" && BodyText(CALLS[1..]) == "alls";
  }

  lemma CallsMemberText(v: Json, rest: Members)
    ensures MembersText(CallsMember(v, rest)) == "\"calls\":" + Text(v) + Tail(rest)
  {
    hide StrText, Text, Tail;
    CallsKey();
    var tail := Text(v) + ("" + Tail(rest));
    assert MembersText(CallsMember(v, rest)) == "" + (StrText(CALLS) + ("" + (":" + ("" + tail))));
    assert StrText(CALLS) + ":" == "\"calls\":";
  }

  lemma CallsText()
    ensures StrText(CALLS) == "\"calls\""
    ensures Text(OBJECT_CALLS) == "{\"calls\":{}}" && Text(ARRAY_THEN_OBJECT) == "{\"calls\":[],\"calls\":{}}"
    ensures WellFormed(OBJECT_CALLS) && WellFormed(ARRAY_THEN_OBJECT)
  {
    hide StrText, MembersText;
    CallsKey();
    var last := CallsMember(JObj("", NoMember), NoMember);
    CallsMemberText(JObj("", NoMember), NoMember);
    CallsMemberText(JArr("", NoItem), last);
    assert MembersText(last) == "\"calls\":{}";
  }

  /** For both texts the fast path gives an empty list, and the full parse the object. */
  lemma FastPathDiffers(decode: string -> Option<string>, loads: string -> PyValue, v: Json)
    requires decode("\"calls\"") == Some("calls") && v in {OBJECT_CALLS, ARRAY_THEN_OBJECT}
    requires KeysDecode(v.members, decode) && ListsAreArrays(v.members, loads)
    ensures Scan(Text(v), decode).Ok? && Scan(Text(v), decode).value.Some?
    ensures LoadSpan(Scan(Text(v), decode).value.value, Text(v), "calls", loads) != FullGet(1, v.members, "calls", decode, loads)
  {
    hide At, Text, WellFormed, Scan, StrText, LoadSpan, FullGet;
    CallsText();
    WholeText(Text(v));
    FastPathAgrees(Text(v), "", v, "calls", decode, loads);
  }

  lemma WholeText(t: string)
    ensures At(t, 0, "" + t)
  {
  }
}
