/** `_source_file_meta`: the walk over the `source_files` array, and when it ends. */
module SourceMeta {
  import opened Wrappers
  import opened JsonSkipper
  import opened JsonText
  import opened SnapshotScan
  import opened SnapshotTheorems

  const META_KEYS := {"path", "relative_path", "file_name", "language", "sha256"}

  /** The recorded fields of one file: where the text of each value stands. */
  type Entry = map<string, Span>

  // ------------------------------------------------ one item

  /** The value at `at` of a member named `key`, and the comma behind it. */
  function MetaValue(t: string, at: nat, key: string, entry: Entry): (r: Result<(nat, Entry), Error>)
    ensures r.Ok? ==> at <= r.value.0 <= |t|
  {
    var end := ValueEnd(t, at);
    if end.Err? then Err(end.error)
    else
      var next := SkipWs(t, end.value);
      Ok((if next < |t| && t[next] == ',' then next + 1 else next,
          if key in META_KEYS then entry[key := Span(at, end.value)] else entry))
  }

  /** One member whose key starts at `i`, and the comma behind it. */
  function MetaMember(t: string, i: nat, entry: Entry, decode: string -> Option<string>): (r: Result<(nat, Entry), Error>)
    requires i < |t|
    ensures r.Ok? ==> i < r.value.0 <= |t|
  {
    if t[i] != '"' then Err(ValueError)
    else
      var keyEnd := StringEnd(t, i + 1);
      if keyEnd.Err? then Err(keyEnd.error)
      else
        var key := decode(t[i..keyEnd.value]);
        var colon := SkipWs(t, keyEnd.value);
        if key.None? || colon >= |t| || t[colon] != ':' then Err(ValueError)
        else MetaValue(t, SkipWs(t, colon + 1), key.value, entry)
  }

  /** The loop over the members of one object, up to its closing brace. */
  function MetaMembers(t: string, i: nat, entry: Entry, decode: string -> Option<string>): (r: Result<(nat, Entry), Error>)
    requires i <= |t|
    ensures r.Ok? ==> i <= r.value.0 <= |t|
    decreases |t| - i
  {
    if i >= |t| || t[i] == '}' then Ok((i, entry))
    else
      var j := SkipWs(t, i);
      if j >= |t| then Err(IndexError)
      else if t[j] == ',' then MetaMembers(t, j + 1, entry, decode)
      else
        var m := MetaMember(t, j, entry, decode);
        if m.Err? then Err(m.error) else MetaMembers(t, m.value.0, m.value.1, decode)
  }

  // ------------------------------------------------ one turn of the outer loop

  datatype Walk = Walking(at: nat, entries: seq<Entry>) | Returned(entries: seq<Entry>) | Raised(error: Error)

  function Turn(t: string, w: Walk, decode: string -> Option<string>): Walk {
    if !w.Walking? then w
    else if w.at >= |t| || t[w.at] == ']' then Returned(w.entries)
    else
      var i := SkipWs(t, w.at);
      if i >= |t| then Raised(IndexError)
      else if t[i] != '{' then
        var end := ValueEnd(t, i);
        if end.Err? then Raised(end.error) else Walking(end.value, w.entries)
      else
        var m := MetaMembers(t, SkipWs(t, i + 1), map[], decode);
        if m.Err? then Raised(m.error)
        else
          var next := SkipWs(t, m.value.0 + 1);
          Walking(if next < |t| && t[next] == ',' then next + 1 else next, w.entries + [m.value.1])
  }

  function Turns(t: string, w: Walk, decode: string -> Option<string>, n: nat): Walk {
    if n == 0 then w else Turn(t, Turns(t, w, decode, n - 1), decode)
  }

  /** Where the walk over the array at `start` begins. */
  function Begin(t: string, start: nat): Walk {
    var i := SkipWs(t, start + 1);
    if i >= |t| || t[i] == ']' then Returned([]) else Walking(i, [])
  }

  method MetaItem(t: string, start: nat, decode: string -> Option<string>) returns (r: Result<(nat, Entry), Error>)
    requires start <= |t|
    ensures r == MetaMembers(t, start, map[], decode)
  {
    hide MetaMember;
    var i, entry: Entry := start, map[];
    while i < |t| && t[i] != '}'
      invariant i <= |t| && MetaMembers(t, i, entry, decode) == MetaMembers(t, start, map[], decode)
      decreases |t| - i
    {
      i := SkipWhitespace(t, i);
      if i >= |t| { return Err(IndexError); }
      if t[i] == ',' {
        i := i + 1;
        continue;
      }
      var m := MetaField(t, i, entry, decode);
      if m.Err? { return Err(m.error); }
      i, entry := m.value.0, m.value.1;
    }
    r := Ok((i, entry));
  }

  method MetaField(t: string, start: nat, entry: Entry, decode: string -> Option<string>) returns (r: Result<(nat, Entry), Error>)
    requires start < |t|
    ensures r == MetaMember(t, start, entry, decode)
  {
    hide SkipWs, StringEnd, ValueEnd;
    if t[start] != '"' { return Err(ValueError); }
    var keyEnd := SkipString(t, start);
    if keyEnd.Err? { return Err(keyEnd.error); }
    var key := decode(t[start..keyEnd.value]);
    if key.None? { return Err(ValueError); }
    var i := SkipWhitespace(t, keyEnd.value);
    if i >= |t| || t[i] != ':' { return Err(ValueError); }
    var at := SkipWhitespace(t, i + 1);
    var end := SkipValue(t, at);
    if end.Err? { return Err(end.error); }
    var entry' := entry;
    if key.value in META_KEYS {
      entry' := entry[key.value := Span(at, end.value)];
    }
    i := SkipWhitespace(t, end.value);
    if i < |t| && t[i] == ',' {
      i := i + 1;
    }
    r := Ok((i, entry'));
  }

  /** One turn of the outer loop. */
  method WalkOn(t: string, at: nat, entries: seq<Entry>, decode: string -> Option<string>) returns (w: Walk)
    requires at < |t| && t[at] != ']'
    ensures w == Turn(t, Walking(at, entries), decode)
  {
    hide MetaMembers;
    var i := SkipWhitespace(t, at);
    if i >= |t| { return Raised(IndexError); }
    if t[i] != '{' {
      var end := SkipValue(t, i);
      if end.Err? { return Raised(end.error); }
      return Walking(end.value, entries);
    }
    i := SkipWhitespace(t, i + 1);
    var m := MetaItem(t, i, decode);
    if m.Err? { return Raised(m.error); }
    i := SkipWhitespace(t, m.value.0 + 1);
    if i < |t| && t[i] == ',' {
      i := i + 1;
    }
    w := Walking(i, entries + [m.value.1]);
  }

  // ------------------------------------------------ members of an object

  /** The fields of all members in turn, the first one at `j`; a later member of the same name wins. */
  ghost function EntryOf(t: string, j: nat, members: Members, entry: Entry, decode: string -> Option<string>): Entry
    requires KeysDecode(members, decode)
    decreases members
  {
    match members
    case NoMember => entry
    case Member(_, key, _, _, _, _, rest) =>
      EntryOf(t, SpotOf(j, members).end + 1, rest, EntryWith(t, j, members, entry, decode), decode)
  }

  ghost function EntryWith(t: string, j: nat, members: Members, entry: Entry, decode: string -> Option<string>): Entry
    requires members.Member? && KeysDecode(members, decode)
  {
    var s := SpotOf(j, members);
    var key := decode(StrText(members.key)).value;
    if key in {"path", "relative_path", "file_name", "language", "sha256"} && ValueEnd(t, s.value).Ok? then
      entry[key := Span(s.value, ValueEnd(t, s.value).value)]
    else entry
  }

  /** From the quote of the key to the value. */
  lemma MetaKeyRead(t: string, members: Members, s: Spot, entry: Entry, decode: string -> Option<string>)
    requires members.Member? && MembersWellFormed(members) && decode(StrText(members.key)).Some?
    requires At(t, s.key, StrText(members.key)) && At(t, s.mid, members.mid) && At(t, s.colon, ":") && At(t, s.gap, members.gap)
    requires s.mid == s.key + |StrText(members.key)| && s.colon == s.mid + |members.mid| && s.gap == s.colon + 1
    requires s.value == s.gap + |members.gap| < |t| && !IsWs(t[s.value])
    ensures s.key < |t| && t[s.key] == '"'
    ensures MetaMember(t, s.key, entry, decode) == MetaValue(t, s.value, decode(StrText(members.key)).value, entry)
  {
    hide At, StrText, MetaValue, SkipWs, StringEnd, WellFormed;
    StringSkipped(t, s.key, members.key);
    Slice(t, s.key, StrText(members.key));
    AtChar(t, s.colon, ":", 0);
    WsThen(t, s.mid, members.mid);
    WsThen(t, s.gap, members.gap);
  }

  lemma MemberPlaces(t: string, j: nat, members: Members)
    requires members.Member? && MembersWellFormed(members) && At(t, j, MembersText(members))
    requires SpotOf(j, members).end < |t| && (t[SpotOf(j, members).end] == ',' || t[SpotOf(j, members).end] == '}')
    ensures var s := SpotOf(j, members);
            && SkipWs(t, j) == s.key && s.value < |t| && !IsWs(t[s.value])
            && ValueEnd(t, s.value).Ok? && SkipWs(t, ValueEnd(t, s.value).value) == s.end
  {
    hide At, Text, StrText, MembersText, WellFormed, SkipWs, ValueEnd, SpotOf;
    var s := MemberAt(t, j, members);
    SpotSums(j, members);
    FirstChar(t, s.value, members.v);
    StringSkipped(t, s.key, members.key);
    WsThen(t, j, members.pre);
    WsThen(t, s.post, members.post);
    ValueThenWs(t, s.value, members.v);
  }

  lemma SpotSums(j: nat, members: Members)
    requires members.Member?
    ensures var s := SpotOf(j, members);
            && s.key == j + |members.pre| && s.mid == s.key + |StrText(members.key)| && s.colon == s.mid + |members.mid|
            && s.gap == s.colon + 1 && s.value == s.gap + |members.gap| && s.post == s.value + |Text(members.v)|
            && s.end == s.post + |members.post|
  {
  }

  lemma MetaValueRead(t: string, at: nat, end: nat, key: string, entry: Entry)
    requires ValueEnd(t, at).Ok? && SkipWs(t, ValueEnd(t, at).value) == end < |t|
    ensures MetaValue(t, at, key, entry) ==
            Ok((if t[end] == ',' then end + 1 else end,
                if key in META_KEYS then entry[key := Span(at, ValueEnd(t, at).value)] else entry))
  {
  }

  lemma MetaMemberRead(t: string, j: nat, members: Members, entry: Entry, decode: string -> Option<string>)
    requires members.Member? && MembersWellFormed(members) && KeysDecode(members, decode)
    requires At(t, j, MembersText(members))
    requires SpotOf(j, members).end < |t| && (t[SpotOf(j, members).end] == ',' || t[SpotOf(j, members).end] == '}')
    ensures var s := SpotOf(j, members);
            && SkipWs(t, j) == s.key && s.key < |t| && t[s.key] == '"'
            && MetaMember(t, s.key, entry, decode) ==
               Ok((if t[s.end] == ',' then s.end + 1 else s.end, EntryWith(t, j, members, entry, decode)))
  {
    hide At, Text, StrText, MembersText, WellFormed, SkipWs, ValueEnd, MetaMember, MetaValue, SpotOf;
    var s := MemberAt(t, j, members);
    SpotSums(j, members);
    MemberPlaces(t, j, members);
    MetaKeyRead(t, members, s, entry, decode);
    MetaValueRead(t, s.value, s.end, decode(StrText(members.key)).value, entry);
  }

  lemma MetaMembersStep(t: string, i: nat, entry: Entry, decode: string -> Option<string>)
    requires i < |t| && t[i] == '"' && MetaMember(t, i, entry, decode).Ok?
    ensures MetaMembers(t, i, entry, decode) ==
            MetaMembers(t, MetaMember(t, i, entry, decode).value.0, MetaMember(t, i, entry, decode).value.1, decode)
  {
    hide MetaMember;
    assert SkipWs(t, i) == i;
  }

  lemma MetaMembersEnd(t: string, i: nat, entry: Entry, decode: string -> Option<string>)
    requires i < |t| && t[i] == '}'
    ensures MetaMembers(t, i, entry, decode) == Ok((i, entry))
  {
  }

  lemma {:induction false} MetaMembersRead(t: string, j: nat, members: Members, entry: Entry, decode: string -> Option<string>)
    requires members.Member? && MembersWellFormed(members) && KeysDecode(members, decode)
    requires At(t, j, MembersText(members))
    requires j + |MembersText(members)| < |t| && t[j + |MembersText(members)|] == '}'
    ensures SkipWs(t, j) <= |t| && j <= |t|
    ensures MetaMembers(t, SkipWs(t, j), entry, decode) == Ok((j + |MembersText(members)|, EntryOf(t, j, members, entry, decode)))
    decreases members
  {
    hide At, Text, StrText, MembersText, WellFormed, MetaMember, EntryWith, MetaMembers, SkipWs;
    var s := MemberAt(t, j, members);
    TailAt(t, s.end, members.rest);
    MetaMemberRead(t, j, members, entry, decode);
    MetaMembersStep(t, s.key, entry, decode);
    if members.rest.NoMember? {
      MetaMembersEnd(t, s.end, EntryWith(t, j, members, entry, decode), decode);
    } else {
      var entry' := EntryWith(t, j, members, entry, decode);
      MetaMembersRead(t, s.end + 1, members.rest, entry', decode);
      KeyAhead(t, s.end + 1, members.rest);
      FromKey(t, s.end + 1, entry', decode);
    }
  }

  lemma KeyAhead(t: string, j: nat, members: Members)
    requires members.Member? && MembersWellFormed(members) && At(t, j, MembersText(members))
    ensures SkipWs(t, j) < |t| && t[SkipWs(t, j)] == '"'
  {
    hide At, Text, StrText, MembersText, WellFormed;
    var s := MemberAt(t, j, members);
    StringSkipped(t, s.key, members.key);
    WsThen(t, j, members.pre);
  }

  /** Whitespace before a key does not matter. */
  lemma FromKey(t: string, i: nat, entry: Entry, decode: string -> Option<string>)
    requires i <= |t| && SkipWs(t, i) < |t| && t[SkipWs(t, i)] == '"'
    ensures MetaMembers(t, i, entry, decode) == MetaMembers(t, SkipWs(t, i), entry, decode)
  {
    hide MetaMember;
    SkipTwice(t, i);
  }

  // ------------------------------------------------ turns over a well-formed array

  ghost predicate ItemKeysDecode(items: Items, decode: string -> Option<string>) {
    match items
    case NoItem => true
    case Item(_, v, _, rest) => (v.JObj? ==> KeysDecode(v.members, decode)) && ItemKeysDecode(rest, decode)
  }

  function ItemEnd(i: nat, items: Items): nat
    requires items.Item?
  {
    i + |items.pre| + |Text(items.v)| + |items.post|
  }

  /** What is recorded for one object. */
  ghost function ObjectEntry(t: string, i: nat, v: Json, decode: string -> Option<string>): Entry
    requires v.JObj? && KeysDecode(v.members, decode)
  {
    EntryOf(t, i + 1, v.members, map[], decode)
  }

  lemma ObjectRead(t: string, i: nat, v: Json, decode: string -> Option<string>)
    requires v.JObj? && WellFormed(v) && KeysDecode(v.members, decode) && At(t, i, Text(v))
    ensures i + |Text(v)| <= |t| && i + 1 <= |t|
    ensures MetaMembers(t, SkipWs(t, i + 1), map[], decode) == Ok((i + |Text(v)| - 1, ObjectEntry(t, i, v, decode)))
  {
    hide At, MembersText, WellFormed, SkipWs;
    ObjectParts(t, i, v);
    Slice(t, i, Text(v));
    if v.members.NoMember? {
      WsThen(t, i + 1, v.pad);
    } else {
      ObjectMembers(v);
      MetaMembersRead(t, i + 1, v.members, map[], decode);
    }
  }

  lemma ObjectTurn(t: string, i: nat, items: Items, entries: seq<Entry>, decode: string -> Option<string>)
    requires items.Item? && ItemsWellFormed(items) && ItemKeysDecode(items, decode) && At(t, i, ItemsText(items)) && items.v.JObj?
    requires i + |ItemsText(items)| < |t| && t[i + |ItemsText(items)|] == ']'
    ensures Turn(t, Walking(i, entries), decode) ==
            Walking(if items.rest.NoItem? then ItemEnd(i, items) else ItemEnd(i, items) + 1,
                    entries + [ObjectEntry(t, i + |items.pre|, items.v, decode)])
  {
    hide At, Text, ItemsText, WellFormed, SkipWs, ValueEnd, MetaMembers, ObjectEntry, KeysDecode, Turn;
    var at := i + |items.pre|;
    ItemParts(t, i, items);
    FirstChar(t, at, items.v);
    ElementEnds(t, i, items.pre, items.v, items.post);
    NotClosing(t, i);
    ObjectRead(t, at, items.v, decode);
    ObjectNext(t, i, at, at + |Text(items.v)| - 1, entries, ObjectEntry(t, at, items.v, decode), decode);
    WsThen(t, at + |Text(items.v)|, items.post);
  }

  /** Reading on behind an object. */
  lemma ObjectNext(t: string, i: nat, at: nat, end: nat, entries: seq<Entry>, entry: Entry, decode: string -> Option<string>)
    requires i < |t| && t[i] != ']' && SkipWs(t, i) == at < |t| && t[at] == '{'
    requires SkipWs(t, at + 1) <= |t| && MetaMembers(t, SkipWs(t, at + 1), map[], decode) == Ok((end, entry))
    ensures Turn(t, Walking(i, entries), decode) ==
            var next := SkipWs(t, end + 1);
            Walking(if next < |t| && t[next] == ',' then next + 1 else next, entries + [entry])
  {
    hide MetaMembers, SkipWs, ValueEnd;
  }

  lemma NotClosing(t: string, i: nat)
    requires i < |t| && SkipWs(t, i) < |t| && !Closes(t[SkipWs(t, i)])
    ensures t[i] != ']'
  {
  }

  lemma OtherTurn(t: string, i: nat, items: Items, entries: seq<Entry>, decode: string -> Option<string>)
    requires items.Item? && ItemsWellFormed(items) && At(t, i, ItemsText(items)) && !items.v.JObj?
    requires i + |ItemsText(items)| < |t| && t[i + |ItemsText(items)|] == ']'
    ensures var w := Turn(t, Walking(i, entries), decode);
            w.Walking? && w.entries == entries && w.at <= |t| && SkipWs(t, w.at) == ItemEnd(i, items)
  {
    hide At, Text, ItemsText, WellFormed, SkipWs, ValueEnd, MetaMembers;
    ItemParts(t, i, items);
    FirstChar(t, i + |items.pre|, items.v);
    ElementEnds(t, i, items.pre, items.v, items.post);
    NotClosing(t, i);
  }

  // ------------------------------------------------ runs of turns

  ghost predicate EndsWith(t: string, w: Walk, decode: string -> Option<string>, entries: seq<Entry>) {
    exists n :: Turns(t, w, decode, n) == Returned(entries)
  }

  ghost predicate NeverEnds(t: string, w: Walk, decode: string -> Option<string>) {
    forall n :: Turns(t, w, decode, n).Walking?
  }

  lemma {:induction false} TurnFirst(t: string, w: Walk, decode: string -> Option<string>, n: nat)
    ensures Turns(t, w, decode, n + 1) == Turns(t, Turn(t, w, decode), decode, n)
  {
    hide Turn;
    if n > 0 {
      TurnFirst(t, w, decode, n - 1);
    }
  }

  lemma EndsAfterTurn(t: string, w: Walk, decode: string -> Option<string>, entries: seq<Entry>)
    requires EndsWith(t, Turn(t, w, decode), decode, entries)
    ensures EndsWith(t, w, decode, entries)
  {
    hide Turn;
    var n :| Turns(t, Turn(t, w, decode), decode, n) == Returned(entries);
    TurnFirst(t, w, decode, n);
  }

  lemma NeverEndsAfterTurn(t: string, w: Walk, decode: string -> Option<string>)
    requires w.Walking? && NeverEnds(t, Turn(t, w, decode), decode)
    ensures NeverEnds(t, w, decode)
  {
    hide Turn;
    forall n: nat ensures Turns(t, w, decode, n).Walking? {
      if n > 0 {
        TurnFirst(t, w, decode, n - 1);
      }
    }
  }

  lemma {:induction false} StuckNeverEnds(t: string, w: Walk, decode: string -> Option<string>, n: nat)
    requires w.Walking? && Turn(t, w, decode) == w
    ensures Turns(t, w, decode, n) == w
  {
    hide Turn;
    if n > 0 {
      StuckNeverEnds(t, w, decode, n - 1);
    }
  }

  /** At the closing bracket, possibly behind whitespace, the walk ends within two turns. */
  lemma ClosingEnds(t: string, w: Walk, decode: string -> Option<string>)
    requires w.Walking? && w.at <= |t| && SkipWs(t, w.at) < |t| && t[SkipWs(t, w.at)] == ']'
    ensures EndsWith(t, w, decode, w.entries)
  {
    hide MetaMembers;
    var k := SkipWs(t, w.at);
    var closed := Walking(k, w.entries);
    assert Turns(t, closed, decode, 0) == closed;
    assert Turns(t, closed, decode, 1) == Returned(w.entries);
    if w.at != k && t[w.at] != ']' {
      assert Turn(t, w, decode) == closed;
      EndsAfterTurn(t, w, decode, w.entries);
    } else {
      assert Turns(t, w, decode, 0) == w;
      assert Turns(t, w, decode, 1) == Returned(w.entries);
    }
  }

  /** At a comma the walk stands still: skipping the "value" there skips nothing. */
  lemma CommaNeverEnds(t: string, w: Walk, decode: string -> Option<string>)
    requires w.Walking? && w.at <= |t| && SkipWs(t, w.at) < |t| && t[SkipWs(t, w.at)] == ','
    ensures NeverEnds(t, w, decode)
  {
    hide MetaMembers;
    var k := SkipWs(t, w.at);
    var stuck := Walking(k, w.entries);
    SkipTwice(t, w.at);
    assert Turn(t, stuck, decode) == stuck;
    forall n: nat ensures Turns(t, stuck, decode, n).Walking? {
      StuckNeverEnds(t, stuck, decode, n);
    }
    assert Turn(t, w, decode) == stuck;
    NeverEndsAfterTurn(t, w, decode);
  }

  /** Every element that a comma follows is an object. */
  predicate ObjectsBeforeCommas(items: Items) {
    match items
    case NoItem => true
    case Item(_, v, _, rest) => rest.NoItem? || (v.JObj? && ObjectsBeforeCommas(rest))
  }

  /** The entries of the objects, in order. */
  ghost function EntriesOf(t: string, i: nat, items: Items, decode: string -> Option<string>): seq<Entry>
    requires ItemKeysDecode(items, decode)
    decreases items
  {
    match items
    case NoItem => []
    case Item(pre, v, _, rest) =>
      (if v.JObj? then [ObjectEntry(t, i + |pre|, v, decode)] else []) + EntriesOf(t, ItemEnd(i, items) + 1, rest, decode)
  }

  lemma {:induction false} ItemsWalked(t: string, i: nat, items: Items, entries: seq<Entry>, decode: string -> Option<string>)
    requires items.Item? && ItemsWellFormed(items) && ItemKeysDecode(items, decode) && At(t, i, ItemsText(items))
    requires i + |ItemsText(items)| < |t| && t[i + |ItemsText(items)|] == ']'
    ensures ObjectsBeforeCommas(items) ==> EndsWith(t, Walking(i, entries), decode, entries + EntriesOf(t, i, items, decode))
    ensures !ObjectsBeforeCommas(items) ==> NeverEnds(t, Walking(i, entries), decode)
    decreases items
  {
    hide At, Text, ItemsText, WellFormed, Turn, EndsWith, NeverEnds, ObjectEntry, SkipWs;
    var w, k := Walking(i, entries), ItemEnd(i, items);
    var next := Turn(t, w, decode);
    ItemParts(t, i, items);
    if items.v.JObj? {
      ObjectTurn(t, i, items, entries, decode);
      if items.rest.NoItem? {
        NoWs(t, k);
        ClosingEnds(t, next, decode);
      } else {
        ItemsWalked(t, k + 1, items.rest, next.entries, decode);
        assert entries + EntriesOf(t, i, items, decode) == next.entries + EntriesOf(t, k + 1, items.rest, decode);
      }
    } else {
      OtherTurn(t, i, items, entries, decode);
      if items.rest.NoItem? {
        ClosingEnds(t, next, decode);
      } else {
        CommaNeverEnds(t, next, decode);
      }
    }
    if ObjectsBeforeCommas(items) {
      assert items.rest.NoItem? ==> entries + EntriesOf(t, i, items, decode) == next.entries;
      EndsAfterTurn(t, w, decode, entries + EntriesOf(t, i, items, decode));
    } else {
      NeverEndsAfterTurn(t, w, decode);
    }
  }

  lemma NoWs(t: string, k: nat)
    requires k < |t| && !IsWs(t[k])
    ensures SkipWs(t, k) == k
  {
  }

  lemma FromFirst(t: string, i: nat, entries: seq<Entry>, decode: string -> Option<string>)
    requires i < |t| && SkipWs(t, i) < |t| && t[SkipWs(t, i)] != ']'
    ensures Turn(t, Walking(SkipWs(t, i), entries), decode) == Turn(t, Walking(i, entries), decode)
  {
    hide MetaMembers, ValueEnd;
    SkipTwice(t, i);
  }

  /** The walk over a `source_files` array ends exactly if every element that a comma follows is an object;
      it then returns the recorded fields of all objects, in order. */
  lemma WalkEndsIff(t: string, start: nat, v: Json, decode: string -> Option<string>)
    requires v.JArr? && WellFormed(v) && ItemKeysDecode(v.items, decode) && At(t, start, Text(v))
    ensures ObjectsBeforeCommas(v.items) ==> EndsWith(t, Begin(t, start), decode, EntriesOf(t, start + 1, v.items, decode))
    ensures !ObjectsBeforeCommas(v.items) ==> NeverEnds(t, Begin(t, start), decode)
  {
    hide At, Text, ItemsText, Turn, EndsWith, NeverEnds, SkipWs;
    ArrayParts(t, start, v);
    if v.items.NoItem? {
      WsThen(t, start + 1, v.pad);
      ReturnedEnds(t, [], decode);
    } else {
      FirstOfItems(t, start + 1, v.items);
      ItemsWalked(t, start + 1, v.items, [], decode);
      BeginIsFirst(t, start, decode);
      assert [] + EntriesOf(t, start + 1, v.items, decode) == EntriesOf(t, start + 1, v.items, decode);
    }
  }

  /** A number and an empty object. */
  const NUMBER_FIRST := JArr("", Item("", JScalar("1"), "", Item("", JObj("", NoMember), "", NoItem)))

  /** The walk over `[1,{}]` never ends. */
  lemma NumberFirstNeverEnds(decode: string -> Option<string>)
    ensures WellFormed(NUMBER_FIRST) && Text(NUMBER_FIRST) == "[1,{}]"
    ensures NeverEnds("[1,{}]", Begin("[1,{}]", 0), decode)
  {
    hide NeverEnds, EndsWith, Begin, Turn;
    var t := "[1,{}]";
    assert ItemsText(NUMBER_FIRST.items.rest) == "{}";
    assert ItemsText(NUMBER_FIRST.items) == "1,{}";
    WalkEndsIff(t, 0, NUMBER_FIRST, decode);
  }

  lemma ReturnedEnds(t: string, entries: seq<Entry>, decode: string -> Option<string>)
    ensures EndsWith(t, Returned(entries), decode, entries)
  {
    assert Turns(t, Returned(entries), decode, 0) == Returned(entries);
  }

  lemma BeginIsFirst(t: string, start: nat, decode: string -> Option<string>)
    requires start + 1 < |t| && SkipWs(t, start + 1) < |t| && t[SkipWs(t, start + 1)] != ']'
    ensures NeverEnds(t, Walking(start + 1, []), decode) ==> NeverEnds(t, Begin(t, start), decode)
    ensures forall entries :: EndsWith(t, Walking(start + 1, []), decode, entries) ==> EndsWith(t, Begin(t, start), decode, entries)
  {
    hide Turn, SkipWs;
    var a, b := Walking(start + 1, []), Begin(t, start);
    FromFirst(t, start + 1, [], decode);
    forall n | n > 0 ensures Turns(t, a, decode, n) == Turns(t, b, decode, n) {
      TurnFirst(t, a, decode, n - 1);
      TurnFirst(t, b, decode, n - 1);
    }
    forall entries | EndsWith(t, a, decode, entries) ensures EndsWith(t, b, decode, entries) {
      var n :| Turns(t, a, decode, n) == Returned(entries);
      assert n > 0;
      assert Turns(t, b, decode, n) == Returned(entries);
    }
    if NeverEnds(t, a, decode) {
      forall n: nat ensures Turns(t, b, decode, n).Walking? {
        assert Turns(t, a, decode, n).Walking?;
      }
    }
  }
}
