/** The record of one run: read from the spans of the scan, or from the fully parsed snapshot. */
module SnapshotRecord {
  import opened Wrappers
  import opened JsonText
  import opened SnapshotScan
  import opened SnapshotTheorems

  type Record = map<string, PyValue>

  const NONE := PyOther("null")

  function Get(record: Record, key: string): PyValue {
    if key in record then record[key] else NONE
  }

  datatype Source = Source(file: PyValue, startLine: PyValue, endLine: PyValue, text: string)

  /** `fn["source"]` is a non-empty string. */
  predicate HasSource(record: Record) {
    Get(record, "source").PyStr? && Get(record, "source").text != ""
  }

  function SourceOf(record: Record): Source
    requires HasSource(record)
  {
    Source(Get(record, "file"), Get(record, "start_line"), Get(record, "end_line"), Get(record, "source").text)
  }

  /** The functions that are dictionaries, without their sources. */
  function Functions(items: seq<PyValue>): seq<Record> {
    if items == [] then []
    else
      var init, last := Functions(items[..|items| - 1]), items[|items| - 1];
      if last.PyDict? then init + [last.entries - {"source"}] else init
  }

  /** The sources of the functions by id, a later one in place of an earlier one. */
  function Embedded(items: seq<PyValue>, str: PyValue -> string): map<string, Source> {
    if items == [] then map[]
    else
      var init, last := Embedded(items[..|items| - 1], str), items[|items| - 1];
      if last.PyDict? && HasSource(last.entries) then init[str(Get(last.entries, "id")) := SourceOf(last.entries)] else init
  }

  datatype RunData = RunData(functions: seq<Record>, calls: PyValue, resources: PyValue, interactions: PyValue,
                             traces: PyValue, embedded: map<string, Source>)

  function ItemsOf(v: PyValue): seq<PyValue> {
    if v.PyList? then v.items else []
  }

  function FastRecord(r: Sections, t: string, loads: string -> PyValue, str: PyValue -> string): RunData {
    var items := ItemsOf(LoadSpan(r, t, "functions", loads));
    RunData(Functions(items), LoadSpan(r, t, "calls", loads), LoadSpan(r, t, "resources", loads),
            LoadSpan(r, t, "interactions", loads), LoadSpan(r, t, "traces", loads), Embedded(items, str))
  }

  // ------------------------------------------------ what is recorded

  /** `entries.get(key)` is `v`. */
  ghost predicate Holds(entries: Record, key: string, v: PyValue) {
    if key in entries then entries[key] == v else v == NONE
  }

  /** Item `i` is a dictionary with the id `id` and a source, which is a string that is not empty. */
  ghost predicate Sourced(items: seq<PyValue>, str: PyValue -> string, id: string, i: int) {
    && 0 <= i < |items| && items[i].PyDict?
    && "source" in items[i].entries && items[i].entries["source"].PyStr? && items[i].entries["source"].text != ""
    && exists v :: Holds(items[i].entries, "id", v) && str(v) == id
  }

  ghost predicate LastSourced(items: seq<PyValue>, str: PyValue -> string, id: string, i: int) {
    Sourced(items, str, id, i) && forall j :: i < j < |items| ==> !Sourced(items, str, id, j)
  }

  /** The file, lines and text of a dictionary. */
  ghost predicate IsSource(source: Source, entries: Record) {
    && Holds(entries, "file", source.file) && Holds(entries, "start_line", source.startLine)
    && Holds(entries, "end_line", source.endLine) && Holds(entries, "source", PyStr(source.text))
  }

  /** Every id with a source has that of its last such item, and no other id has one. */
  ghost predicate SourcesOf(items: seq<PyValue>, str: PyValue -> string, embedded: map<string, Source>) {
    && (forall id :: id in embedded <==> exists i :: Sourced(items, str, id, i))
    && (forall id, i :: id in embedded && LastSourced(items, str, id, i) ==> IsSource(embedded[id], items[i].entries))
  }

  /** All entries but the source. */
  ghost predicate Stripped(record: Record, entries: Record) {
    && (forall key :: key in record <==> key != "source" && key in entries)
    && (forall key :: key in record ==> record[key] == entries[key])
  }

  /** `at` lists the dictionaries among the items, in order. */
  ghost predicate DictsAt(items: seq<PyValue>, at: seq<nat>) {
    && (forall n :: 0 <= n < |at| ==> at[n] < |items| && items[at[n]].PyDict?)
    && (forall m, n :: 0 <= m < n < |at| ==> at[m] < at[n])
    && (forall i :: 0 <= i < |items| && items[i].PyDict? ==> i in at)
  }

  /** The dictionaries of the items without their sources, in order. */
  ghost predicate FunctionsOf(items: seq<PyValue>, functions: seq<Record>) {
    exists at: seq<nat> :: DictsAt(items, at) && |functions| == |at|
      && forall n :: 0 <= n < |at| ==> Stripped(functions[n], items[at[n]].entries)
  }

  lemma SourcedBefore(items: seq<PyValue>, str: PyValue -> string, id: string)
    requires items != []
    ensures forall i :: 0 <= i < |items| - 1 ==>
      (Sourced(items, str, id, i) <==> Sourced(items[..|items| - 1], str, id, i))
  {
  }

  lemma LastItemSourced(items: seq<PyValue>, str: PyValue -> string, id: string)
    requires items != []
    ensures var last := items[|items| - 1];
      Sourced(items, str, id, |items| - 1) <==> last.PyDict? && HasSource(last.entries) && str(Get(last.entries, "id")) == id
  {
    var last := items[|items| - 1];
    if last.PyDict? {
      assert Holds(last.entries, "id", Get(last.entries, "id"));
      assert forall v :: Holds(last.entries, "id", v) ==> v == Get(last.entries, "id");
    }
  }

  lemma SourceIs(entries: Record)
    requires HasSource(entries)
    ensures IsSource(SourceOf(entries), entries)
  {
  }

  lemma NothingSourced(str: PyValue -> string, id: string)
    ensures forall i :: !Sourced([], str, id, i)
  {
  }

  lemma SourcedInRange(items: seq<PyValue>, str: PyValue -> string, id: string)
    ensures forall i :: Sourced(items, str, id, i) ==> 0 <= i < |items| && items[i].PyDict?
  {
  }

  /** The last item with the id, -1 if there is none. */
  lemma {:induction false} EmbeddedAt(items: seq<PyValue>, str: PyValue -> string, id: string) returns (last: int)
    ensures id in Embedded(items, str) <==> last >= 0
    ensures last >= 0 ==> LastSourced(items, str, id, last)
    ensures id in Embedded(items, str) && 0 <= last < |items| && items[last].PyDict? ==>
      IsSource(Embedded(items, str)[id], items[last].entries)
    ensures last < 0 ==> forall i :: !Sourced(items, str, id, i)
  {
    hide Sourced, IsSource, HasSource, SourceOf, Get;
    last := -1;
    if items == [] {
      NothingSourced(str, id);
    } else {
      var init, n := items[..|items| - 1], |items| - 1;
      last := EmbeddedAt(init, str, id);
      SourcedBefore(items, str, id);
      LastItemSourced(items, str, id);
      SourcedInRange(items, str, id);
      SourcedInRange(init, str, id);
      if Sourced(items, str, id, n) {
        SourceIs(items[n].entries);
        last := n;
      }
    }
  }

  lemma EmbeddedIs(items: seq<PyValue>, str: PyValue -> string)
    ensures SourcesOf(items, str, Embedded(items, str))
  {
    hide Sourced, Embedded, IsSource;
    var embedded := Embedded(items, str);
    forall id ensures id in embedded <==> exists i :: Sourced(items, str, id, i) {
      var last := EmbeddedAt(items, str, id);
    }
    forall id, i | id in embedded && LastSourced(items, str, id, i)
      ensures 0 <= i < |items| && items[i].PyDict? && IsSource(embedded[id], items[i].entries)
    {
      SourcedInRange(items, str, id);
      var last := EmbeddedAt(items, str, id);
      assert last == i;
    }
  }

  lemma {:induction false} FunctionsAt(items: seq<PyValue>) returns (at: seq<nat>)
    ensures DictsAt(items, at) && |Functions(items)| == |at|
    ensures forall n :: 0 <= n < |at| ==> Stripped(Functions(items)[n], items[at[n]].entries)
  {
    hide Stripped;
    at := [];
    if items != [] {
      var init, n := items[..|items| - 1], |items| - 1;
      at := FunctionsAt(init);
      assert forall i :: 0 <= i < n ==> init[i] == items[i];
      if items[n].PyDict? {
        WithoutSource(items[n].entries);
        at := at + [n];
      }
    }
  }

  lemma WithoutSource(entries: Record)
    ensures Stripped(entries - {"source"}, entries)
  {
  }

  lemma FunctionsIs(items: seq<PyValue>)
    ensures FunctionsOf(items, Functions(items))
  {
    hide Functions, DictsAt, Stripped;
    var at := FunctionsAt(items);
  }

  /** `extract_run_data`: one loop for the functions and their sources. */
  method ExtractRunData(r: Sections, t: string, loads: string -> PyValue, str: PyValue -> string) returns (data: RunData)
    ensures data == FastRecord(r, t, loads, str)
    ensures var items := ItemsOf(LoadSpan(r, t, "functions", loads));
      SourcesOf(items, str, data.embedded) && FunctionsOf(items, data.functions)
    ensures data.calls == LoadSpan(r, t, "calls", loads) && data.resources == LoadSpan(r, t, "resources", loads)
    ensures data.interactions == LoadSpan(r, t, "interactions", loads) && data.traces == LoadSpan(r, t, "traces", loads)
  {
    hide LoadSpan, SourcesOf, FunctionsOf, SourceOf;
    var functions: seq<Record> := [];
    var embedded: map<string, Source> := map[];
    var items := ItemsOf(LoadSpan(r, t, "functions", loads));
    for i := 0 to |items|
      invariant functions == Functions(items[..i]) && embedded == Embedded(items[..i], str)
    {
      assert items[..i + 1][..i] == items[..i];
      if items[i].PyDict? {
        var fn := items[i].entries;
        if HasSource(fn) {
          embedded := embedded[str(Get(fn, "id")) := SourceOf(fn)];
        }
        functions := functions + [fn - {"source"}];
      }
    }
    assert items[..|items|] == items;
    EmbeddedIs(items, str);
    FunctionsIs(items);
    data := RunData(functions, LoadSpan(r, t, "calls", loads), LoadSpan(r, t, "resources", loads),
                    LoadSpan(r, t, "interactions", loads), LoadSpan(r, t, "traces", loads), embedded);
  }

  /** What a `for` loop over a parsed value meets: the elements of a list; the keys of a dictionary and the characters
      of a string are no dictionaries; anything else cannot be iterated. */
  function Iterated(v: PyValue): Option<seq<PyValue>> {
    match v
    case PyList(items) => Some(items)
    case PyDict(_) => Some([])
    case PyStr(_) => Some([])
    case PyOther(_) => None
  }

  /** The record from the full parse; `None` for the `TypeError` of a field that cannot be iterated. */
  ghost function FullRecord(j: nat, members: Members, decode: string -> Option<string>, loads: string -> PyValue,
                            str: PyValue -> string): Option<RunData>
    requires KeysDecode(members, decode)
  {
    var items := Iterated(FullGet(j, members, "functions", decode, loads));
    if items.None? then None
    else
      Some(RunData(Functions(items.value), FullGet(j, members, "calls", decode, loads),
                   FullGet(j, members, "resources", decode, loads), FullGet(j, members, "interactions", decode, loads),
                   FullGet(j, members, "traces", decode, loads), Embedded(items.value, str)))
  }

  predicate HasObject(items: Items) {
    match items
    case NoItem => false
    case Item(_, v, _, rest) => v.JObj? || HasObject(rest)
  }

  /** One value for each element, dictionaries exactly for objects. */
  ghost predicate ElementsKept(items: Items, values: seq<PyValue>) {
    match items
    case NoItem => values == []
    case Item(_, v, _, rest) => values != [] && (values[0].PyDict? <==> v.JObj?) && ElementsKept(rest, values[1..])
  }

  /** The parser gives dictionaries exactly for objects, also inside arrays, and strings exactly for strings. */
  ghost predicate KindsKept(members: Members, loads: string -> PyValue) {
    match members
    case NoMember => true
    case Member(_, _, _, _, v, _, rest) =>
      && (loads(Text(v)).PyDict? <==> v.JObj?) && (loads(Text(v)).PyStr? <==> v.JStr?)
      && (v.JArr? ==> ElementsKept(v.items, ItemsOf(loads(Text(v)))))
      && KindsKept(rest, loads)
  }

  /** The field is absent, or its last member is an array. */
  ghost predicate AbsentOrArray(j: nat, members: Members, k: string, decode: string -> Option<string>)
    requires KeysDecode(members, decode)
  {
    var m := LastMember(j, members, k, decode);
    m.None? || m.value.v.JArr?
  }

  ghost predicate NoDicts(items: seq<PyValue>) {
    forall i :: 0 <= i < |items| ==> !items[i].PyDict?
  }

  /** For the functions there is one more case: the last member is an object or a string, and its last array, if there
      is one, has no objects. */
  ghost predicate FunctionsAgree(j: nat, members: Members, decode: string -> Option<string>)
    requires KeysDecode(members, decode)
  {
    var m, a := LastMember(j, members, "functions", decode), LastArray(j, members, "functions", decode);
    || m.None? || m.value.v.JArr?
    || ((m.value.v.JObj? || m.value.v.JStr?) && (a.None? || (a.value.v.JArr? && !HasObject(a.value.v.items))))
  }

  lemma {:induction false} NothingFromNoDicts(items: seq<PyValue>, str: PyValue -> string)
    ensures Functions(items) == [] <==> NoDicts(items)
    ensures NoDicts(items) ==> Embedded(items, str) == map[]
  {
    if items != [] {
      NothingFromNoDicts(items[..|items| - 1], str);
      assert items == items[..|items| - 1] + [items[|items| - 1]];
    }
  }

  lemma {:induction false} LastMemberKind(j: nat, members: Members, k: string, decode: string -> Option<string>, loads: string -> PyValue)
    requires KeysDecode(members, decode) && KindsKept(members, loads)
    ensures var m := LastMember(j, members, k, decode);
      m.Some? ==> (loads(Text(m.value.v)).PyDict? <==> m.value.v.JObj?) && (loads(Text(m.value.v)).PyStr? <==> m.value.v.JStr?)
    decreases members
  {
    hide Text, StrText;
    if members.Member? {
      LastMemberKind(SpotOf(j, members).end + 1, members.rest, k, decode, loads);
    }
  }

  lemma {:induction false} ObjectsAreDicts(items: Items, values: seq<PyValue>)
    requires ElementsKept(items, values)
    ensures NoDicts(values) <==> !HasObject(items)
  {
    if items.Item? {
      ObjectsAreDicts(items.rest, values[1..]);
      assert values == [values[0]] + values[1..];
    }
  }

  lemma {:induction false} LastArrayElements(j: nat, members: Members, k: string, decode: string -> Option<string>,
                                             loads: string -> PyValue)
    requires KeysDecode(members, decode) && KindsKept(members, loads)
    ensures var a := LastArray(j, members, k, decode);
      a.Some? ==> a.value.v.JArr? && ElementsKept(a.value.v.items, ItemsOf(loads(Text(a.value.v))))
    decreases members
  {
    hide Text, StrText, ElementsKept;
    if members.Member? {
      LastArrayElements(SpotOf(j, members).end + 1, members.rest, k, decode, loads);
    }
  }

  /** What is loaded for a field: the value of its last array. */
  lemma SpanLoaded(t: string, lead: string, v: Json, k: string, decode: string -> Option<string>, loads: string -> PyValue)
    requires v.JObj? && WellFormed(v) && AllWs(lead) && KeysDecode(v.members, decode) && k in STRUCTURAL
    requires At(t, 0, lead + Text(v)) && ListsAreArrays(v.members, loads)
    ensures Scan(t, decode).Ok? && Scan(t, decode).value.Some?
    ensures var a := LastArray(|lead| + 1, v.members, k, decode);
      LoadSpan(Scan(t, decode).value.value, t, k, loads) == if a.Some? then loads(Text(a.value.v)) else PyList([])
  {
    hide At, Text, WellFormed, Scan, LastMember, LastArray;
    StructuralFieldScanned(t, lead, v, k, decode);
    LastMemberIsLastArray(|lead| + 1, v.members, k, decode, loads);
  }

  /** The functions and sources of the two records. */
  lemma FunctionFieldsAgree(t: string, lead: string, v: Json, decode: string -> Option<string>,
                            loads: string -> PyValue, str: PyValue -> string)
    requires v.JObj? && WellFormed(v) && AllWs(lead) && KeysDecode(v.members, decode)
    requires At(t, 0, lead + Text(v)) && ListsAreArrays(v.members, loads) && KindsKept(v.members, loads)
    ensures Scan(t, decode).Ok? && Scan(t, decode).value.Some?
    ensures var fast, full := ItemsOf(LoadSpan(Scan(t, decode).value.value, t, "functions", loads)),
                              Iterated(FullGet(|lead| + 1, v.members, "functions", decode, loads));
      (full.Some? && Functions(fast) == Functions(full.value) && Embedded(fast, str) == Embedded(full.value, str))
      <==> FunctionsAgree(|lead| + 1, v.members, decode)
  {
    hide At, Text, WellFormed, Scan, LastMember, LastArray, LoadSpan, Embedded, Functions, NoDicts, HasObject, ElementsKept;
    var j := |lead| + 1;
    SpanLoaded(t, lead, v, "functions", decode, loads);
    LastMemberIsLastArray(j, v.members, "functions", decode, loads);
    LastMemberKind(j, v.members, "functions", decode, loads);
    LastArrayElements(j, v.members, "functions", decode, loads);
    var a := LastArray(j, v.members, "functions", decode);
    if a.Some? { ObjectsAreDicts(a.value.v.items, ItemsOf(loads(Text(a.value.v)))); }
    var fast := ItemsOf(LoadSpan(Scan(t, decode).value.value, t, "functions", loads));
    NothingFromNoDicts(fast, str);
    NothingFromNoDicts([], str);
    NothingIsNoDicts();
  }

  lemma NothingIsNoDicts()
    ensures NoDicts([])
  {
  }

  /** The fast path gives the record of the full parse exactly if the last members of calls, resources, interactions and
      traces are arrays, where there are any, and that of the functions is an array, absent, or harmless. */
  lemma RecordsAgree(t: string, lead: string, v: Json, decode: string -> Option<string>, loads: string -> PyValue, str: PyValue -> string)
    requires v.JObj? && WellFormed(v) && AllWs(lead) && KeysDecode(v.members, decode)
    requires At(t, 0, lead + Text(v)) && ListsAreArrays(v.members, loads) && KindsKept(v.members, loads)
    ensures Scan(t, decode).Ok? && Scan(t, decode).value.Some?
    ensures FullRecord(|lead| + 1, v.members, decode, loads, str) == Some(FastRecord(Scan(t, decode).value.value, t, loads, str))
            <==> && FunctionsAgree(|lead| + 1, v.members, decode)
                 && forall k :: k in STRUCTURAL - {"functions"} ==> AbsentOrArray(|lead| + 1, v.members, k, decode)
  {
    hide At, Text, WellFormed, Scan, LastMember, LastArray, LoadSpan, FullGet, FunctionsAgree, Embedded, Functions, AllWs;
    FunctionFieldsAgree(t, lead, v, decode, loads, str);
    forall k | k in STRUCTURAL
      ensures LoadSpan(Scan(t, decode).value.value, t, k, loads) == FullGet(|lead| + 1, v.members, k, decode, loads)
              <==> AbsentOrArray(|lead| + 1, v.members, k, decode)
    {
      FastPathAgrees(t, lead, v, k, decode, loads);
    }
    assert STRUCTURAL - {"functions"} == {"calls", "resources", "interactions", "traces"};
  }
}
