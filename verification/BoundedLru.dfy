/** The read model's LRU cache: bounded by entry count and by bytes, with a time to live. */
module BoundedLru {
  import opened Wrappers

  datatype Item<V> = Item(key: string, stamp: real, size: int, value: V)

  datatype Limits = Limits(maxEntries: int, maxBytes: int, ttl: real)

  // ------------------------------------------------ ordered contents, oldest first

  ghost predicate DistinctKeys<V>(d: seq<Item<V>>) {
    forall i, j :: 0 <= i < j < |d| ==> d[i].key != d[j].key
  }

  predicate Has<V>(d: seq<Item<V>>, key: string) {
    exists i :: 0 <= i < |d| && d[i].key == key
  }

  function Find<V>(d: seq<Item<V>>, key: string): Option<Item<V>> {
    if d == [] then None else if d[0].key == key then Some(d[0]) else Find(d[1..], key)
  }

  function Without<V>(d: seq<Item<V>>, key: string): seq<Item<V>> {
    if d == [] then [] else if d[0].key == key then d[1..] else [d[0]] + Without(d[1..], key)
  }

  function Bytes<V>(d: seq<Item<V>>): int {
    if d == [] then 0 else d[0].size + Bytes(d[1..])
  }

  predicate Fits<V>(d: seq<Item<V>>, limits: Limits) {
    |d| <= limits.maxEntries && Bytes(d) <= limits.maxBytes
  }

  /** What eviction from the old end leaves. */
  function Evicted<V>(d: seq<Item<V>>, limits: Limits): seq<Item<V>> {
    if Fits(d, limits) || d == [] then d else Evicted(d[1..], limits)
  }

  predicate Expired<V>(item: Item<V>, limits: Limits, now: real) {
    limits.ttl != 0.0 && now - item.stamp > limits.ttl
  }

  lemma {:induction false} FindOrMiss<V>(d: seq<Item<V>>, key: string)
    ensures Find(d, key).Some? <==> Has(d, key)
    ensures Find(d, key).Some? ==> Find(d, key).value in d && Find(d, key).value.key == key
  {
    if d != [] && d[0].key != key {
      FindOrMiss(d[1..], key);
      if i :| 0 <= i < |d| && d[i].key == key {
        assert d[1..][i - 1] == d[i];
      }
      if Has(d[1..], key) {
        var i :| 0 <= i < |d[1..]| && d[1..][i].key == key;
        assert d[i + 1].key == key;
      }
    }
  }

  lemma {:induction false} WithoutElements<V>(d: seq<Item<V>>, key: string)
    requires DistinctKeys(d)
    ensures forall item :: item in Without(d, key) ==> item in d && item.key != key
    ensures forall item :: item in d && item.key != key ==> item in Without(d, key)
  {
    if d != [] {
      var rest := d[1..];
      assert d == [d[0]] + rest;
      assert forall item :: item in rest ==> item.key != d[0].key;
      if d[0].key != key { WithoutElements(rest, key); }
    }
  }

  lemma DistinctCons<V>(item: Item<V>, d: seq<Item<V>>)
    requires DistinctKeys(d) && forall x :: x in d ==> x.key != item.key
    ensures DistinctKeys([item] + d)
  {
  }

  lemma {:induction false} WithoutDistinct<V>(d: seq<Item<V>>, key: string)
    requires DistinctKeys(d)
    ensures DistinctKeys(Without(d, key))
  {
    if d != [] && d[0].key != key {
      WithoutDistinct(d[1..], key);
      WithoutElements(d[1..], key);
      forall x | x in Without(d[1..], key) ensures x.key != d[0].key { assert x in d[1..]; }
      DistinctCons(d[0], Without(d[1..], key));
    }
  }

  lemma {:induction false} WithoutBytes<V>(d: seq<Item<V>>, key: string)
    ensures Bytes(Without(d, key)) == Bytes(d) - (if Find(d, key).Some? then Find(d, key).value.size else 0)
  {
    if d != [] && d[0].key != key {
      WithoutBytes(d[1..], key);
      assert ([d[0]] + Without(d[1..], key))[1..] == Without(d[1..], key);
    }
  }

  lemma WithoutKeeps<V>(d: seq<Item<V>>, key: string)
    requires DistinctKeys(d)
    ensures DistinctKeys(Without(d, key)) && !Has(Without(d, key), key)
    ensures forall item :: item in Without(d, key) ==> item in d && item.key != key
    ensures forall item :: item in d && item.key != key ==> item in Without(d, key)
    ensures Bytes(Without(d, key)) == Bytes(d) - (if Find(d, key).Some? then Find(d, key).value.size else 0)
  {
    WithoutElements(d, key);
    WithoutDistinct(d, key);
    WithoutBytes(d, key);
  }

  lemma {:induction false} BytesSnoc<V>(d: seq<Item<V>>, item: Item<V>)
    ensures Bytes(d + [item]) == Bytes(d) + item.size
  {
    if d == [] {
      assert d + [item] == [item] && [item][1..] == [];
    } else {
      assert (d + [item])[1..] == d[1..] + [item];
      BytesSnoc(d[1..], item);
    }
  }

  /** Eviction keeps exactly the longest suffix of the recency order that fits both bounds,
      or nothing if not even the empty cache fits. */
  lemma {:induction false} EvictedIsLongestSuffix<V>(d: seq<Item<V>>, limits: Limits) returns (n: nat)
    ensures n <= |d| && Evicted(d, limits) == d[n..]
    ensures Fits(d[n..], limits) || n == |d|
    ensures forall m :: 0 <= m < n ==> !Fits(d[m..], limits)
  {
    if Fits(d, limits) || d == [] {
      n := 0;
      assert d[0..] == d;
    } else {
      var k := EvictedIsLongestSuffix(d[1..], limits);
      n := k + 1;
      assert d[1..][k..] == d[n..];
      forall m | 0 <= m < n ensures !Fits(d[m..], limits) {
        if m > 0 { assert d[m..] == d[1..][m - 1..]; } else { assert d[0..] == d; }
      }
    }
  }

  /** The class, method by method. */
  class Lru<V> {
    var data: seq<Item<V>>
    var bytes: int
    const limits: Limits

    ghost predicate Valid()
      reads this
    {
      DistinctKeys(data) && bytes == Bytes(data)
    }

    constructor (maxEntries: int, maxBytes: int, ttlSeconds: real)
      ensures Valid() && data == [] && limits == Limits(maxEntries, maxBytes, ttlSeconds)
    {
      data, bytes := [], 0;
      limits := Limits(maxEntries, maxBytes, ttlSeconds);
    }

    method Delete(key: string)
      requires Valid()
      modifies this
      ensures Valid() && data == Without(old(data), key)
    {
      var entry := Find(data, key);
      WithoutKeeps(data, key);
      data := Without(data, key);
      if entry.Some? {
        bytes := bytes - entry.value.size;
      }
    }

    method Get(key: string, now: real) returns (r: Option<V>)
      requires Valid()
      modifies this
      ensures Valid() && data == AfterGet(limits, old(data), key, now)
      ensures r == Answer(limits, old(data), key, now)
    {
      var entry := Find(data, key);
      if entry.None? {
        return None;
      }
      WithoutKeeps(data, key);
      if Expired(entry.value, limits, now) {
        Delete(key);
        return None;
      }
      BytesSnoc(Without(data, key), entry.value);
      FindOrMiss(data, key);
      data := Without(data, key) + [entry.value];
      r := Some(entry.value.value);
    }

    method Put(key: string, value: V, size: int, now: real)
      requires Valid()
      modifies this
      ensures Valid() && data == AfterPut(limits, old(data), Item(key, now, size, value))
    {
      var existing := Find(data, key);
      WithoutKeeps(data, key);
      data := Without(data, key);
      if existing.Some? {
        bytes := bytes - existing.value.size;
      }
      var item := Item(key, now, size, value);
      BytesSnoc(data, item);
      data := data + [item];
      bytes := bytes + size;
      ghost var full := data;
      while |data| > limits.maxEntries || bytes > limits.maxBytes
        invariant Valid() && Evicted(data, limits) == Evicted(full, limits)
        decreases |data|
      {
        if |data| == 0 {
          break;
        }
        bytes := bytes - data[0].size;
        data := data[1..];
      }
    }

    method Length() returns (n: nat)
      ensures n == |data|
    {
      n := |data|;
    }
  }

  // ------------------------------------------------ the operations on values

  function AfterGet<V>(limits: Limits, d: seq<Item<V>>, key: string, now: real): seq<Item<V>> {
    match Find(d, key)
    case None => d
    case Some(item) => if Expired(item, limits, now) then Without(d, key) else Without(d, key) + [item]
  }

  function Answer<V>(limits: Limits, d: seq<Item<V>>, key: string, now: real): Option<V> {
    match Find(d, key)
    case None => None
    case Some(item) => if Expired(item, limits, now) then None else Some(item.value)
  }

  function AfterPut<V>(limits: Limits, d: seq<Item<V>>, item: Item<V>): seq<Item<V>> {
    Evicted(Without(d, item.key) + [item], limits)
  }

  // ------------------------------------------------ one call, in terms of the entries

  /** `rest` is `d` without the entry of `key`, if there is one. */
  ghost predicate Removed<V>(d: seq<Item<V>>, key: string, rest: seq<Item<V>>) {
    && (forall i :: 0 <= i < |d| && d[i].key == key ==> rest == d[..i] + d[i + 1..])
    && ((forall i :: 0 <= i < |d| ==> d[i].key != key) ==> rest == d)
  }

  lemma {:induction false} WithoutAt<V>(d: seq<Item<V>>, key: string, i: nat)
    requires i < |d| && d[i].key == key && forall j :: 0 <= j < i ==> d[j].key != key
    ensures Without(d, key) == d[..i] + d[i + 1..]
  {
    if i == 0 {
      assert d[..0] + d[1..] == d[1..];
    } else {
      var tail := d[1..];
      assert tail[i - 1] == d[i] && forall j :: 0 <= j < i - 1 ==> tail[j] == d[j + 1];
      WithoutAt(tail, key, i - 1);
      assert d[..i] == [d[0]] + tail[..i - 1] && d[i + 1..] == tail[i..];
    }
  }

  lemma WithoutIsRemoved<V>(d: seq<Item<V>>, key: string)
    requires DistinctKeys(d)
    ensures Removed(d, key, Without(d, key))
  {
    hide Without;
    forall i | 0 <= i < |d| && d[i].key == key ensures Without(d, key) == d[..i] + d[i + 1..] {
      WithoutAt(d, key, i);
    }
    FindOrMiss(d, key);
    if Find(d, key).None? {
      WithoutMissing(d, key);
    }
  }

  lemma {:induction false} FoundAt<V>(d: seq<Item<V>>, key: string)
    requires DistinctKeys(d)
    ensures forall i :: 0 <= i < |d| && d[i].key == key ==> Find(d, key) == Some(d[i])
    ensures (forall i :: 0 <= i < |d| ==> d[i].key != key) ==> Find(d, key) == None
  {
    if d != [] {
      FoundAt(d[1..], key);
      assert forall i :: 1 <= i < |d| ==> d[i] == d[1..][i - 1];
    }
  }

  /** The entry is not older than the cache allows; a time to live of zero allows any age. */
  predicate Live<V>(item: Item<V>, limits: Limits, now: real) {
    limits.ttl == 0.0 || now <= item.stamp + limits.ttl
  }

  /** A live entry is answered and becomes the most recent, an older one goes, a missing one changes nothing. */
  lemma GetIs<V>(limits: Limits, d: seq<Item<V>>, key: string, now: real)
    requires DistinctKeys(d)
    ensures forall i :: 0 <= i < |d| && d[i].key == key ==>
      && Answer(limits, d, key, now) == (if Live(d[i], limits, now) then Some(d[i].value) else None)
      && AfterGet(limits, d, key, now) == d[..i] + d[i + 1..] + if Live(d[i], limits, now) then [d[i]] else []
    ensures (forall i :: 0 <= i < |d| ==> d[i].key != key) ==>
      Answer(limits, d, key, now) == None && AfterGet(limits, d, key, now) == d
  {
    FoundAt(d, key);
    WithoutIsRemoved(d, key);
  }

  predicate WithinBounds<V>(d: seq<Item<V>>, limits: Limits) {
    |d| <= limits.maxEntries && Bytes(d) <= limits.maxBytes
  }

  /** The new entry takes the recent end; then the oldest entries go, as few as the bounds ask for. */
  lemma PutIs<V>(limits: Limits, d: seq<Item<V>>, item: Item<V>) returns (rest: seq<Item<V>>, n: nat)
    requires DistinctKeys(d)
    ensures Removed(d, item.key, rest) && n <= |rest| + 1 && AfterPut(limits, d, item) == (rest + [item])[n..]
    ensures n == |rest| + 1 || WithinBounds((rest + [item])[n..], limits)
    ensures forall m :: 0 <= m < n ==> !WithinBounds((rest + [item])[m..], limits)
  {
    rest := Without(d, item.key);
    WithoutIsRemoved(d, item.key);
    n := EvictedIsLongestSuffix(rest + [item], limits);
  }

  datatype Op<V> = Get(key: string, now: real) | Put(item: Item<V>) | Delete(key: string)

  function Step<V>(limits: Limits, d: seq<Item<V>>, op: Op<V>): seq<Item<V>> {
    match op
    case Get(key, now) => AfterGet(limits, d, key, now)
    case Put(item) => AfterPut(limits, d, item)
    case Delete(key) => Without(d, key)
  }

  /** The contents after a sequence of calls on a new cache. */
  function Run<V>(limits: Limits, ops: seq<Op<V>>): seq<Item<V>> {
    if ops == [] then [] else Step(limits, Run(limits, ops[..|ops| - 1]), ops[|ops| - 1])
  }

  /** The last `put` of the key that was not followed by a `delete` of it. */
  function LastWrite<V>(ops: seq<Op<V>>, key: string): Option<Item<V>> {
    if ops == [] then None
    else
      match ops[|ops| - 1]
      case Put(item) => if item.key == key then Some(item) else LastWrite(ops[..|ops| - 1], key)
      case Delete(k) => if k == key then None else LastWrite(ops[..|ops| - 1], key)
      case Get(_, _) => LastWrite(ops[..|ops| - 1], key)
  }

  /** How many calls were made up to and including the last `get` or `put` of the key. */
  function LastTouch<V>(ops: seq<Op<V>>, key: string): nat {
    if ops == [] then 0
    else
      match ops[|ops| - 1]
      case Put(item) => if item.key == key then |ops| else LastTouch(ops[..|ops| - 1], key)
      case Get(k, _) => if k == key then |ops| else LastTouch(ops[..|ops| - 1], key)
      case Delete(_) => LastTouch(ops[..|ops| - 1], key)
  }

  // ------------------------------------------------ whole sequences of calls

  ghost predicate ByRecency<V>(ops: seq<Op<V>>, d: seq<Item<V>>) {
    forall i, j :: 0 <= i < j < |d| ==> LastTouch(ops, d[i].key) < LastTouch(ops, d[j].key)
  }

  ghost predicate Consistent<V>(ops: seq<Op<V>>, d: seq<Item<V>>) {
    && DistinctKeys(d)
    && (forall item :: item in d ==> LastWrite(ops, item.key) == Some(item))
    && ByRecency(ops, d)
  }

  /** `d'` is `d` with items dropped, order kept. */
  ghost predicate Subsequence<V>(d': seq<Item<V>>, d: seq<Item<V>>, at: seq<nat>) {
    && |at| == |d'| && (forall i :: 0 <= i < |at| ==> at[i] < |d| && d'[i] == d[at[i]])
    && (forall i, j :: 0 <= i < j < |at| ==> at[i] < at[j])
  }

  lemma {:induction false} WithoutIsSubsequence<V>(d: seq<Item<V>>, key: string) returns (at: seq<nat>)
    ensures Subsequence(Without(d, key), d, at)
  {
    if d == [] {
      at := [];
    } else if d[0].key == key {
      at := seq(|d| - 1, i requires 0 <= i < |d| - 1 => i + 1);
    } else {
      var rest := WithoutIsSubsequence(d[1..], key);
      at := [0] + seq(|rest|, i requires 0 <= i < |rest| => rest[i] + 1);
      SubsequenceCons(d, Without(d[1..], key), rest, at);
    }
  }

  lemma SubsequenceCons<V>(d: seq<Item<V>>, w: seq<Item<V>>, rest: seq<nat>, at: seq<nat>)
    requires d != [] && Subsequence(w, d[1..], rest)
    requires |at| == |rest| + 1 && at[0] == 0 && forall i :: 0 <= i < |rest| ==> at[i + 1] == rest[i] + 1
    ensures Subsequence([d[0]] + w, d, at)
  {
    forall i | 0 <= i < |at| ensures at[i] < |d| && ([d[0]] + w)[i] == d[at[i]] {
      if i > 0 { assert at[(i - 1) + 1] == rest[i - 1] + 1; }
    }
    forall i, j | 0 <= i < j < |at| ensures at[i] < at[j] {
      assert at[(j - 1) + 1] == rest[j - 1] + 1;
      if i > 0 { assert at[(i - 1) + 1] == rest[i - 1] + 1; }
    }
  }

  lemma {:induction false} TouchBounded<V>(ops: seq<Op<V>>, key: string)
    ensures LastTouch(ops, key) <= |ops|
  {
    if ops != [] { TouchBounded(ops[..|ops| - 1], key); }
  }

  /** A call leaves what is recorded about other keys. */
  lemma OtherKeys<V>(ops: seq<Op<V>>, op: Op<V>, key: string)
    requires key != (match op case Get(k, _) => k case Put(item) => item.key case Delete(k) => k)
    ensures LastWrite(ops + [op], key) == LastWrite(ops, key)
    ensures LastTouch(ops + [op], key) == LastTouch(ops, key)
  {
    assert (ops + [op])[..|ops|] == ops;
  }

  lemma WithoutStaysConsistent<V>(ops: seq<Op<V>>, op: Op<V>, d: seq<Item<V>>, key: string)
    requires Consistent(ops, d)
    requires key == (match op case Get(k, _) => k case Put(item) => item.key case Delete(k) => k)
    ensures Consistent(ops + [op], Without(d, key))
  {
    WithoutKeeps(d, key);
    var w := Without(d, key);
    var at := WithoutIsSubsequence(d, key);
    forall i | 0 <= i < |w|
      ensures LastTouch(ops + [op], w[i].key) == LastTouch(ops, w[i].key)
      ensures LastWrite(ops + [op], w[i].key) == LastWrite(ops, w[i].key)
    {
      assert w[i] in w;
      OtherKeys(ops, op, w[i].key);
    }
    forall i, j | 0 <= i < j < |w| ensures LastTouch(ops, w[i].key) < LastTouch(ops, w[j].key) {
      assert at[i] < at[j];
    }
  }

  lemma AppendedIsConsistent<V>(ops: seq<Op<V>>, d: seq<Item<V>>, item: Item<V>)
    requires Consistent(ops, d) && !Has(d, item.key)
    requires LastWrite(ops, item.key) == Some(item) && LastTouch(ops, item.key) == |ops|
    ensures Consistent(ops, d + [item])
  {
    forall i | 0 <= i < |d| ensures LastTouch(ops, d[i].key) < |ops| {
      TouchBounded(ops, d[i].key);
      TouchIsUnique(ops, d[i].key, item.key);
    }
  }

  lemma TouchIsUnique<V>(ops: seq<Op<V>>, a: string, b: string)
    requires a != b && LastTouch(ops, b) == |ops| && ops != []
    ensures LastTouch(ops, a) < |ops|
  {
    TouchBounded(ops[..|ops| - 1], a);
    TouchBounded(ops[..|ops| - 1], b);
  }

  lemma SuffixIsConsistent<V>(ops: seq<Op<V>>, d: seq<Item<V>>, n: nat)
    requires Consistent(ops, d) && n <= |d|
    ensures Consistent(ops, d[n..])
  {
  }

  /** Over any sequence of calls: the contents are the latest writes of their keys, ordered
      by last use, oldest first. */
  lemma {:induction false} RunIsConsistent<V>(limits: Limits, ops: seq<Op<V>>)
    ensures Consistent(ops, Run(limits, ops))
  {
    if ops != [] {
      var before, op := ops[..|ops| - 1], ops[|ops| - 1];
      RunIsConsistent(limits, before);
      assert ops == before + [op];
      var d := Run(limits, before);
      match op
      case Delete(key) => WithoutStaysConsistent(before, op, d, key);
      case Put(item) =>
        WithoutStaysConsistent(before, op, d, item.key);
        WithoutKeeps(d, item.key);
        AppendedIsConsistent(ops, Without(d, item.key), item);
        var n := EvictedIsLongestSuffix(Without(d, item.key) + [item], limits);
        SuffixIsConsistent(ops, Without(d, item.key) + [item], n);
      case Get(key, now) => GetIsConsistent(limits, before, d, key, now);
    }
  }

  lemma GetIsConsistent<V>(limits: Limits, before: seq<Op<V>>, d: seq<Item<V>>, key: string, now: real)
    requires Consistent(before, d)
    ensures Consistent(before + [Get(key, now)], AfterGet(limits, d, key, now))
  {
    var op: Op<V> := Get(key, now);
    var ops := before + [op];
    assert ops[..|before|] == before;
    FindOrMiss(d, key);
    WithoutStaysConsistent(before, op, d, key);
    WithoutKeeps(d, key);
    match Find(d, key)
    case None => WithoutMissing(d, key);
    case Some(item) =>
      if !Expired(item, limits, now) {
        AppendedIsConsistent(ops, Without(d, key), item);
      }
  }

  lemma {:induction false} WithoutMissing<V>(d: seq<Item<V>>, key: string)
    requires Find(d, key).None?
    ensures Without(d, key) == d
  {
    if d != [] { WithoutMissing(d[1..], key); }
  }

  /** A hit returns the latest value put for the key, not deleted since and not expired. */
  lemma HitIsLatest<V>(limits: Limits, ops: seq<Op<V>>, key: string, now: real)
    ensures var r := Answer(limits, Run(limits, ops), key, now);
            r.Some? ==> LastWrite(ops, key).Some? && r == Some(LastWrite(ops, key).value.value)
                        && (limits.ttl == 0.0 || now - LastWrite(ops, key).value.stamp <= limits.ttl)
  {
    RunIsConsistent(limits, ops);
    FindOrMiss(Run(limits, ops), key);
  }

  ghost predicate SizesNonNegative<V>(d: seq<Item<V>>) {
    forall item :: item in d ==> item.size >= 0
  }

  lemma PutFits<V>(limits: Limits, d: seq<Item<V>>, item: Item<V>)
    requires limits.maxEntries >= 0 && limits.maxBytes >= 0
    requires DistinctKeys(d) && SizesNonNegative(d) && item.size >= 0
    ensures Fits(AfterPut(limits, d, item), limits) && SizesNonNegative(AfterPut(limits, d, item))
  {
    WithoutElements(d, item.key);
    var all := Without(d, item.key) + [item];
    var n := EvictedIsLongestSuffix(all, limits);
    forall x | x in all[n..] ensures x.size >= 0 { assert x in all; }
  }

  lemma GetFits<V>(limits: Limits, d: seq<Item<V>>, key: string, now: real)
    requires DistinctKeys(d) && SizesNonNegative(d) && Fits(d, limits)
    ensures Fits(AfterGet(limits, d, key, now), limits) && SizesNonNegative(AfterGet(limits, d, key, now))
  {
    FindOrMiss(d, key);
    WithoutFits(limits, d, key);
    if Find(d, key).Some? {
      BytesSnoc(Without(d, key), Find(d, key).value);
    }
  }

  /** The bounds hold after every sequence of calls, if they admit the empty cache and sizes
      are not negative. */
  lemma {:induction false} RunFits<V>(limits: Limits, ops: seq<Op<V>>)
    requires limits.maxEntries >= 0 && limits.maxBytes >= 0
    requires forall i :: 0 <= i < |ops| && ops[i].Put? ==> ops[i].item.size >= 0
    ensures Fits(Run(limits, ops), limits) && SizesNonNegative(Run(limits, ops))
  {
    hide Fits, SizesNonNegative, DistinctKeys, AfterGet, AfterPut;
    if ops != [] {
      var before, op := ops[..|ops| - 1], ops[|ops| - 1];
      RunFits(limits, before);
      RunIsConsistent(limits, before);
      match op
      case Delete(key) => WithoutFits(limits, Run(limits, before), key);
      case Put(item) => PutFits(limits, Run(limits, before), item);
      case Get(key, now) => GetFits(limits, Run(limits, before), key, now);
    } else {
      EmptyFits<V>(limits);
    }
  }

  lemma EmptyFits<V>(limits: Limits)
    requires limits.maxEntries >= 0 && limits.maxBytes >= 0
    ensures var none: seq<Item<V>> := []; Fits(none, limits) && SizesNonNegative(none)
  {
  }

  lemma {:induction false} WithoutLength<V>(d: seq<Item<V>>, key: string)
    ensures |Without(d, key)| == |d| - (if Find(d, key).Some? then 1 else 0)
  {
    if d != [] { WithoutLength(d[1..], key); }
  }

  lemma WithoutFits<V>(limits: Limits, d: seq<Item<V>>, key: string)
    requires DistinctKeys(d) && Fits(d, limits) && SizesNonNegative(d)
    ensures Fits(Without(d, key), limits) && SizesNonNegative(Without(d, key))
    ensures |Without(d, key)| == |d| - (if Find(d, key).Some? then 1 else 0)
    ensures Bytes(Without(d, key)) == Bytes(d) - (if Find(d, key).Some? then Find(d, key).value.size else 0)
  {
    WithoutKeeps(d, key);
    WithoutLength(d, key);
    FindOrMiss(d, key);
  }
}
