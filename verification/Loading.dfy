/** Loading models by key: keys are grouped by interval, each group is fetched at
    once, and the results are mapped back to the keys. */
module Loading {
  import opened Prelude

  datatype Interval = Interval(start: string, end: string, registrationTime: string)

  datatype LoadKey = LoadKey(uuid: string, interval: Interval)

  datatype Model = Model(uuid: string, data: string)

  /** Reading models of several objects in one interval. */
  type Fetch = (seq<string>, Interval) -> seq<Model>

  function OfUuid(models: seq<Model>, uuid: string): seq<Model> {
    if models == [] then []
    else
      var init, last := models[..|models| - 1], models[|models| - 1];
      OfUuid(init, uuid) + if last.uuid == uuid then [last] else []
  }

  /** What is fetched for an object does not depend on what is fetched with it. */
  ghost predicate PerUuid(fetch: Fetch) {
    forall uuids, interval, uuid :: Independent(fetch, uuids, interval, uuid)
  }

  ghost predicate Independent(fetch: Fetch, uuids: seq<string>, interval: Interval, uuid: string) {
    OfUuid(fetch(uuids, interval), uuid) == if uuid in uuids then fetch([uuid], interval) else []
  }

  // ---- Grouping ---------------------------------------------------------

  ghost function UuidsIn(keys: seq<LoadKey>, interval: Interval): seq<string> {
    if keys == [] then []
    else
      UuidsIn(keys[..|keys| - 1], interval)
      + if keys[|keys| - 1].interval == interval then [keys[|keys| - 1].uuid] else []
  }

  lemma {:induction false} UuidsInHas(keys: seq<LoadKey>, i: nat)
    requires i < |keys|
    ensures keys[i].uuid in UuidsIn(keys, keys[i].interval)
  {
    if i < |keys| - 1 {
      UuidsInHas(keys[..|keys| - 1], i);
    }
  }

  lemma UuidsInMore(keys: seq<LoadKey>, k: nat, interval: Interval)
    requires k < |keys|
    ensures UuidsIn(keys[..k + 1], interval)
         == UuidsIn(keys[..k], interval) + if keys[k].interval == interval then [keys[k].uuid] else []
  {
    assert keys[..k + 1][..k] == keys[..k];
  }

  /** The keys of the interval are in its bucket; there is none if there are no keys. */
  ghost predicate Bucketed(keys: seq<LoadKey>, buckets: map<Interval, seq<string>>, interval: Interval) {
    UuidsIn(keys, interval) == if interval in buckets then buckets[interval] else []
  }

  lemma DistinctMore<T>(s: seq<T>, x: T)
    requires Distinct(s) && x !in s
    ensures Distinct(s + [x])
  {}

  /** Puts the keys in one bucket for each interval, buckets in first-seen order. */
  method BucketKeys(keys: seq<LoadKey>) returns (intervals: seq<Interval>, buckets: map<Interval, seq<string>>)
    ensures Distinct(intervals)
    ensures forall interval :: interval in buckets <==> interval in intervals
    ensures forall k :: 0 <= k < |keys| ==> keys[k].interval in intervals
    ensures forall interval :: Bucketed(keys, buckets, interval)
  {
    intervals, buckets := [], map[];
    for k := 0 to |keys|
      invariant Distinct(intervals)
      invariant forall interval :: interval in buckets <==> interval in intervals
      invariant forall interval :: Bucketed(keys[..k], buckets, interval)
    {
      ghost var before, read := buckets, keys[..k + 1];
      var interval := keys[k].interval;
      if interval in buckets {
        buckets := buckets[interval := buckets[interval] + [keys[k].uuid]];
      } else {
        buckets := buckets[interval := [keys[k].uuid]];
        DistinctMore(intervals, interval);
        intervals := intervals + [interval];
      }
      forall other
        ensures Bucketed(read, buckets, other)
      {
        UuidsInMore(keys, k, other);
        assert Bucketed(keys[..k], before, other);
      }
    }
    assert keys[..|keys|] == keys;
    forall k | 0 <= k < |keys|
      ensures keys[k].interval in intervals
    {
      UuidsInHas(keys, k);
      assert Bucketed(keys, buckets, keys[k].interval);
    }
  }

  // ---- Mapping back -----------------------------------------------------

  type Loaded = map<LoadKey, seq<Model>>

  /** A dictionary whose missing entries are empty lists. */
  function Get(loaded: Loaded, key: LoadKey): seq<Model> { if key in loaded then loaded[key] else [] }

  method MapBack(models: seq<Model>, interval: Interval, loaded: Loaded) returns (more: Loaded)
    requires forall key: LoadKey :: key.interval == interval ==> Get(loaded, key) == []
    ensures forall key: LoadKey :: Get(more, key) == if key.interval == interval then OfUuid(models, key.uuid) else Get(loaded, key)
  {
    more := loaded;
    for i := 0 to |models|
      invariant forall key: LoadKey :: Get(more, key) == if key.interval == interval then OfUuid(models[..i], key.uuid) else Get(loaded, key)
    {
      assert models[..i + 1][..i] == models[..i];
      var key := LoadKey(models[i].uuid, interval);
      more := more[key := Get(more, key) + [models[i]]];
    }
    assert models[..|models|] == models;
  }

  /** The models of the key's object among those fetched for its bucket. */
  ghost function Grouped(keys: seq<LoadKey>, fetch: Fetch, key: LoadKey): seq<Model> {
    OfUuid(fetch(UuidsIn(keys, key.interval), key.interval), key.uuid)
  }

  lemma GroupedIsAlone(keys: seq<LoadKey>, fetch: Fetch, k: nat)
    requires PerUuid(fetch) && k < |keys|
    ensures Grouped(keys, fetch, keys[k]) == fetch([keys[k].uuid], keys[k].interval)
  {
    UuidsInHas(keys, k);
    assert Independent(fetch, UuidsIn(keys, keys[k].interval), keys[k].interval, keys[k].uuid);
  }

  /** One fetch for each bucket, mapped back to keys. */
  method LoadBuckets(ghost keys: seq<LoadKey>, intervals: seq<Interval>, buckets: map<Interval, seq<string>>, fetch: Fetch)
      returns (loaded: Loaded)
    requires Distinct(intervals)
    requires forall i :: 0 <= i < |intervals| ==> intervals[i] in buckets && Bucketed(keys, buckets, intervals[i])
    ensures forall key: LoadKey :: key.interval in intervals ==> Get(loaded, key) == Grouped(keys, fetch, key)
  {
    loaded := map[];
    for i := 0 to |intervals|
      invariant forall key: LoadKey ::
        Get(loaded, key) == if key.interval in intervals[..i] then Grouped(keys, fetch, key) else []
    {
      var interval := intervals[i];
      assert interval !in intervals[..i];
      loaded := MapBack(fetch(buckets[interval], interval), interval, loaded);
      assert forall other :: other in intervals[..i + 1] <==> other in intervals[..i] || other == interval;
    }
    assert intervals[..|intervals|] == intervals;
  }

  /** Grouped loading gives at each position what fetching that key alone would. */
  method LoadMo(keys: seq<LoadKey>, fetch: Fetch) returns (r: seq<seq<Model>>)
    requires PerUuid(fetch)
    ensures |r| == |keys|
    ensures forall k :: 0 <= k < |keys| ==> r[k] == fetch([keys[k].uuid], keys[k].interval)
  {
    var intervals, buckets := BucketKeys(keys);
    var loaded := LoadBuckets(keys, intervals, buckets, fetch);
    forall k: nat | k < |keys|
      ensures Get(loaded, keys[k]) == fetch([keys[k].uuid], keys[k].interval)
    {
      GroupedIsAlone(keys, fetch, k);
    }
    r := seq(|keys|, k requires 0 <= k < |keys| => Get(loaded, keys[k]));
  }

  // ---- By UUID ----------------------------------------------------------

  /** The keys in the order in which they first occur. */
  function FirstSeen(keys: seq<LoadKey>): seq<LoadKey> {
    if keys == [] then []
    else
      var before, last := FirstSeen(keys[..|keys| - 1]), keys[|keys| - 1];
      if last in before then before else before + [last]
  }

  lemma {:induction false} FirstSeenHas(keys: seq<LoadKey>, key: LoadKey)
    ensures key in FirstSeen(keys) <==> key in keys
  {
    if keys != [] {
      FirstSeenHas(keys[..|keys| - 1], key);
      assert keys == keys[..|keys| - 1] + [keys[|keys| - 1]];
    }
  }

  method Deduplicate(keys: seq<LoadKey>) returns (r: seq<LoadKey>)
    ensures r == FirstSeen(keys) && Distinct(r)
  {
    r := [];
    for k := 0 to |keys|
      invariant r == FirstSeen(keys[..k]) && Distinct(r)
    {
      assert keys[..k + 1][..k] == keys[..k];
      if keys[k] !in r {
        DistinctMore(r, keys[k]);
        r := r + [keys[k]];
      }
    }
    assert keys[..|keys|] == keys;
  }

  /** What fetching the keys of one object alone gives: the last result, in this order
      of the keys, that is not empty. */
  function LastResult(keys: seq<LoadKey>, fetch: Fetch, uuid: string): seq<Model> {
    if keys == [] then []
    else
      var last := keys[|keys| - 1];
      var result := fetch([last.uuid], last.interval);
      if last.uuid == uuid && result != [] then result else LastResult(keys[..|keys| - 1], fetch, uuid)
  }

  /** There is none exactly if all of them are empty. */
  lemma {:induction false} LastResultNone(keys: seq<LoadKey>, fetch: Fetch, uuid: string)
    ensures LastResult(keys, fetch, uuid) == []
       <==> forall interval :: LoadKey(uuid, interval) in keys ==> fetch([uuid], interval) == []
  {
    if keys != [] {
      var last := keys[|keys| - 1];
      LastResultNone(keys[..|keys| - 1], fetch, uuid);
      assert keys == keys[..|keys| - 1] + [last];
      assert last == LoadKey(last.uuid, last.interval);
    }
  }

  /** Loading on top of that keeps exactly the objects with a non-empty result, and for
      an object asked for in several intervals the last such result. */
  method GetByUuid(keys: seq<LoadKey>, fetch: Fetch) returns (r: map<string, seq<Model>>)
    requires PerUuid(fetch)
    ensures forall uuid :: uuid in r <==>
      exists interval :: LoadKey(uuid, interval) in keys && fetch([uuid], interval) != []
    ensures forall uuid :: uuid in r ==> r[uuid] == LastResult(FirstSeen(keys), fetch, uuid)
  {
    var unique := Deduplicate(keys);
    var responses := LoadMo(unique, fetch);
    r := map[];
    for k := 0 to |unique|
      invariant forall uuid :: uuid in r <==> LastResult(unique[..k], fetch, uuid) != []
      invariant forall uuid :: uuid in r ==> r[uuid] == LastResult(unique[..k], fetch, uuid)
    {
      assert unique[..k + 1][..k] == unique[..k];
      if responses[k] != [] {
        r := r[unique[k].uuid := responses[k]];
      }
    }
    assert unique[..|unique|] == unique;
    forall uuid
      ensures uuid in r <==> exists interval :: LoadKey(uuid, interval) in keys && fetch([uuid], interval) != []
    {
      LastResultNone(unique, fetch, uuid);
      forall interval ensures LoadKey(uuid, interval) in unique <==> LoadKey(uuid, interval) in keys {
        FirstSeenHas(keys, LoadKey(uuid, interval));
      }
    }
  }

  /** Key `k` is the object's, its result is not empty, and all later ones are. */
  ghost predicate LastNonEmpty(keys: seq<LoadKey>, fetch: Fetch, uuid: string, k: int) {
    && 0 <= k < |keys| && keys[k].uuid == uuid && fetch([uuid], keys[k].interval) != []
    && forall j :: k < j < |keys| && keys[j].uuid == uuid ==> fetch([uuid], keys[j].interval) == []
  }

  /** The result kept is the last that is not empty. */
  lemma {:induction false} LastResultIs(keys: seq<LoadKey>, fetch: Fetch, uuid: string)
    requires LastResult(keys, fetch, uuid) != []
    ensures exists k :: LastNonEmpty(keys, fetch, uuid, k) && LastResult(keys, fetch, uuid) == fetch([uuid], keys[k].interval)
  {
    var n := |keys| - 1;
    if keys[n].uuid == uuid && fetch([uuid], keys[n].interval) != [] {
      assert LastNonEmpty(keys, fetch, uuid, n);
    } else {
      LastResultIs(keys[..n], fetch, uuid);
      var k :| LastNonEmpty(keys[..n], fetch, uuid, k)
        && LastResult(keys[..n], fetch, uuid) == fetch([uuid], keys[..n][k].interval);
      assert LastNonEmpty(keys, fetch, uuid, k);
    }
  }

  /** The first occurrences keep their order. */
  lemma {:induction false} FirstSeenInOrder(keys: seq<LoadKey>, i: nat, j: nat)
    requires i < j < |FirstSeen(keys)|
    ensures exists a :: && 0 <= a < |keys| && keys[a] == FirstSeen(keys)[i]
                        && FirstSeen(keys)[j] !in keys[..a + 1]
  {
    var n := |keys| - 1;
    var before := FirstSeen(keys[..n]);
    if j < |before| {
      FirstSeenInOrder(keys[..n], i, j);
      var a :| 0 <= a < n && keys[..n][a] == before[i] && before[j] !in keys[..n][..a + 1];
      assert keys[..n][..a + 1] == keys[..a + 1];
      assert keys[a] == FirstSeen(keys)[i];
    } else {
      assert before[i] in before;
      FirstSeenHas(keys[..n], before[i]);
      FirstSeenHas(keys[..n], keys[n]);
      var a :| 0 <= a < n && keys[..n][a] == before[i];
      assert keys[a] == FirstSeen(keys)[i];
      assert forall b :: 0 <= b <= a ==> keys[b] == keys[..n][b];
    }
  }
}
