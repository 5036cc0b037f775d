/** Many searches merged into one, and its results handed back to the searches
    they belong to. */
module Batching {
  import opened Prelude

  // ---- Objects and the values found in them ----------------------------------

  datatype Json = Leaf(text: string) | Dict(fields: seq<Member>) | List(items: seq<Json>)

  datatype Member = Member(name: string, value: Json)

  /** A component of a path: a key of a dictionary or an index into a list. */
  datatype Part = Key(name: string) | Index(i: nat)

  type Path = seq<Part>

  /** All leaves with their paths, in document order. */
  function Traverse(value: Json, path: Path): seq<(Path, string)>
    decreases value, 1
  {
    match value
    case Leaf(text) => [(path, text)]
    case Dict(fields) => TraverseFields(fields, path)
    case List(items) => TraverseItems(items, 0, path)
  }

  function TraverseFields(fields: seq<Member>, path: Path): seq<(Path, string)>
    decreases fields, 0
  {
    if fields == [] then []
    else Traverse(fields[0].value, path + [Key(fields[0].name)]) + TraverseFields(fields[1..], path)
  }

  function TraverseItems(items: seq<Json>, from: nat, path: Path): seq<(Path, string)>
    decreases items, 0
  {
    if items == [] then []
    else Traverse(items[0], path + [Index(from)]) + TraverseItems(items[1..], from + 1, path)
  }

  /** The last labelled component. */
  function LastLabel(path: Path): Option<string> {
    if path == [] then None
    else if path[|path| - 1].Key? then Some(path[|path| - 1].name)
    else LastLabel(path[..|path| - 1])
  }

  /** The parameter a leaf answers to: the last component of its path, with `id`
      standing for `uuid`, and the relation's name for the `uuid` of a relation. */
  function KeyForPath(path: Path): Option<string> {
    if path == [] || path[|path| - 1].Index? then None
    else
      var suffix := if path[|path| - 1].name == "id" then "uuid" else path[|path| - 1].name;
      var prefixes := path[..|path| - 1];
      if suffix == "uuid" && Key("relationer") in prefixes then LastLabel(prefixes) else Some(suffix)
  }

  datatype LoraObject = LoraObject(id: string, rest: seq<Member>)

  function Leaves(o: LoraObject): seq<(Path, string)> { TraverseFields([Member("id", Leaf(o.id))] + o.rest, []) }

  function ValuesIn(leaves: seq<(Path, string)>, key: string): set<string> {
    set i | 0 <= i < |leaves| && KeyForPath(leaves[i].0) == Some(key) :: leaves[i].1
  }

  /** The values an object has for a search parameter. */
  function ValuesFor(o: LoraObject, key: string): set<string> { ValuesIn(Leaves(o), key) }

  lemma FirstLeaf(o: LoraObject)
    ensures Leaves(o) != [] && Leaves(o)[0] == ([Key("id")], o.id)
  {
    var fields := [Member("id", Leaf(o.id))] + o.rest;
    FirstMember(fields, []);
    assert [] + [Key("id")] == [Key("id")];
    assert fields[0] == Member("id", Leaf(o.id));
    assert Traverse(Leaf(o.id), [Key("id")]) == [([Key("id")], o.id)];
  }

  /** An object always answers to its own id. */
  lemma IdIsValue(o: LoraObject)
    ensures o.id in ValuesFor(o, "uuid")
  {
    FirstLeaf(o);
    var path := [Key("id")];
    assert path[..|path| - 1] == [];
    assert KeyForPath(path) == Some("uuid");
  }

  lemma FirstMember(fields: seq<Member>, path: Path)
    requires fields != []
    ensures Traverse(fields[0].value, path + [Key(fields[0].name)]) <= TraverseFields(fields, path)
  {}

  // ---- Searching ---------------------------------------------------------

  /** The parameter values of one call, one set for each key. */
  type Params = seq<set<string>>

  predicate Answers(o: LoraObject, key: string, values: set<string>) { ValuesFor(o, key) * values != {} }

  /** The object matches the call on every key, by any of the values. */
  predicate MatchesCall(o: LoraObject, keys: seq<string>, params: Params)
    requires |params| == |keys|
  {
    forall k :: 0 <= k < |keys| ==> Answers(o, keys[k], params[k])
  }

  function SearchCall(store: seq<LoraObject>, keys: seq<string>, params: Params): seq<LoraObject>
    requires |params| == |keys|
  {
    if store == [] then []
    else (if MatchesCall(store[0], keys, params) then [store[0]] else []) + SearchCall(store[1..], keys, params)
  }

  predicate MatchesGroup(o: LoraObject, grouped: map<string, set<string>>) {
    forall key :: key in grouped ==> Answers(o, key, grouped[key])
  }

  function SearchIds(store: seq<LoraObject>, grouped: map<string, set<string>>): set<string> {
    set i | 0 <= i < |store| && MatchesGroup(store[i], grouped) :: store[i].id
  }

  /** Fetching objects in full, in the order of the store. */
  function FetchByIds(store: seq<LoraObject>, ids: set<string>): (r: seq<LoraObject>)
    ensures forall o :: o in r ==> o in store && o.id in ids
  {
    if store == [] then []
    else (if store[0].id in ids then [store[0]] else []) + FetchByIds(store[1..], ids)
  }

  /** What a call gets if it is the only one: objects by their ids if that is the
      only parameter, else those found by a search. */
  function LoadAlone(store: seq<LoraObject>, keys: seq<string>, params: Params): seq<LoraObject>
    requires |params| == |keys|
  {
    if keys == ["uuid"] then FetchByIds(store, params[0]) else SearchCall(store, keys, params)
  }

  /** Ids are unique, and an object's id is its only value for `uuid`. */
  ghost predicate StoreOk(store: seq<LoraObject>) {
    && (forall i, j :: 0 <= i < j < |store| ==> store[i].id != store[j].id)
    && (forall i :: 0 <= i < |store| ==> ValuesFor(store[i], "uuid") == {store[i].id})
  }

  /** Calls in one batch: the keys are distinct, every call gives a non-empty set of
      values for each key, and there is a call. */
  ghost predicate BatchOk(keys: seq<string>, calls: seq<Params>) {
    && (forall i, j :: 0 <= i < j < |keys| ==> keys[i] != keys[j])
    && calls != [] && (forall c :: 0 <= c < |calls| ==> |calls[c]| == |keys|)
    && (forall c, k :: 0 <= c < |calls| && 0 <= k < |keys| ==> calls[c][k] != {})
  }

  // ---- Merging the parameters ----------------------------------------------

  /** One of the first `n` calls asks for this value of this key. */
  ghost predicate Asked(keys: seq<string>, calls: seq<Params>, key: string, value: string) {
    exists c, k :: 0 <= c < |calls| && Asks(keys, calls[c], k, key, value)
  }

  ghost predicate Asks(keys: seq<string>, params: Params, k: int, key: string, value: string) {
    0 <= k < |keys| && k < |params| && keys[k] == key && value in params[k]
  }

  method GroupParams(keys: seq<string>, calls: seq<Params>) returns (grouped: map<string, set<string>>)
    requires BatchOk(keys, calls)
    ensures grouped.Keys == Elements(keys)
    ensures forall key, value :: key in grouped ==> (value in grouped[key] <==> Asked(keys, calls, key, value))
  {
    grouped := map[];
    for c := 0 to |calls|
      invariant grouped.Keys == if c == 0 then {} else Elements(keys)
      invariant forall key, value :: key in grouped ==> (value in grouped[key] <==> Asked(keys, calls[..c], key, value))
    {
      var more := GroupCall(keys, calls[c], grouped);
      forall key, value | key in more
        ensures value in more[key] <==> Asked(keys, calls[..c + 1], key, value)
      {
        AskedMore(keys, calls, c, key, value);
      }
      grouped := more;
    }
    assert calls[..|calls|] == calls;
  }

  lemma AskedMore(keys: seq<string>, calls: seq<Params>, c: nat, key: string, value: string)
    requires c < |calls|
    ensures Asked(keys, calls[..c + 1], key, value)
       <==> Asked(keys, calls[..c], key, value) || exists k :: Asks(keys, calls[c], k, key, value)
  {
    var now, next := calls[..c], calls[..c + 1];
    if Asked(keys, now, key, value) {
      var d, k :| 0 <= d < |now| && Asks(keys, now[d], k, key, value);
      assert next[d] == now[d];
    }
    if k :| Asks(keys, calls[c], k, key, value) {
      assert Asks(keys, next[c], k, key, value);
    }
    if Asked(keys, next, key, value) {
      var d, k :| 0 <= d < |next| && Asks(keys, next[d], k, key, value);
      if d < c {
        assert Asks(keys, now[d], k, key, value);
      }
    }
  }

  method GroupCall(keys: seq<string>, params: Params, grouped: map<string, set<string>>)
      returns (more: map<string, set<string>>)
    requires |params| == |keys|
    ensures more.Keys == grouped.Keys + Elements(keys)
    ensures forall key, value :: key in more ==>
      (value in more[key] <==> (key in grouped && value in grouped[key]) || exists k :: Asks(keys, params, k, key, value))
  {
    more := grouped;
    for i := 0 to |keys|
      invariant more.Keys == grouped.Keys + Elements(keys[..i])
      invariant forall key, value :: key in more ==>
        (value in more[key] <==> (key in grouped && value in grouped[key]) || exists k :: k < i && Asks(keys, params, k, key, value))
    {
      ElementsMore(keys, i);
      ghost var before := more;
      more := more[keys[i] := (if keys[i] in more then more[keys[i]] else {}) + params[i]];
      forall key, value | key in more
        ensures value in more[key] <==>
          (key in grouped && value in grouped[key]) || exists k :: k < i + 1 && Asks(keys, params, k, key, value)
      {
        if key == keys[i] && value in params[i] {
          assert Asks(keys, params, i, key, value);
        }
        assert forall k :: 0 <= k < i ==> keys[..i][k] == keys[k] && keys[k] in before;
      }
    }
    assert keys[..|keys|] == keys;
  }

  // ---- The inverted index ----------------------------------------------------

  /** Call numbers by parameter key and value. */
  type CallIndex = map<(string, string), set<nat>>

  function Lookup(index: CallIndex, key: string, value: string): set<nat> {
    if (key, value) in index then index[(key, value)] else {}
  }

  ghost predicate IndexedCall(keys: seq<string>, calls: seq<Params>, key: string, value: string, c: nat) {
    c < |calls| && exists k :: Asks(keys, calls[c], k, key, value)
  }

  method IndexCalls(keys: seq<string>, calls: seq<Params>) returns (index: CallIndex)
    requires forall c :: 0 <= c < |calls| ==> |calls[c]| == |keys|
    ensures forall key, value, c: nat :: c in Lookup(index, key, value) <==> IndexedCall(keys, calls, key, value, c)
  {
    index := map[];
    for i := 0 to |calls|
      invariant forall key, value, c: nat :: c in Lookup(index, key, value) <==> c < i && IndexedCall(keys, calls, key, value, c)
    {
      index := IndexCall(keys, calls[i], i, index);
    }
  }

  method IndexCall(keys: seq<string>, params: Params, c: nat, index: CallIndex) returns (more: CallIndex)
    requires |params| == |keys|
    ensures forall key, value, d: nat :: d in Lookup(more, key, value) <==>
      d in Lookup(index, key, value) || (d == c && exists k :: Asks(keys, params, k, key, value))
  {
    more := index;
    for i := 0 to |keys|
      invariant forall key, value, d: nat :: d in Lookup(more, key, value) <==>
        d in Lookup(index, key, value) || (d == c && exists k :: k < i && Asks(keys, params, k, key, value))
    {
      more := IndexValues(keys[i], params[i], c, more);
      assert forall value :: value in params[i] ==> Asks(keys, params, i, keys[i], value);
    }
  }

  method IndexValues(key: string, values: set<string>, c: nat, index: CallIndex) returns (more: CallIndex)
    ensures forall key', value, d: nat :: d in Lookup(more, key', value) <==>
      d in Lookup(index, key', value) || (d == c && key' == key && value in values)
  {
    more := index;
    var todo := values;
    while todo != {}
      invariant todo <= values
      invariant forall key', value, d: nat :: d in Lookup(more, key', value) <==>
        d in Lookup(index, key', value) || (d == c && key' == key && value in values && value !in todo)
      decreases |todo|
    {
      var next :| next in todo;
      todo := todo - {next};
      more := AddToIndex(more, key, next, c);
    }
  }

  function AddToIndex(index: CallIndex, key: string, value: string, c: nat): (more: CallIndex)
    ensures forall key', value', d: nat :: d in Lookup(more, key', value') <==>
      d in Lookup(index, key', value') || (d == c && key' == key && value' == value)
  {
    index[(key, value) := Lookup(index, key, value) + {c}]
  }

  // ---- Handing the results back ---------------------------------------------

  /** The call asks for one of the values. */
  ghost predicate WantedFor(index: CallIndex, values: set<string>, key: string, c: nat) {
    exists value :: value in values && c in Lookup(index, key, value)
  }

  /** One key's part: it occurs if the leaves have a value for it, with the calls
      that ask for one of the values. */
  ghost predicate CallsFor(index: CallIndex, leaves: seq<(Path, string)>, keys: seq<string>,
                           byKey: map<string, set<nat>>, key: string)
  {
    && (key in byKey <==> key in keys && ValuesIn(leaves, key) != {})
    && (key in byKey ==> forall c: nat :: c in byKey[key] <==> WantedFor(index, ValuesIn(leaves, key), key, c))
  }

  /** The calls that ask for any of the object's values, key by key; only keys for
      which the object has a value occur. */
  method CallsByKey(index: CallIndex, o: LoraObject, keys: seq<string>) returns (byKey: map<string, set<nat>>)
    ensures forall key :: CallsFor(index, Leaves(o), keys, byKey, key)
  {
    byKey := map[];
    var leaves := Leaves(o);
    for i := 0 to |leaves|
      invariant forall key :: CallsFor(index, leaves[..i], keys, byKey, key)
    {
      var key := KeyForPath(leaves[i].0);
      ghost var before, read := byKey, leaves[..i + 1];
      if key.Some? && key.value in keys {
        var calls := if key.value in byKey then byKey[key.value] else {};
        byKey := byKey[key.value := calls + Lookup(index, key.value, leaves[i].1)];
      }
      forall other
        ensures CallsFor(index, read, keys, byKey, other)
      {
        CallsForMore(index, leaves, i, keys, before, byKey, other);
      }
    }
    assert leaves[..|leaves|] == leaves;
  }

  lemma CallsForMore(index: CallIndex, leaves: seq<(Path, string)>, i: nat, keys: seq<string>,
                     byKey: map<string, set<nat>>, more: map<string, set<nat>>, key: string)
    requires i < |leaves| && CallsFor(index, leaves[..i], keys, byKey, key)
    requires if KeyForPath(leaves[i].0) == Some(key) && key in keys then
               && key in more
               && more[key] == (if key in byKey then byKey[key] else {}) + Lookup(index, key, leaves[i].1)
             else
               (key in more <==> key in byKey) && (key in more ==> more[key] == byKey[key])
    ensures CallsFor(index, leaves[..i + 1], keys, more, key)
  {
    ValuesInMore(leaves, i, key);
    if KeyForPath(leaves[i].0) == Some(key) {
      WantedMore(index, ValuesIn(leaves[..i], key), leaves[i].1, key);
    }
  }

  lemma WantedMore(index: CallIndex, values: set<string>, value: string, key: string)
    ensures forall c: nat :: WantedFor(index, values + {value}, key, c)
                        <==> WantedFor(index, values, key, c) || c in Lookup(index, key, value)
  {
    forall c: nat
      ensures WantedFor(index, values + {value}, key, c) <==> WantedFor(index, values, key, c) || c in Lookup(index, key, value)
    {
      if WantedFor(index, values, key, c) {
        var v :| v in values && c in Lookup(index, key, v);
        assert v in values + {value};
      }
      if c in Lookup(index, key, value) {
        assert value in values + {value};
      }
    }
  }

  lemma ValuesInMore(leaves: seq<(Path, string)>, i: nat, key: string)
    requires i < |leaves|
    ensures ValuesIn(leaves[..i + 1], key)
         == ValuesIn(leaves[..i], key) + if KeyForPath(leaves[i].0) == Some(key) then {leaves[i].1} else {}
  {
    var now, next := leaves[..i], leaves[..i + 1];
    assert next[i] == leaves[i] && forall j :: 0 <= j < i ==> next[j] == now[j];
    forall v | v in ValuesIn(now, key)
      ensures v in ValuesIn(next, key)
    {
      var j :| 0 <= j < |now| && KeyForPath(now[j].0) == Some(key) && now[j].1 == v;
      assert next[j] == now[j];
    }
    forall v | v in ValuesIn(next, key)
      ensures v in ValuesIn(now, key) || (KeyForPath(leaves[i].0) == Some(key) && v == leaves[i].1)
    {
      var j :| 0 <= j < |next| && KeyForPath(next[j].0) == Some(key) && next[j].1 == v;
    }
  }

  /** The intersection over the keys the object has values for. */
  method IntersectAll(byKey: map<string, set<nat>>) returns (calls: set<nat>)
    requires byKey != map[]
    ensures forall c :: c in calls <==> forall key :: key in byKey ==> c in byKey[key]
  {
    var first :| first in byKey;
    calls := byKey[first];
    var todo := byKey.Keys - {first};
    while todo != {}
      invariant todo <= byKey.Keys
      invariant forall c :: c in calls <==> forall key :: key in byKey && key !in todo ==> c in byKey[key]
      decreases |todo|
    {
      var key :| key in todo;
      todo := todo - {key};
      calls := calls * byKey[key];
    }
  }

  lemma WantedIsAnswered(index: CallIndex, keys: seq<string>, calls: seq<Params>, o: LoraObject, k: nat, c: nat)
    requires BatchOk(keys, calls) && k < |keys| && c < |calls|
    requires forall key, value, d: nat :: d in Lookup(index, key, value) <==> IndexedCall(keys, calls, key, value, d)
    ensures WantedFor(index, ValuesFor(o, keys[k]), keys[k], c) <==> Answers(o, keys[k], calls[c][k])
  {
    if WantedFor(index, ValuesFor(o, keys[k]), keys[k], c) {
      var value :| value in ValuesFor(o, keys[k]) && c in Lookup(index, keys[k], value);
      var j :| Asks(keys, calls[c], j, keys[k], value);
      assert value in ValuesFor(o, keys[k]) * calls[c][k];
    }
    if Answers(o, keys[k], calls[c][k]) {
      var value :| value in ValuesFor(o, keys[k]) * calls[c][k];
      assert Asks(keys, calls[c], k, keys[k], value);
    }
  }

  /** The calls an object belongs to. It has a value for every key, because it was
      found by the merged search. */
  method MatchingCalls(index: CallIndex, keys: seq<string>, ghost calls: seq<Params>, o: LoraObject) returns (r: set<nat>)
    requires BatchOk(keys, calls) && keys != []
    requires forall key, value, d: nat :: d in Lookup(index, key, value) <==> IndexedCall(keys, calls, key, value, d)
    requires forall k :: 0 <= k < |keys| ==> ValuesFor(o, keys[k]) != {}
    ensures forall c: nat :: c in r <==> c < |calls| && MatchesCall(o, keys, calls[c])
  {
    var byKey := CallsByKey(index, o, keys);
    forall key
      ensures key in byKey <==> key in keys && ValuesFor(o, key) != {}
      ensures key in byKey ==> forall c: nat :: c in byKey[key] <==> WantedFor(index, ValuesFor(o, key), key, c)
    {
      assert CallsFor(index, Leaves(o), keys, byKey, key);
    }
    assert keys[0] in byKey;
    r := IntersectAll(byKey);
    forall c: nat
      ensures c in r <==> c < |calls| && MatchesCall(o, keys, calls[c])
    {
      if c in r {
        assert WantedFor(index, ValuesFor(o, keys[0]), keys[0], c);
        assert c < |calls|;
      }
      if c < |calls| {
        forall k: nat | k < |keys|
          ensures keys[k] in byKey && (c in byKey[keys[k]] <==> Answers(o, keys[k], calls[c][k]))
        {
          WantedIsAnswered(index, keys, calls, o, k, c);
        }
        assert forall key :: key in byKey ==> key in keys;
      }
    }
  }

  /** Appends the object to the results of the given calls. */
  method AppendTo(results: seq<seq<LoraObject>>, calls: set<nat>, o: LoraObject) returns (r: seq<seq<LoraObject>>)
    requires forall c :: c in calls ==> c < |results|
    ensures |r| == |results|
    ensures forall c :: 0 <= c < |r| ==> r[c] == results[c] + if c in calls then [o] else []
  {
    r := results;
    var todo := calls;
    while todo != {}
      invariant todo <= calls && |r| == |results|
      invariant forall c :: 0 <= c < |r| ==> r[c] == results[c] + if c in calls - todo then [o] else []
      decreases |todo|
    {
      var call :| call in todo;
      todo := todo - {call};
      r := r[call := r[call] + [o]];
    }
  }

  lemma {:induction false} SearchMore(store: seq<LoraObject>, o: LoraObject, keys: seq<string>, params: Params)
    requires |params| == |keys|
    ensures SearchCall(store + [o], keys, params)
         == SearchCall(store, keys, params) + if MatchesCall(o, keys, params) then [o] else []
  {
    if store == [] {
      assert [o][1..] == [];
    } else {
      assert (store + [o])[1..] == store[1..] + [o];
      SearchMore(store[1..], o, keys, params);
    }
  }

  ghost predicate Handed(r: seq<seq<LoraObject>>, found: seq<LoraObject>, keys: seq<string>, calls: seq<Params>)
    requires BatchOk(keys, calls)
  {
    |r| == |calls| && forall c :: 0 <= c < |calls| ==> r[c] == SearchCall(found, keys, calls[c])
  }

  lemma HandedMore(r: seq<seq<LoraObject>>, more: seq<seq<LoraObject>>, found: seq<LoraObject>, i: nat,
                   keys: seq<string>, calls: seq<Params>)
    requires BatchOk(keys, calls) && i < |found| && Handed(r, found[..i], keys, calls) && |more| == |calls|
    requires forall c :: 0 <= c < |calls| ==> more[c] == r[c] + if MatchesCall(found[i], keys, calls[c]) then [found[i]] else []
    ensures Handed(more, found[..i + 1], keys, calls)
  {
    assert found[..i + 1] == found[..i] + [found[i]];
    forall c | 0 <= c < |calls|
      ensures more[c] == SearchCall(found[..i + 1], keys, calls[c])
    {
      SearchMore(found[..i], found[i], keys, calls[c]);
    }
  }

  method Distribute(found: seq<LoraObject>, keys: seq<string>, calls: seq<Params>) returns (r: seq<seq<LoraObject>>)
    requires BatchOk(keys, calls) && keys != []
    requires forall o, k :: o in found && 0 <= k < |keys| ==> ValuesFor(o, keys[k]) != {}
    ensures |r| == |calls| && forall c :: 0 <= c < |calls| ==> r[c] == SearchCall(found, keys, calls[c])
  {
    var index := IndexCalls(keys, calls);
    r := seq(|calls|, _ => []);
    for i := 0 to |found|
      invariant Handed(r, found[..i], keys, calls)
    {
      assert found[i] in found;
      var matching := MatchingCalls(index, keys, calls, found[i]);
      ghost var before := r;
      r := AppendTo(r, matching, found[i]);
      HandedMore(before, r, found, i, keys, calls);
    }
    assert found[..|found|] == found;
  }

  // ---- The batch gives every call what it would get alone ------------------------

  lemma {:induction false} SearchInFetched(store: seq<LoraObject>, ids: set<string>, keys: seq<string>, params: Params)
    requires |params| == |keys|
    requires forall o :: o in store && MatchesCall(o, keys, params) ==> o.id in ids
    ensures SearchCall(FetchByIds(store, ids), keys, params) == SearchCall(store, keys, params)
  {
    if store != [] {
      assert store[0] in store;
      SearchInFetched(store[1..], ids, keys, params);
      if store[0].id in ids {
        var found := FetchByIds(store, ids);
        assert found == [store[0]] + FetchByIds(store[1..], ids);
        assert found[0] == store[0] && found[1..] == FetchByIds(store[1..], ids);
        assert SearchCall(found, keys, params)
            == (if MatchesCall(store[0], keys, params) then [store[0]] else []) + SearchCall(found[1..], keys, params);
      } else {
        assert SearchCall(store, keys, params) == SearchCall(store[1..], keys, params);
        assert FetchByIds(store, ids) == FetchByIds(store[1..], ids);
      }
    }
  }

  lemma {:induction false} SearchByUuid(store: seq<LoraObject>, params: Params)
    requires |params| == 1 && forall i :: 0 <= i < |store| ==> ValuesFor(store[i], "uuid") == {store[i].id}
    ensures SearchCall(store, ["uuid"], params) == FetchByIds(store, params[0])
  {
    if store != [] {
      SearchByUuid(store[1..], params);
      assert ValuesFor(store[0], "uuid") == {store[0].id};
      assert store[0].id in params[0] ==> store[0].id in {store[0].id} * params[0];
      assert Answers(store[0], "uuid", params[0]) <==> store[0].id in params[0];
      assert MatchesCall(store[0], ["uuid"], params) <==> Answers(store[0], "uuid", params[0]);
    }
  }

  lemma MatchesMerged(keys: seq<string>, calls: seq<Params>, grouped: map<string, set<string>>, o: LoraObject, c: nat)
    requires BatchOk(keys, calls) && c < |calls| && grouped.Keys == Elements(keys)
    requires forall key, value :: key in grouped ==> (value in grouped[key] <==> Asked(keys, calls, key, value))
    requires MatchesCall(o, keys, calls[c])
    ensures MatchesGroup(o, grouped)
  {
    forall key | key in grouped
      ensures Answers(o, key, grouped[key])
    {
      var k :| 0 <= k < |keys| && keys[k] == key;
      assert Answers(o, keys[k], calls[c][k]);
      var value :| value in ValuesFor(o, key) * calls[c][k];
      assert Asks(keys, calls[c], k, key, value);
      assert value in ValuesFor(o, key) * grouped[key];
    }
  }

  /** The ids to fetch: found by the merged search, or given if there is no other key. */
  method IdsToFetch(store: seq<LoraObject>, keys: seq<string>, calls: seq<Params>) returns (ids: set<string>)
    requires StoreOk(store) && BatchOk(keys, calls)
    ensures forall o, c :: o in store && 0 <= c < |calls| && MatchesCall(o, keys, calls[c]) ==> o.id in ids
    ensures forall o, k :: o in store && o.id in ids && 0 <= k < |keys| ==> ValuesFor(o, keys[k]) != {}
    ensures keys == [] ==> forall o :: o in store ==> o.id in ids
  {
    var grouped := GroupParams(keys, calls);
    forall o, c: nat | o in store && c < |calls| && MatchesCall(o, keys, calls[c])
      ensures MatchesGroup(o, grouped)
    {
      MatchesMerged(keys, calls, grouped, o, c);
    }
    if grouped.Keys == {"uuid"} {
      ids := grouped["uuid"];
      forall o | o in store && MatchesGroup(o, grouped)
        ensures o.id in ids
      {
        assert Answers(o, "uuid", grouped["uuid"]) && ValuesFor(o, "uuid") == {o.id};
      }
      forall o, k | o in store && 0 <= k < |keys|
        ensures ValuesFor(o, keys[k]) != {}
      {
        assert keys[k] in grouped;
        IdIsValue(o);
      }
    } else {
      ids := SearchIds(store, grouped);
      forall o, k | o in store && o.id in ids && 0 <= k < |keys|
        ensures ValuesFor(o, keys[k]) != {}
      {
        var i :| 0 <= i < |store| && MatchesGroup(store[i], grouped) && store[i].id == o.id;
        var j :| 0 <= j < |store| && store[j] == o;
        assert i == j && keys[k] in grouped;
        assert Answers(o, keys[k], grouped[keys[k]]);
      }
    }
  }

  /** The batched load refines single loads: every call gets, in store order, exactly
      what it would have got alone. Without any keys every call gets everything. */
  method LoadLoads(store: seq<LoraObject>, keys: seq<string>, calls: seq<Params>) returns (r: seq<seq<LoraObject>>)
    requires StoreOk(store) && BatchOk(keys, calls)
    ensures |r| == |calls| && forall c :: 0 <= c < |calls| ==> r[c] == LoadAlone(store, keys, calls[c])
  {
    var ids := IdsToFetch(store, keys, calls);
    var found := FetchByIds(store, ids);
    forall c | 0 <= c < |calls|
      ensures SearchCall(found, keys, calls[c]) == LoadAlone(store, keys, calls[c])
    {
      SearchInFetched(store, ids, keys, calls[c]);
      if keys == ["uuid"] {
        SearchByUuid(store, calls[c]);
      }
    }
    if keys == [] {
      SearchNothing(found);
      r := seq(|calls|, _ => found);
    } else {
      r := Distribute(found, keys, calls);
    }
  }

  lemma {:induction false} SearchNothing(store: seq<LoraObject>)
    ensures SearchCall(store, [], []) == store
  {
    if store != [] {
      SearchNothing(store[1..]);
    }
  }
}
