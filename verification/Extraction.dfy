/** Which parameters an object answers to, told from the object itself. */
module Extraction {
  import opened Prelude
  import opened Batching

  /** Following the path into the document leads to the leaf. */
  predicate LeadsTo(value: Json, path: Path, text: string)
    decreases |path|
  {
    if path == [] then value == Leaf(text)
    else match (path[0], value)
         case (Key(name), Dict(fields)) =>
           exists i :: 0 <= i < |fields| && fields[i].name == name && LeadsTo(fields[i].value, path[1..], text)
         case (Index(i), List(items)) => i < |items| && LeadsTo(items[i], path[1..], text)
         case _ => false
  }

  /** The object as one dictionary. */
  function Document(o: LoraObject): Json { Dict([Member("id", Leaf(o.id))] + o.rest) }

  // ---- The traversal yields just the leaves --------------------------------------

  predicate Below(leaves: seq<(Path, string)>, path: Path) { forall l :: l in leaves ==> path <= l.0 }

  lemma {:induction false} TraverseBelow(value: Json, path: Path)
    ensures Below(Traverse(value, path), path)
    decreases value, 1
  {
    match value
    case Leaf(_) =>
    case Dict(fields) => FieldsBelow(fields, path);
    case List(items) => ItemsBelow(items, 0, path);
  }

  lemma {:induction false} FieldsBelow(fields: seq<Member>, path: Path)
    ensures Below(TraverseFields(fields, path), path)
    decreases fields, 0
  {
    if fields != [] {
      TraverseBelow(fields[0].value, path + [Key(fields[0].name)]);
      FieldsBelow(fields[1..], path);
    }
  }

  lemma {:induction false} ItemsBelow(items: seq<Json>, from: nat, path: Path)
    ensures Below(TraverseItems(items, from, path), path)
    decreases items, 0
  {
    if items != [] {
      TraverseBelow(items[0], path + [Index(from)]);
      ItemsBelow(items[1..], from + 1, path);
    }
  }

  lemma {:induction false} TraverseIs(value: Json, path: Path, q: Path, text: string)
    ensures (path + q, text) in Traverse(value, path) <==> LeadsTo(value, q, text)
    decreases value, 1
  {
    match value
    case Leaf(t) => assert path + q == path <==> q == [];
    case Dict(fields) =>
      FieldsAre(fields, path, q, text);
    case List(items) =>
      ItemsAre(items, 0, path, q, text);
  }

  /** A path through one component continues below it. */
  lemma Through(leaves: seq<(Path, string)>, path: Path, part: Part, q: Path, text: string)
    requires Below(leaves, path + [part]) && (path + q, text) in leaves
    ensures q != [] && q[0] == part && path + q == path + [part] + q[1..]
  {
    assert path + [part] <= path + q;
    assert (path + [part])[|path|] == part && (path + q)[|path|] == part;
  }

  ghost predicate AmongFields(fields: seq<Member>, q: Path, text: string) {
    q != [] && q[0].Key? && exists i :: 0 <= i < |fields| && fields[i].name == q[0].name && LeadsTo(fields[i].value, q[1..], text)
  }

  lemma {:induction false} FieldsAre(fields: seq<Member>, path: Path, q: Path, text: string)
    ensures (path + q, text) in TraverseFields(fields, path) <==> AmongFields(fields, q, text)
    decreases fields, 0
  {
    if fields != [] {
      FieldsAre(fields[1..], path, q, text);
      FirstFieldIs(fields, path, q, text);
      FieldsSplit(fields, q, text);
    }
  }

  lemma {:induction false} FirstFieldIs(fields: seq<Member>, path: Path, q: Path, text: string)
    requires fields != []
    ensures (path + q, text) in Traverse(fields[0].value, path + [Key(fields[0].name)])
       <==> q != [] && q[0] == Key(fields[0].name) && LeadsTo(fields[0].value, q[1..], text)
    decreases fields, 0, 0
  {
    var part := Key(fields[0].name);
    var leaves := Traverse(fields[0].value, path + [part]);
    TraverseBelow(fields[0].value, path + [part]);
    if (path + q, text) in leaves {
      Through(leaves, path, part, q, text);
    }
    if q != [] && q[0] == part {
      assert path + q == path + [part] + q[1..];
      TraverseIs(fields[0].value, path + [part], q[1..], text);
    }
  }

  lemma FieldsSplit(fields: seq<Member>, q: Path, text: string)
    requires fields != []
    ensures AmongFields(fields, q, text) <==>
      || (q != [] && q[0] == Key(fields[0].name) && LeadsTo(fields[0].value, q[1..], text))
      || AmongFields(fields[1..], q, text)
  {
    if AmongFields(fields, q, text) {
      var i :| 0 <= i < |fields| && fields[i].name == q[0].name && LeadsTo(fields[i].value, q[1..], text);
      assert i > 0 ==> fields[1..][i - 1] == fields[i];
    }
    if AmongFields(fields[1..], q, text) {
      var i :| 0 <= i < |fields| - 1 && fields[1..][i].name == q[0].name && LeadsTo(fields[1..][i].value, q[1..], text);
      assert fields[1..][i] == fields[i + 1];
    }
  }

  lemma {:induction false} ItemsAre(items: seq<Json>, from: nat, path: Path, q: Path, text: string)
    ensures (path + q, text) in TraverseItems(items, from, path) <==>
      q != [] && q[0].Index? && from <= q[0].i < from + |items| && LeadsTo(items[q[0].i - from], q[1..], text)
    decreases items, 0
  {
    if items != [] {
      ItemsAre(items[1..], from + 1, path, q, text);
      FirstItemIs(items, from, path, q, text);
    }
  }

  lemma {:induction false} FirstItemIs(items: seq<Json>, from: nat, path: Path, q: Path, text: string)
    requires items != []
    ensures (path + q, text) in Traverse(items[0], path + [Index(from)])
       <==> q != [] && q[0] == Index(from) && LeadsTo(items[0], q[1..], text)
    decreases items, 0, 0
  {
    var part := Index(from);
    var leaves := Traverse(items[0], path + [part]);
    TraverseBelow(items[0], path + [part]);
    if (path + q, text) in leaves {
      Through(leaves, path, part, q, text);
    }
    if q != [] && q[0] == part {
      assert path + q == path + [part] + q[1..];
      TraverseIs(items[0], path + [part], q[1..], text);
    }
  }

  /** The leaves traversed are those of the document, with their paths. */
  lemma LeavesAre(o: LoraObject, path: Path, text: string)
    ensures (path, text) in Leaves(o) <==> LeadsTo(Document(o), path, text)
  {
    assert [] + path == path;
    TraverseIs(Document(o), [], path, text);
  }

  // ---- The parameter a path answers to ------------------------------------------

  predicate AllIndices(p: Path) { forall i :: 0 <= i < |p| ==> p[i].Index? }

  lemma {:induction false} LastLabelIs(p: Path, n: string, idx: Path)
    requires AllIndices(idx)
    ensures LastLabel(p + [Key(n)] + idx) == Some(n)
  {
    var path := p + [Key(n)] + idx;
    if idx == [] {
      assert path[|path| - 1] == Key(n);
    } else {
      assert path[|path| - 1] == idx[|idx| - 1];
      assert path[..|path| - 1] == p + [Key(n)] + idx[..|idx| - 1];
      LastLabelIs(p, n, idx[..|idx| - 1]);
    }
  }

  /** The path ends in the uuid or id of a relation named `n`. */
  ghost predicate IsRelation(path: Path, p: Path, n: string, idx: Path, suffix: string) {
    && path == p + [Key(n)] + idx + [Key(suffix)] && (suffix == "uuid" || suffix == "id")
    && AllIndices(idx) && Key("relationer") in p + [Key(n)]
  }

  lemma RelationKey(path: Path, p: Path, n: string, idx: Path, suffix: string)
    requires IsRelation(path, p, n, idx, suffix)
    ensures KeyForPath(path) == Some(n)
  {
    assert path[|path| - 1] == Key(suffix) && path[..|path| - 1] == p + [Key(n)] + idx;
    LastLabelIs(p, n, idx);
  }

  /** The path ends in a label that is not the uuid or id of a relation. */
  ghost predicate IsPlain(path: Path, p: Path, suffix: string) {
    path == p + [Key(suffix)] && !((suffix == "uuid" || suffix == "id") && Key("relationer") in p)
  }

  lemma PlainKey(path: Path, p: Path, suffix: string)
    requires IsPlain(path, p, suffix)
    ensures KeyForPath(path) == Some(if suffix == "id" then "uuid" else suffix)
  {
    assert path[|path| - 1] == Key(suffix) && path[..|path| - 1] == p;
  }

  /** A path with a label ends in one followed by indices. */
  lemma {:induction false} LastLabelAt(path: Path, part: Part) returns (p: Path, n: string, idx: Path)
    requires part in path && part.Key?
    ensures path == p + [Key(n)] + idx && AllIndices(idx) && part in p + [Key(n)]
  {
    var last := path[|path| - 1];
    assert path == path[..|path| - 1] + [last];
    if last.Key? {
      p, n, idx := path[..|path| - 1], last.name, [];
    } else {
      p, n, idx := LastLabelAt(path[..|path| - 1], part);
      idx := idx + [last];
    }
  }

  /** What an object answers to, for every parameter: the uuid or id of a relation to
      the relation's name, the nearest label before it; every other leaf that ends in
      a label to that label, with id read as uuid; a leaf that ends in an index to
      nothing. */
  lemma ValuesForAre(o: LoraObject, key: string, text: string)
    ensures text in ValuesFor(o, key) <==>
      || (exists path, p, idx, suffix :: IsRelation(path, p, key, idx, suffix) && LeadsTo(Document(o), path, text))
      || (exists path, p, suffix ::
            IsPlain(path, p, suffix) && LeadsTo(Document(o), path, text) && key == if suffix == "id" then "uuid" else suffix)
  {
    if text in ValuesFor(o, key) {
      var i :| 0 <= i < |Leaves(o)| && KeyForPath(Leaves(o)[i].0) == Some(key) && Leaves(o)[i].1 == text;
      var path := Leaves(o)[i].0;
      assert (path, text) in Leaves(o);
      LeavesAre(o, path, text);
      KeyIsOneOf(path, key);
    }
    if path, p, idx, suffix :| IsRelation(path, p, key, idx, suffix) && LeadsTo(Document(o), path, text) {
      RelationKey(path, p, key, idx, suffix);
      KeyedLeaf(o, path, key, text);
    }
    if path, p, suffix :|
      IsPlain(path, p, suffix) && LeadsTo(Document(o), path, text) && key == if suffix == "id" then "uuid" else suffix
    {
      PlainKey(path, p, suffix);
      KeyedLeaf(o, path, key, text);
    }
  }

  lemma KeyedLeaf(o: LoraObject, path: Path, key: string, text: string)
    requires LeadsTo(Document(o), path, text) && KeyForPath(path) == Some(key)
    ensures text in ValuesFor(o, key)
  {
    LeavesAre(o, path, text);
    var i :| 0 <= i < |Leaves(o)| && Leaves(o)[i] == (path, text);
    assert KeyForPath(Leaves(o)[i].0) == Some(key) && Leaves(o)[i].1 == text;
  }

  lemma KeyIsOneOf(path: Path, key: string)
    requires KeyForPath(path) == Some(key)
    ensures || (exists p, idx, suffix :: IsRelation(path, p, key, idx, suffix))
            || (exists p, suffix :: IsPlain(path, p, suffix) && key == if suffix == "id" then "uuid" else suffix)
  {
    var p0, suffix := path[..|path| - 1], path[|path| - 1].name;
    assert path == p0 + [Key(suffix)];
    if (suffix == "uuid" || suffix == "id") && Key("relationer") in p0 {
      var p, n, idx := LastLabelAt(p0, Key("relationer"));
      assert IsRelation(path, p, n, idx, suffix);
      RelationKey(path, p, n, idx, suffix);
    } else {
      assert IsPlain(path, p0, suffix);
      PlainKey(path, p0, suffix);
    }
  }

  /** For example, a relation's uuid in a list answers to the relation's name. */
  lemma RelationAnswers(o: LoraObject, relation: string, i: nat, text: string)
    requires LeadsTo(Document(o), [Key("relationer"), Key(relation), Index(i), Key("uuid")], text)
    ensures text in ValuesFor(o, relation)
  {
    var path, p, idx := [Key("relationer"), Key(relation), Index(i), Key("uuid")], [Key("relationer")], [Index(i)];
    assert path == p + [Key(relation)] + idx + [Key("uuid")];
    assert IsRelation(path, p, relation, idx, "uuid");
    ValuesForAre(o, relation, text);
  }

  /** The object answers to the key with one of the values. */
  ghost predicate HasOneOf(o: LoraObject, key: string, values: set<string>) {
    exists v :: v in values && v in ValuesFor(o, key)
  }

  /** What a single load gives, by the values: an object of the store is loaded exactly if
      for each key it answers to one of the values asked for. */
  lemma LoadedAlone(store: seq<LoraObject>, keys: seq<string>, params: Params, o: LoraObject)
    requires |params| == |keys| && StoreOk(store)
    ensures o in LoadAlone(store, keys, params) <==>
      o in store && forall k :: 0 <= k < |keys| ==> HasOneOf(o, keys[k], params[k])
  {
    if keys == ["uuid"] {
      SearchByUuid(store, params);
    }
    SearchFinds(store, keys, params, o);
  }

  lemma {:induction false} SearchFinds(store: seq<LoraObject>, keys: seq<string>, params: Params, o: LoraObject)
    requires |params| == |keys|
    ensures o in SearchCall(store, keys, params) <==>
      o in store && forall k :: 0 <= k < |keys| ==> HasOneOf(o, keys[k], params[k])
  {
    if store != [] {
      SearchFinds(store[1..], keys, params, o);
      MatchingIs(store[0], keys, params);
      assert store == [store[0]] + store[1..];
    }
  }

  lemma MatchingIs(o: LoraObject, keys: seq<string>, params: Params)
    requires |params| == |keys|
    ensures MatchesCall(o, keys, params) <==>
      forall k :: 0 <= k < |keys| ==> HasOneOf(o, keys[k], params[k])
  {
    forall k | 0 <= k < |keys|
      ensures Answers(o, keys[k], params[k]) <==> HasOneOf(o, keys[k], params[k])
    {
      assert forall v :: v in ValuesFor(o, keys[k]) * params[k] <==> v in params[k] && v in ValuesFor(o, keys[k]);
    }
  }
}
