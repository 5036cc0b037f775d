/** Stretching all the given fields of an object to the bounds of an edit. */
module EnsuredBounds {
  import opened Prelude
  import opened Timeline
  import opened Bounds
  import opened Payloads

  /** An object whose entries are changed in place. */
  type LiveObject = map<Path, seq<EntryObject>>

  /** No entry occurs twice. */
  ghost predicate IsTree(obj: LiveObject) {
    && (forall p :: p in obj ==> Distinct(obj[p]))
    && (forall p, q :: p in obj && q in obj && p != q ==> NoneShared(obj[p], obj[q]))
  }

  ghost predicate NoneShared(a: seq<EntryObject>, b: seq<EntryObject>) { forall x :: x in a ==> x !in b }

  ghost function AllEntries(obj: LiveObject): set<EntryObject> { set p, x | p in obj && x in obj[p] :: x }

  function TaggedObjects(s: seq<EntryObject>, tag: string): (r: seq<EntryObject>)
    ensures forall x :: x in r ==> x in s && HasTag(x.value, tag)
  {
    if s == [] then []
    else (if HasTag(s[0].value, tag) then [s[0]] else []) + TaggedObjects(s[1..], tag)
  }

  /** The field's own entries; none if the path does not exist. */
  function Props(obj: LiveObject, f: Field): (r: seq<EntryObject>)
    ensures forall x :: x in r ==> f.path in obj && x in obj[f.path]
  {
    if f.path !in obj then []
    else if f.tag.None? then obj[f.path]
    else TaggedObjects(obj[f.path], f.tag.value)
  }

  /** The object as plain data. */
  ghost function DocumentOf(obj: LiveObject): Document
    reads AllEntries(obj)
  {
    map p | p in obj ::
      assert forall x :: x in obj[p] ==> x in AllEntries(obj);
      Contents(obj[p])
  }

  /** Two fields select different entries. */
  predicate Apart(f: Field, g: Field) { f.path != g.path || (f.tag.Some? && g.tag.Some? && f.tag != g.tag) }

  ghost predicate AllApart(fields: seq<Field>) {
    forall i, j :: 0 <= i < j < |fields| ==> Apart(fields[i], fields[j])
  }

  // ---- What a field adds to the payload ----------------------------------------

  function Originals(doc: Document, f: Field): seq<Entry> {
    var s := GetObjValue(doc, f);
    if s.Some? then s.value else []
  }

  function Added(doc: Document, f: Field, from: Time, to: Time): seq<Entry> {
    var s := Originals(doc, f);
    if s == [] then [] else Bounded(f.kind, s, from, to)
  }

  function WithAdded(payload: Document, f: Field, added: seq<Entry>): Document {
    if added == [] then payload else SetObjValue(payload, f.path, added)
  }

  function Ensured(fields: seq<Field>, doc: Document, from: Time, to: Time, payload: Document): Document {
    if fields == [] then payload
    else
      var before := Ensured(fields[..|fields| - 1], doc, from, to, payload);
      var f := fields[|fields| - 1];
      WithAdded(before, f, Added(doc, f, from, to))
  }

  // ---- The loop over the fields ------------------------------------------------

  lemma {:induction false} TaggedContents(s: seq<EntryObject>, tag: string)
    ensures Contents(TaggedObjects(s, tag)) == FilterTag(Contents(s), tag)
  {
    if s != [] {
      TaggedContents(s[1..], tag);
      assert Contents(s)[1..] == Contents(s[1..]);
      assert Contents(s)[0] == s[0].Content();
      if HasTag(s[0].value, tag) {
        ContentsCons(s[0], TaggedObjects(s[1..], tag));
      }
    }
  }

  lemma PropsContents(obj: LiveObject, f: Field)
    ensures PropsAre(obj, f, DocumentOf(obj))
  {
    if f.path in obj && f.tag.Some? {
      TaggedContents(obj[f.path], f.tag.value);
    }
  }

  lemma {:induction false} TaggedDistinct(s: seq<EntryObject>, tag: string)
    requires Distinct(s)
    ensures Distinct(TaggedObjects(s, tag))
  {
    if s != [] {
      TaggedDistinct(s[1..], tag);
      assert s[0] !in s[1..];
      DistinctCons(s[0], TaggedObjects(s[1..], tag));
    }
  }

  lemma DistinctCons(x: EntryObject, s: seq<EntryObject>)
    requires Distinct(s) && x !in s
    ensures Distinct([x] + s)
  {}

  lemma PropsDistinct(obj: LiveObject, f: Field)
    requires IsTree(obj)
    ensures Distinct(Props(obj, f))
  {
    if f.path in obj && f.tag.Some? {
      TaggedDistinct(obj[f.path], f.tag.value);
    }
  }

  lemma PropsApart(obj: LiveObject, f: Field, g: Field)
    requires IsTree(obj) && Apart(f, g)
    ensures NoneShared(Props(obj, f), Props(obj, g))
  {
    if f.path in obj && g.path in obj && f.path != g.path {
      assert NoneShared(obj[f.path], obj[g.path]);
    }
  }

  /** The entries of all fields from the i-th on are as in the document. */
  ghost predicate Unmoved(obj: LiveObject, fields: seq<Field>, i: nat, doc: Document)
    reads AllEntries(obj)
  {
    forall j :: i <= j < |fields| ==> PropsAre(obj, fields[j], doc)
  }

  ghost predicate PropsAre(obj: LiveObject, f: Field, doc: Document)
    reads AllEntries(obj)
  {
    assert forall x :: x in Props(obj, f) ==> f.path in obj && x in obj[f.path] && x in AllEntries(obj);
    Contents(Props(obj, f)) == Originals(doc, f)
  }

  /** One field's pass leaves the entries of the fields after it unmoved. */
  method EnsureOne(from: Time, to: Time, fields: seq<Field>, i: nat, obj: LiveObject, payload: Document, ghost doc: Document)
      returns (r: Document)
    requires IsTree(obj) && AllApart(fields) && i < |fields| && Unmoved(obj, fields, i, doc)
    modifies AllEntries(obj)
    ensures Unmoved(obj, fields, i + 1, doc)
    ensures r == WithAdded(payload, fields[i], Added(doc, fields[i], from, to))
  {
    var props := Props(obj, fields[i]);
    PropsDistinct(obj, fields[i]);
    assert PropsAre(obj, fields[i], doc);
    r := EnsureFieldBounds(from, to, fields[i], props, payload);
    forall j | i < j < |fields|
      ensures PropsAre(obj, fields[j], doc)
    {
      PropsApart(obj, fields[i], fields[j]);
      assert old(PropsAre(obj, fields[j], doc));
      ghost var others := Props(obj, fields[j]);
      assert forall k :: 0 <= k < |others| ==> others[k] in others && others[k] !in props;
      assert forall k :: 0 <= k < |others| ==> others[k].Content() == old(others[k].Content());
      assert Contents(others) == old(Contents(others));
    }
  }

  /** Entries are moved where they stand in the object, field by field, and what was
      moved goes into the payload. */
  method EnsureBounds(from: Time, to: Time, fields: seq<Field>, obj: LiveObject, payload: Document)
      returns (r: Document)
    requires IsTree(obj) && AllApart(fields)
    modifies AllEntries(obj)
    ensures r == Ensured(fields, old(DocumentOf(obj)), from, to, payload)
  {
    ghost var doc := DocumentOf(obj);
    r := payload;
    forall f ensures PropsAre(obj, f, doc) { PropsContents(obj, f); }
    for i := 0 to |fields|
      invariant r == Ensured(fields[..i], doc, from, to, payload)
      invariant Unmoved(obj, fields, i, doc)
    {
      r := EnsureOne(from, to, fields, i, obj, r, doc);
      assert fields[..i + 1][..i] == fields[..i];
    }
    assert fields[..|fields|] == fields;
  }

  // ---- What the payload then holds ----------------------------------------------

  /** Paths that no field names are left as they were. */
  lemma {:induction false} EnsuredElsewhere(fields: seq<Field>, doc: Document, from: Time, to: Time, payload: Document, path: Path)
    requires forall f :: f in fields ==> f.path != path
    ensures var r := Ensured(fields, doc, from, to, payload);
            (path in r <==> path in payload) && ListAt(r, path) == ListAt(payload, path)
  {
    if fields != [] {
      EnsuredElsewhere(fields[..|fields| - 1], doc, from, to, payload, path);
    }
  }

  function Restrict(s: seq<Entry>, f: Field): seq<Entry> { if f.tag.None? then s else FilterTag(s, f.tag.value) }

  lemma SortedTagged(s: seq<Entry>, tag: string)
    requires AllTagged(s, tag)
    ensures AllTagged(SortByFrom(s), tag)
  {
    SortMembers(s);
    var q := SortByFrom(s);
    assert forall i :: 0 <= i < |q| ==> q[i] in q;
  }

  lemma MovedTagged(adapted: bool, q: seq<Entry>, from: Time, to: Time, tag: string)
    requires q != [] && AllTagged(q, tag)
    ensures AllTagged(Moved(adapted, q, from, to), tag)
  {
    var x := Extended(q, from, to);
    assert AllTagged(x, tag);
  }

  lemma BoundedTagged(kind: FieldKind, s: seq<Entry>, from: Time, to: Time, tag: string)
    requires s != [] && AllTagged(s, tag)
    ensures AllTagged(Bounded(kind, s, from, to), tag)
  {
    if !kind.ZeroToMany? {
      SortKeeps(s);
      SortedTagged(s, tag);
      MovedTagged(kind.AdaptedZeroToMany?, SortByFrom(s), from, to, tag);
    }
  }

  lemma AddedTagged(doc: Document, f: Field, from: Time, to: Time)
    requires f.tag.Some?
    ensures AllTagged(Added(doc, f, from, to), f.tag.value)
  {
    if Originals(doc, f) != [] {
      FilterTagged(doc[f.path], f.tag.value);
      BoundedTagged(f.kind, Originals(doc, f), from, to, f.tag.value);
    }
  }

  /** Another field's entries do not show among those of `f`, */
  lemma OthersAdded(doc: Document, f: Field, g: Field, from: Time, to: Time, payload: Document)
    requires Apart(f, g)
    ensures Restrict(ListAt(WithAdded(payload, g, Added(doc, g, from, to)), f.path), f)
         == Restrict(ListAt(payload, f.path), f)
  {
    var s, added := ListAt(payload, f.path), Added(doc, g, from, to);
    if f.path == g.path {
      AddedTagged(doc, g, from, to);
      FilterAppend(s, added, f.tag.value);
      FilterOwn(added, g.tag.value, f.tag.value);
      assert FilterTag(s, f.tag.value) + [] == FilterTag(s, f.tag.value);
    }
  }

  /** and its own are appended to them. */
  lemma OwnAdded(doc: Document, f: Field, from: Time, to: Time, payload: Document)
    ensures Restrict(ListAt(WithAdded(payload, f, Added(doc, f, from, to)), f.path), f)
         == Restrict(ListAt(payload, f.path), f) + Added(doc, f, from, to)
  {
    var s, added := ListAt(payload, f.path), Added(doc, f, from, to);
    if f.tag.Some? {
      AddedTagged(doc, f, from, to);
      FilterAppend(s, added, f.tag.value);
      FilterOwn(added, f.tag.value, f.tag.value);
    }
    assert Restrict(s, f) + [] == Restrict(s, f);
  }

  lemma {:induction false} FieldUnnamed(fields: seq<Field>, doc: Document, from: Time, to: Time, payload: Document, f: Field)
    requires forall i :: 0 <= i < |fields| ==> Apart(f, fields[i])
    ensures Restrict(ListAt(Ensured(fields, doc, from, to, payload), f.path), f) == Restrict(ListAt(payload, f.path), f)
  {
    if fields != [] {
      var init, g := fields[..|fields| - 1], fields[|fields| - 1];
      FieldUnnamed(init, doc, from, to, payload, f);
      OthersAdded(doc, f, g, from, to, Ensured(init, doc, from, to, payload));
    }
  }

  /** The payload's entries for each field are those it had and then what the field's
      own original entries, stretched to the bounds, call for; the other fields, at the
      same path or another, make no difference. */
  lemma {:induction false} FieldEnsured(fields: seq<Field>, doc: Document, from: Time, to: Time, payload: Document, k: nat)
    requires AllApart(fields) && k < |fields|
    ensures var f := fields[k];
            Restrict(ListAt(Ensured(fields, doc, from, to, payload), f.path), f)
            == Restrict(ListAt(payload, f.path), f) + Added(doc, f, from, to)
  {
    var init, g, f := fields[..|fields| - 1], fields[|fields| - 1], fields[k];
    if k == |fields| - 1 {
      ApartSymmetric(fields, k);
      FieldUnnamed(init, doc, from, to, payload, f);
      OwnAdded(doc, f, from, to, Ensured(init, doc, from, to, payload));
    } else {
      FieldEnsured(init, doc, from, to, payload, k);
      OthersAdded(doc, f, g, from, to, Ensured(init, doc, from, to, payload));
    }
  }

  lemma ApartSymmetric(fields: seq<Field>, k: nat)
    requires AllApart(fields) && k < |fields|
    ensures forall i :: 0 <= i < k ==> Apart(fields[k], fields[i])
  {
    assert forall i :: 0 <= i < k ==> Apart(fields[i], fields[k]);
  }

  /** A field's originals are the entries at its path, those with its tag if it has one. */
  lemma OriginalsAre(doc: Document, f: Field, e: Entry)
    ensures e in Originals(doc, f) <==>
      && f.path in doc && e in doc[f.path]
      && (f.tag.Some? ==> "objekttype" in e.value && e.value["objekttype"] == f.tag.value)
    ensures f.tag.None? && f.path in doc ==> Originals(doc, f) == doc[f.path]
  {
    if f.path in doc && f.tag.Some? {
      FilterMembers(doc[f.path], f.tag.value, e);
    }
  }

  lemma {:induction false} FilterMembers(s: seq<Entry>, tag: string, e: Entry)
    ensures e in FilterTag(s, tag) <==> e in s && "objekttype" in e.value && e.value["objekttype"] == tag
  {
    if s != [] {
      FilterMembers(s[1..], tag, e);
      assert s == [s[0]] + s[1..];
    }
  }

  /** A zero-to-many field gives all its entries to the payload, as they are. */
  lemma ZeroToManyAdded(doc: Document, f: Field, from: Time, to: Time)
    requires f.kind == ZeroToMany
    ensures Added(doc, f, from, to) == Originals(doc, f)
  {}

  /** The other kinds, for disjoint non-empty originals: nothing if the field covers the
      bounds already; else what brings its timeline to reach both of them, and leaves it
      alone inside of its old hull. */
  lemma StretchedAdded(doc: Document, f: Field, from: Time, to: Time, t: Time)
    requires f.kind != ZeroToMany && Originals(doc, f) != []
    requires Disjoint(Originals(doc, f)) && forall e :: e in Originals(doc, f) ==> e.from < e.to
    ensures var q, added := SortByFrom(Originals(doc, f)), Added(doc, f, from, to);
            && q != [] && Regular(q)
            && (added == [] <==> q[0].from <= from && to <= q[|q| - 1].to)
            && (forall e :: e in added ==> e.from < e.to)
            && (added != [] ==> Stretched(if f.kind == AdaptedZeroToMany then added else Overlaid(q, added), q, from, to, t))
            && ActiveAt(q, t) == ActiveAt(Originals(doc, f), t)
  {
    var s := Originals(doc, f);
    var adapted := f.kind == AdaptedZeroToMany;
    SortKeeps(s);
    SortedRegular(s);
    var q := SortByFrom(s);
    NothingMoved(adapted, q, from, to);
    MovedEntries(adapted, q, from, to);
    ResultingActive(adapted, q, from, to, t);
  }
}
