/** Building the payload of an edit from the fields it changes. */
module Payloads {
  import opened Prelude
  import opened Timeline
  import opened Bounds

  /** One changed field and its new value, as the callers list them. */
  type Change = (Field, Value)

  const OBJECT_TYPE := "objekttype"

  predicate HasTag(v: Value, tag: string) { OBJECT_TYPE in v && v[OBJECT_TYPE] == tag }

  function IfTagged(e: Entry, tag: string): seq<Entry> { if HasTag(e.value, tag) then [e] else [] }

  function FilterTag(s: seq<Entry>, tag: string): seq<Entry> {
    if s == [] then [] else IfTagged(s[0], tag) + FilterTag(s[1..], tag)
  }

  /** The field's own entries at its path, if the path exists. */
  function GetObjValue(d: Document, f: Field): Option<seq<Entry>> {
    if f.path !in d then None
    else if f.tag.None? then Some(d[f.path])
    else Some(FilterTag(d[f.path], f.tag.value))
  }

  // ---- Grouping the changes by field ------------------------------------------

  /** The fields in the order in which they first occur. */
  function FieldsOf(changes: seq<Change>): seq<Field> {
    if changes == [] then []
    else
      var before := FieldsOf(changes[..|changes| - 1]);
      var f := changes[|changes| - 1].0;
      if f in before then before else before + [f]
  }

  function ValuesFor(changes: seq<Change>, f: Field): seq<Value> {
    if changes == [] then []
    else
      ValuesFor(changes[..|changes| - 1], f)
      + if changes[|changes| - 1].0 == f then [changes[|changes| - 1].1] else []
  }

  lemma {:induction false} FieldsHaveValues(changes: seq<Change>, f: Field)
    ensures f in FieldsOf(changes) <==> ValuesFor(changes, f) != []
  {
    if changes != [] {
      FieldsHaveValues(changes[..|changes| - 1], f);
    }
  }

  lemma {:induction false} FieldsDistinct(changes: seq<Change>)
    ensures Distinct(FieldsOf(changes))
  {
    if changes != [] {
      FieldsDistinct(changes[..|changes| - 1]);
    }
  }

  // ---- The update --------------------------------------------------------

  predicate InRelations(path: Path) {
    exists i :: 0 <= i <= |path.0| && "relationer" <= path.0[i..]
  }

  /** A relation entry with nothing but its validity is given empty identifiers. */
  function Normalised(path: Path, e: Entry): Entry {
    if e.value == map[] && InRelations(path) then e.(value := map["uuid" := "", "urn" := ""]) else e
  }

  function NormalisedAll(path: Path, s: seq<Entry>): (r: seq<Entry>)
    ensures |r| == |s| && forall i :: 0 <= i < |s| ==> r[i] == Normalised(path, s[i])
  {
    if s == [] then [] else [Normalised(path, s[0])] + NormalisedAll(path, s[1..])
  }

  /** What a field contributes: adapted fields are overwritten on the interval of
      the edit, the others just get the new entries. */
  function Updated(f: Field, values: seq<Value>, from: Time, to: Time, obj: Document): seq<Entry>
    requires values != []
  {
    var new_ := Stamped(values, from, to);
    NormalisedAll(f.path, if f.kind.AdaptedZeroToMany? then Merged(GetObjValue(obj, f), new_) else new_)
  }

  function UpdatedFields(changes: seq<Change>, fields: seq<Field>, from: Time, to: Time,
                         obj: Document, payload: Document): Document
    requires forall f :: f in fields ==> ValuesFor(changes, f) != []
  {
    if fields == [] then payload
    else
      var f := fields[|fields| - 1];
      SetObjValue(UpdatedFields(changes, fields[..|fields| - 1], from, to, obj, payload),
                  f.path, Updated(f, ValuesFor(changes, f), from, to, obj))
  }

  function UpdatedPayload(changes: seq<Change>, from: Time, to: Time, obj: Document, payload: Document): Document {
    assert forall f :: f in FieldsOf(changes) ==> ValuesFor(changes, f) != [] by {
      forall f ensures f in FieldsOf(changes) <==> ValuesFor(changes, f) != [] { FieldsHaveValues(changes, f); }
    }
    UpdatedFields(changes, FieldsOf(changes), from, to, obj, payload)
  }

  /** One field's entries for the payload. */
  method UpdateField(f: Field, values: seq<Value>, from: Time, to: Time, obj: Document) returns (entries: seq<Entry>)
    requires values != []
    ensures entries == Updated(f, values, from, to, obj)
  {
    var vals := new EntryList(Stamped(values, from, to));
    var props := GetObjValue(obj, f);
    var updated := vals;
    if f.kind == AdaptedZeroToMany {
      updated := MergeObjEffects(props, vals);
    }
    entries := NormalisedAll(f.path, updated.items);
  }

  /** Groups the changes and puts each field's entries into the payload. A zero-to-one
      field may be changed at most once. */
  method UpdatePayload(from: Time, to: Time, changes: seq<Change>, obj: Document, payload: Document)
      returns (r: Document)
    requires forall f :: f in FieldsOf(changes) && f.kind.ZeroToOne? ==> |ValuesFor(changes, f)| <= 1
    ensures r == UpdatedPayload(changes, from, to, obj, payload)
  {
    var fields, combined := CombineFields(changes);
    r := payload;
    for i := 0 to |fields|
      invariant r == UpdatedFields(changes, fields[..i], from, to, obj, payload)
    {
      var f := fields[i];
      var entries := UpdateField(f, combined[f], from, to, obj);
      r := SetObjValue(r, f.path, entries);
      UpdatedFieldsMore(changes, fields, i, from, to, obj, payload);
    }
    assert fields[..|fields|] == fields;
  }

  lemma UpdatedFieldsMore(changes: seq<Change>, fields: seq<Field>, i: nat, from: Time, to: Time,
                          obj: Document, payload: Document)
    requires i < |fields| && forall f :: f in fields ==> ValuesFor(changes, f) != []
    ensures UpdatedFields(changes, fields[..i + 1], from, to, obj, payload)
         == SetObjValue(UpdatedFields(changes, fields[..i], from, to, obj, payload),
                        fields[i].path, Updated(fields[i], ValuesFor(changes, fields[i]), from, to, obj))
  {
    assert fields[..i + 1][..i] == fields[..i];
  }

  method CombineFields(changes: seq<Change>) returns (fields: seq<Field>, combined: map<Field, seq<Value>>)
    ensures fields == FieldsOf(changes)
    ensures forall f :: f in fields ==> f in combined && combined[f] == ValuesFor(changes, f) && combined[f] != []
  {
    fields, combined := [], map[];
    for i := 0 to |changes|
      invariant fields == FieldsOf(changes[..i])
      invariant forall f :: f in combined ==> f in fields
      invariant forall f :: f in fields ==> f in combined
      invariant forall f :: f in combined ==> combined[f] == ValuesFor(changes[..i], f)
    {
      var (f, v) := changes[i];
      assert changes[..i + 1][..i] == changes[..i];
      FieldsHaveValues(changes[..i], f);
      if f in combined {
        combined := combined[f := combined[f] + [v]];
      } else {
        combined := combined[f := [v]];
        fields := fields + [f];
      }
    }
    assert changes[..|changes|] == changes;
    forall f ensures f in FieldsOf(changes) <==> ValuesFor(changes, f) != [] { FieldsHaveValues(changes, f); }
  }

  // ---- Paths are independent ---------------------------------------------------

  /** All that the given fields contribute to one path, in order. */
  function Contributed(changes: seq<Change>, fields: seq<Field>, from: Time, to: Time, obj: Document, path: Path): seq<Entry>
    requires forall f :: f in fields ==> ValuesFor(changes, f) != []
  {
    if fields == [] then []
    else
      var f := fields[|fields| - 1];
      Contributed(changes, fields[..|fields| - 1], from, to, obj, path)
      + if f.path == path then Updated(f, ValuesFor(changes, f), from, to, obj) else []
  }

  lemma {:induction false} PathContributions(changes: seq<Change>, fields: seq<Field>, from: Time, to: Time,
                                             obj: Document, payload: Document, path: Path)
    requires forall f :: f in fields ==> ValuesFor(changes, f) != []
    ensures var r := UpdatedFields(changes, fields, from, to, obj, payload);
            && ListAt(r, path) == ListAt(payload, path) + Contributed(changes, fields, from, to, obj, path)
            && ((forall f :: f in fields ==> f.path != path) ==> (path in r <==> path in payload))
  {
    if fields != [] {
      PathContributions(changes, fields[..|fields| - 1], from, to, obj, payload, path);
    }
  }

  /** Paths that no change names are left as they were. */
  lemma OtherPathsUntouched(changes: seq<Change>, from: Time, to: Time, obj: Document, payload: Document, path: Path)
    requires forall i :: 0 <= i < |changes| ==> changes[i].0.path != path
    ensures var r := UpdatedPayload(changes, from, to, obj, payload);
            (path in r <==> path in payload) && (path in payload ==> r[path] == payload[path])
  {
    var fields := FieldsOf(changes);
    forall f | f in fields
      ensures f.path != path && ValuesFor(changes, f) != []
    {
      FieldsHaveValues(changes, f);
      FieldsFrom(changes, f);
    }
    PathContributions(changes, fields, from, to, obj, payload, path);
    NothingContributed(changes, fields, from, to, obj, path);
  }

  lemma {:induction false} FieldsFrom(changes: seq<Change>, f: Field)
    requires f in FieldsOf(changes)
    ensures exists i :: 0 <= i < |changes| && changes[i].0 == f
  {
    if f in FieldsOf(changes[..|changes| - 1]) {
      FieldsFrom(changes[..|changes| - 1], f);
    }
  }

  lemma {:induction false} NothingContributed(changes: seq<Change>, fields: seq<Field>, from: Time, to: Time, obj: Document, path: Path)
    requires forall f :: f in fields ==> ValuesFor(changes, f) != [] && f.path != path
    ensures Contributed(changes, fields, from, to, obj, path) == []
  {
    if fields != [] {
      NothingContributed(changes, fields[..|fields| - 1], from, to, obj, path);
    }
  }

  // ---- Tags sharing a path are independent ----------------------------------------

  predicate AllTagged(s: seq<Entry>, tag: string) { forall i :: 0 <= i < |s| ==> HasTag(s[i].value, tag) }

  lemma {:induction false} FilterAppend(a: seq<Entry>, b: seq<Entry>, tag: string)
    ensures FilterTag(a + b, tag) == FilterTag(a, tag) + FilterTag(b, tag)
  {
    if a == [] {
      assert a + b == b;
    } else {
      assert (a + b)[1..] == a[1..] + b;
      FilterAppend(a[1..], b, tag);
      var first, rest, more := IfTagged(a[0], tag), FilterTag(a[1..], tag), FilterTag(b, tag);
      assert first + (rest + more) == (first + rest) + more;
    }
  }

  lemma {:induction false} FilterOwn(s: seq<Entry>, own: string, tag: string)
    requires AllTagged(s, own)
    ensures FilterTag(s, tag) == if own == tag then s else []
  {
    if s != [] {
      FilterOwn(s[1..], own, tag);
    }
  }

  lemma {:induction false} FilterTagged(s: seq<Entry>, tag: string)
    ensures AllTagged(FilterTag(s, tag), tag)
  {
    if s != [] {
      FilterTagged(s[1..], tag);
    }
  }

  lemma MergedTagged(orig: seq<Entry>, new_: seq<Entry>, tag: string)
    requires Uniform(new_) && AllTagged(orig, tag) && AllTagged(new_, tag)
    ensures AllTagged(Merged(Some(orig), new_), tag)
  {
    var r := Merged(Some(orig), new_);
    forall i | 0 <= i < |r|
      ensures HasTag(r[i].value, tag)
    {
      MergedFrom(orig, new_, r[i]);
      if r[i] !in new_ {
        var e :| e in orig && r[i] in Cut(e, new_[0].from, new_[0].to);
        assert r[i].value == e.value;
      }
    }
  }

  predicate ValuesTagged(values: seq<Value>, tag: string) { forall i :: 0 <= i < |values| ==> HasTag(values[i], tag) }

  /** A tagged field's contribution is all its own tag's, and normalising changes none of it. */
  lemma UpdatedTagged(f: Field, values: seq<Value>, from: Time, to: Time, obj: Document)
    requires values != [] && f.tag.Some? && ValuesTagged(values, f.tag.value)
    ensures AllTagged(Updated(f, values, from, to, obj), f.tag.value)
    ensures Updated(f, values, from, to, obj)
         == if f.kind.AdaptedZeroToMany? then Merged(GetObjValue(obj, f), Stamped(values, from, to))
            else Stamped(values, from, to)
  {
    var new_ := Stamped(values, from, to);
    if f.path in obj {
      FilterTagged(obj[f.path], f.tag.value);
      MergedTagged(FilterTag(obj[f.path], f.tag.value), new_, f.tag.value);
    }
  }

  /** Every change of a field at the path is tagged, with the tag of its own field;
      and different fields at the path have different tags. */
  ghost predicate TagsApart(changes: seq<Change>, fields: seq<Field>, path: Path) {
    && (forall f :: f in fields && f.path == path ==> f.tag.Some? && ValuesTagged(ValuesFor(changes, f), f.tag.value))
    && (forall f, g :: f in fields && g in fields && f.path == g.path == path && f != g ==> f.tag != g.tag)
  }

  /** The field is at another path than `f`, or all its values have another tag. */
  ghost predicate OtherTag(changes: seq<Change>, g: Field, f: Field) {
    g.path == f.path ==> g.tag.Some? && ValuesTagged(ValuesFor(changes, g), g.tag.value) && g.tag != f.tag
  }

  lemma OtherContributes(changes: seq<Change>, fields: seq<Field>, from: Time, to: Time, obj: Document, f: Field)
    requires fields != [] && f.tag.Some? && OtherTag(changes, fields[|fields| - 1], f)
    requires forall h :: h in fields ==> ValuesFor(changes, h) != []
    ensures FilterTag(Contributed(changes, fields, from, to, obj, f.path), f.tag.value)
         == FilterTag(Contributed(changes, fields[..|fields| - 1], from, to, obj, f.path), f.tag.value)
  {
    var init, g := fields[..|fields| - 1], fields[|fields| - 1];
    var before := Contributed(changes, init, from, to, obj, f.path);
    if g.path == f.path {
      var other := Updated(g, ValuesFor(changes, g), from, to, obj);
      UpdatedTagged(g, ValuesFor(changes, g), from, to, obj);
      FilterOwn(other, g.tag.value, f.tag.value);
      FilterAppend(before, other, f.tag.value);
      assert FilterTag(before, f.tag.value) + [] == FilterTag(before, f.tag.value);
    } else {
      assert before + [] == before;
    }
  }

  lemma OwnContributes(changes: seq<Change>, fields: seq<Field>, from: Time, to: Time, obj: Document)
    requires fields != [] && forall h :: h in fields ==> ValuesFor(changes, h) != []
    requires var f := fields[|fields| - 1]; f.tag.Some? && ValuesTagged(ValuesFor(changes, f), f.tag.value)
    ensures var f := fields[|fields| - 1];
            FilterTag(Contributed(changes, fields, from, to, obj, f.path), f.tag.value)
            == FilterTag(Contributed(changes, fields[..|fields| - 1], from, to, obj, f.path), f.tag.value)
               + Updated(f, ValuesFor(changes, f), from, to, obj)
  {
    var init, f := fields[..|fields| - 1], fields[|fields| - 1];
    var own := Updated(f, ValuesFor(changes, f), from, to, obj);
    UpdatedTagged(f, ValuesFor(changes, f), from, to, obj);
    FilterOwn(own, f.tag.value, f.tag.value);
    FilterAppend(Contributed(changes, init, from, to, obj, f.path), own, f.tag.value);
  }

  lemma {:induction false} OthersContribute(changes: seq<Change>, fields: seq<Field>, from: Time, to: Time, obj: Document, f: Field)
    requires f.tag.Some? && forall i :: 0 <= i < |fields| ==> OtherTag(changes, fields[i], f)
    requires forall h :: h in fields ==> ValuesFor(changes, h) != []
    ensures FilterTag(Contributed(changes, fields, from, to, obj, f.path), f.tag.value) == []
  {
    if fields != [] {
      OtherContributes(changes, fields, from, to, obj, f);
      OthersContribute(changes, fields[..|fields| - 1], from, to, obj, f);
    }
  }

  lemma {:induction false} TagContributed(changes: seq<Change>, fields: seq<Field>, from: Time, to: Time, obj: Document, k: nat)
    requires k < |fields| && forall h :: h in fields ==> ValuesFor(changes, h) != []
    requires fields[k].tag.Some? && ValuesTagged(ValuesFor(changes, fields[k]), fields[k].tag.value)
    requires forall i :: 0 <= i < |fields| && i != k ==> OtherTag(changes, fields[i], fields[k])
    ensures FilterTag(Contributed(changes, fields, from, to, obj, fields[k].path), fields[k].tag.value)
         == Updated(fields[k], ValuesFor(changes, fields[k]), from, to, obj)
  {
    var n, f := |fields| - 1, fields[k];
    if k == n {
      OwnContributes(changes, fields, from, to, obj);
      OthersContribute(changes, fields[..n], from, to, obj, f);
    } else {
      var init := fields[..n];
      OtherContributes(changes, fields, from, to, obj, f);
      assert init[k] == f && forall i :: 0 <= i < n ==> init[i] == fields[i];
      TagContributed(changes, init, from, to, obj, k);
    }
  }

  /** Edits through tagged fields sharing a path do not disturb each other: the
      payload's list at the path, restricted to one field's tag, is what it was plus
      the overwrite of that tag's original timeline by that tag's new values. */
  lemma TaggedFieldsIndependent(changes: seq<Change>, from: Time, to: Time, obj: Document, payload: Document, f: Field)
    requires from <= to && f in FieldsOf(changes) && f.kind.AdaptedZeroToMany? && f.tag.Some?
    requires TagsApart(changes, FieldsOf(changes), f.path)
    ensures ValuesFor(changes, f) != []
    ensures FilterTag(ListAt(UpdatedPayload(changes, from, to, obj, payload), f.path), f.tag.value)
         == FilterTag(ListAt(payload, f.path), f.tag.value)
            + if f.path in obj then
                Overwrite(FilterTag(obj[f.path], f.tag.value), Edit(from, to, ValuesFor(changes, f)))
              else Stamped(ValuesFor(changes, f), from, to)
  {
    var fields := FieldsOf(changes);
    forall g | g in fields
      ensures ValuesFor(changes, g) != []
    {
      FieldsHaveValues(changes, g);
    }
    FieldsDistinct(changes);
    PathContributions(changes, fields, from, to, obj, payload, f.path);
    FilterAppend(ListAt(payload, f.path), Contributed(changes, fields, from, to, obj, f.path), f.tag.value);
    var k: nat :| k < |fields| && fields[k] == f;
    assert forall i :: 0 <= i < |fields| && i != k ==> fields[i] in fields && fields[i] != f;
    TagContributed(changes, fields, from, to, obj, k);
    UpdatedTagged(f, ValuesFor(changes, f), from, to, obj);
  }

  // ---- Inactivating what an edit gives up ------------------------------------------

  const INACTIVE: Value := map["gyldighed" := "Inaktiv"]

  /** Marks inactive what the old interval has before the new one and after it. */
  function InactivateOldInterval(oldFrom: Time, oldTo: Time, newFrom: Time, newTo: Time,
                                 payload: Document, path: Path): Document
  {
    var p := if oldFrom < newFrom then SetObjValue(payload, path, [Entry(oldFrom, newFrom, INACTIVE)]) else payload;
    if newTo < oldTo then SetObjValue(p, path, [Entry(newTo, oldTo, INACTIVE)]) else p
  }

  predicate Difference(oldFrom: Time, oldTo: Time, newFrom: Time, newTo: Time, t: Time) {
    oldFrom <= t < oldTo && !(newFrom <= t < newTo)
  }

  /** What the inactivation adds at an instant. */
  lemma InactivatedAt(oldFrom: Time, oldTo: Time, newFrom: Time, newTo: Time, payload: Document, path: Path, t: Time)
    ensures ActiveAt(ListAt(InactivateOldInterval(oldFrom, oldTo, newFrom, newTo, payload, path), path), t)
         == ActiveAt(ListAt(payload, path), t)
            + (if oldFrom <= t < newFrom then multiset{INACTIVE} else multiset{})
            + (if newTo <= t < oldTo then multiset{INACTIVE} else multiset{})
  {
    InactivatedActive(ListAt(payload, path), Entry(oldFrom, newFrom, INACTIVE), Entry(newTo, oldTo, INACTIVE), t);
  }

  /** The instants marked inactive are exactly those of the old interval outside of
      the new one, each marked once, if and only if there is no gap between the two;
      both intervals are taken to be non-empty. */
  lemma InactivatesDifference(oldFrom: Time, oldTo: Time, newFrom: Time, newTo: Time, payload: Document, path: Path)
    requires oldFrom < oldTo && newFrom < newTo
    ensures (forall t :: ActiveAt(ListAt(InactivateOldInterval(oldFrom, oldTo, newFrom, newTo, payload, path), path), t)
                      == ActiveAt(ListAt(payload, path), t)
                         + if Difference(oldFrom, oldTo, newFrom, newTo, t) then multiset{INACTIVE} else multiset{})
            <==> newFrom <= oldTo && oldFrom <= newTo
  {
    if newFrom <= oldTo && oldFrom <= newTo {
      forall t
        ensures ActiveAt(ListAt(InactivateOldInterval(oldFrom, oldTo, newFrom, newTo, payload, path), path), t)
             == ActiveAt(ListAt(payload, path), t)
                + if Difference(oldFrom, oldTo, newFrom, newTo, t) then multiset{INACTIVE} else multiset{}
      {
        InactivatedAt(oldFrom, oldTo, newFrom, newTo, payload, path, t);
      }
    } else {
      GapInactivated(oldFrom, oldTo, newFrom, newTo, payload, path);
    }
  }

  /** With a gap, an instant in it is marked although the old interval was over. */
  lemma GapInactivated(oldFrom: Time, oldTo: Time, newFrom: Time, newTo: Time, payload: Document, path: Path)
    requires oldFrom < oldTo && newFrom < newTo && (oldTo < newFrom || newTo < oldFrom)
    ensures var t := if oldTo < newFrom then oldTo else newTo;
            && !Difference(oldFrom, oldTo, newFrom, newTo, t)
            && ActiveAt(ListAt(InactivateOldInterval(oldFrom, oldTo, newFrom, newTo, payload, path), path), t)
            != ActiveAt(ListAt(payload, path), t) + multiset{}
  {
    var t := if oldTo < newFrom then oldTo else newTo;
    InactivatedAt(oldFrom, oldTo, newFrom, newTo, payload, path, t);
    var was := ActiveAt(ListAt(payload, path), t);
    var now := ActiveAt(ListAt(InactivateOldInterval(oldFrom, oldTo, newFrom, newTo, payload, path), path), t);
    assert now[INACTIVE] == was[INACTIVE] + 1;
  }

  lemma InactivatedActive(s: seq<Entry>, before: Entry, after: Entry, t: Time)
    ensures var a := if before.from < before.to then s + [before] else s;
            var b := if after.from < after.to then a + [after] else a;
            ActiveAt(b, t) == ActiveAt(s, t)
                + (if Covers(before, t) then multiset{before.value} else multiset{})
                + (if Covers(after, t) then multiset{after.value} else multiset{})
  {
    var a := if before.from < before.to then s + [before] else s;
    ActiveAppend(s, [before], t);
    ActiveAppend(a, [after], t);
    ActiveSingle(before, t);
    ActiveSingle(after, t);
  }
}
