/** What an edit puts into the payload, field by field, told without the steps that
    put it together. */
module Edits {
  import opened Prelude
  import opened Timeline
  import opened Bounds
  import opened Payloads

  // ---- Grouping -----------------------------------------------------------

  /** The positions of a field's changes, in order. */
  function Positions(changes: seq<Change>, f: Field): (r: seq<nat>)
    ensures forall k :: 0 <= k < |r| ==> r[k] < |changes| && changes[r[k]].0 == f
    ensures forall j, k :: 0 <= j < k < |r| ==> r[j] < r[k]
    ensures forall i :: 0 <= i < |changes| && changes[i].0 == f ==> i in r
  {
    if changes == [] then []
    else
      var n := |changes| - 1;
      Positions(changes[..n], f) + if changes[n].0 == f then [n] else []
  }

  /** A field's values are those of its changes, in their order. */
  lemma {:induction false} ValuesInOrder(changes: seq<Change>, f: Field)
    ensures var at, values := Positions(changes, f), ValuesFor(changes, f);
            |values| == |at| && forall k :: 0 <= k < |at| ==> values[k] == changes[at[k]].1
  {
    if changes != [] {
      var n := |changes| - 1;
      ValuesInOrder(changes[..n], f);
      var before, at, values := Positions(changes[..n], f), Positions(changes, f), ValuesFor(changes, f);
      assert |values| == |at|;
      forall k | 0 <= k < |at|
        ensures values[k] == changes[at[k]].1
      {
        if k < |before| {
          assert at[k] == before[k] && values[k] == ValuesFor(changes[..n], f)[k];
          assert changes[..n][before[k]] == changes[before[k]];
        }
      }
    }
  }

  /** Fields come in the order of their first changes. */
  lemma {:induction false} FieldsInOrder(changes: seq<Change>, i: nat, j: nat)
    requires i < j < |FieldsOf(changes)|
    ensures exists a :: && 0 <= a < |changes| && changes[a].0 == FieldsOf(changes)[i]
                        && forall b :: 0 <= b <= a ==> changes[b].0 != FieldsOf(changes)[j]
  {
    var n := |changes| - 1;
    var before, f := FieldsOf(changes[..n]), changes[n].0;
    if j < |before| {
      FieldsInOrder(changes[..n], i, j);
      var a :| && 0 <= a < n && changes[..n][a].0 == before[i]
               && forall b :: 0 <= b <= a ==> changes[..n][b].0 != before[j];
      assert changes[a].0 == FieldsOf(changes)[i];
      assert forall b :: 0 <= b <= a ==> changes[b] == changes[..n][b];
    } else {
      assert FieldsOf(changes) == before + [f] && FieldsOf(changes)[j] == f;
      assert before[i] in before;
      FieldsFrom(changes[..n], before[i]);
      var a :| 0 <= a < n && changes[..n][a].0 == before[i];
      assert changes[a].0 == FieldsOf(changes)[i];
      forall b | 0 <= b <= a
        ensures changes[b].0 != f
      {
        assert changes[..n][b] == changes[b];
        ChangedIsListed(changes[..n], b);
      }
    }
  }

  lemma {:induction false} ChangedIsListed(changes: seq<Change>, i: nat)
    requires i < |changes|
    ensures changes[i].0 in FieldsOf(changes)
  {
    if i < |changes| - 1 {
      ChangedIsListed(changes[..|changes| - 1], i);
    }
  }

  // ---- Empty relations ----------------------------------------------------

  /** The name of the path's group contains `relationer`. */
  lemma InRelationsIs(path: Path)
    ensures InRelations(path) <==> exists a, b :: path.0 == a + "relationer" + b
  {
    if InRelations(path) {
      var i :| 0 <= i <= |path.0| && "relationer" <= path.0[i..];
      SplitAt(path.0, i, "relationer");
    }
    if a, b :| path.0 == a + "relationer" + b {
      PrefixAfter(a, "relationer", b);
    }
  }

  lemma SplitAt(s: string, i: nat, word: string)
    requires i <= |s| && word <= s[i..]
    ensures s == s[..i] + word + s[i..][|word|..]
  {
    assert s[i..] == word + s[i..][|word|..];
    assert s == s[..i] + s[i..];
  }

  lemma PrefixAfter(a: string, word: string, b: string)
    ensures word <= (a + word + b)[|a|..]
  {
    assert (a + word + b)[|a|..] == word + b;
  }

  /** Only an entry of a relation that has no value at all is changed, to one with an
      empty uuid and an empty urn; its validity stays. */
  lemma NormalisedIs(path: Path, e: Entry)
    ensures var n := Normalised(path, e);
            && n.from == e.from && n.to == e.to
            && (n.value != e.value <==> InRelations(path) && |e.value| == 0)
            && (n.value != e.value ==>
                  && n.value.Keys == {"uuid", "urn"} && n.value["uuid"] == "" && n.value["urn"] == "")
  {
    if e.value == map[] {
      assert "uuid" in map["uuid" := "", "urn" := ""];
    } else {
      assert e.value.Keys != {};
    }
  }

  const BLANK: Value := map["uuid" := "", "urn" := ""]

  /** Values in force, with those of empty relations made blank. */
  function Blanked(path: Path, values: multiset<Value>): multiset<Value> {
    if InRelations(path) then values[BLANK := values[BLANK] + values[map[]]][map[] := 0] else values
  }

  lemma {:induction false} NormalisedActive(path: Path, s: seq<Entry>, t: Time)
    ensures ActiveAt(NormalisedAll(path, s), t) == Blanked(path, ActiveAt(s, t))
  {
    if s == [] {
      assert Blanked(path, multiset{}) == multiset{};
    } else {
      NormalisedActive(path, s[1..], t);
      NormalisedFirst(path, s, t);
      FirstActive(s, t);
      BlankedMore(path, ActiveAt(s[1..], t), s[0]);
    }
  }

  lemma NormalisedFirst(path: Path, s: seq<Entry>, t: Time)
    requires s != []
    ensures var rest := ActiveAt(NormalisedAll(path, s[1..]), t);
            ActiveAt(NormalisedAll(path, s), t)
            == if Covers(s[0], t) then multiset{Normalised(path, s[0]).value} + rest else rest
  {
    var n := NormalisedAll(path, s);
    assert n[0] == Normalised(path, s[0]);
    assert n[1..] == NormalisedAll(path, s[1..]);
    FirstActive(n, t);
  }

  lemma BlankedMore(path: Path, values: multiset<Value>, e: Entry)
    ensures Blanked(path, multiset{e.value} + values) == multiset{Normalised(path, e).value} + Blanked(path, values)
  {
    assert "uuid" in BLANK;
  }

  lemma FirstActive(s: seq<Entry>, t: Time)
    requires s != []
    ensures ActiveAt(s, t)
         == if Covers(s[0], t) then multiset{s[0].value} + ActiveAt(s[1..], t) else ActiveAt(s[1..], t)
  {}

  // ---- What a field contributes ---------------------------------------------

  /** Fields that are not adapted contribute exactly the edit's values, in the order
      given, on the interval of the edit. */
  lemma PlainFieldUpdated(f: Field, values: seq<Value>, from: Time, to: Time, obj: Document)
    requires values != [] && f.kind != AdaptedZeroToMany
    ensures var r := Updated(f, values, from, to, obj);
            |r| == |values| && forall i :: 0 <= i < |r| ==> r[i] == Normalised(f.path, Entry(from, to, values[i]))
  {}

  /** Adapted fields, with a tag or without, contribute their whole timeline with the
      edit put over it. */
  lemma AdaptedFieldUpdated(f: Field, values: seq<Value>, from: Time, to: Time, obj: Document, t: Time)
    requires values != [] && from <= to && f.kind == AdaptedZeroToMany
    ensures ActiveAt(Updated(f, values, from, to, obj), t)
         == Blanked(f.path,
                    if from <= t < to then multiset(values)
                    else if f.path !in obj then multiset{}
                    else if f.tag.None? then ActiveAt(obj[f.path], t)
                    else ActiveAt(FilterTag(obj[f.path], f.tag.value), t))
  {
    var new_ := Stamped(values, from, to);
    if f.path in obj {
      var own := GetObjValue(obj, f).value;
      OverwriteActive(own, Edit(from, to, values), t);
      NormalisedActive(f.path, Merged(Some(own), new_), t);
    } else {
      StampedActive(values, from, to, t);
      NormalisedActive(f.path, new_, t);
    }
  }

  /** No other field is changed at the field's path. */
  ghost predicate Alone(changes: seq<Change>, f: Field) {
    forall i :: 0 <= i < |changes| && changes[i].0.path == f.path ==> changes[i].0 == f
  }

  lemma {:induction false} OnlyContribution(changes: seq<Change>, fields: seq<Field>, from: Time, to: Time, obj: Document, f: Field)
    requires (forall h :: h in fields ==> ValuesFor(changes, h) != []) && Distinct(fields)
    requires forall h :: h in fields && h.path == f.path ==> h == f
    ensures f in fields ==>
      Contributed(changes, fields, from, to, obj, f.path) == Updated(f, ValuesFor(changes, f), from, to, obj)
    ensures f !in fields ==> Contributed(changes, fields, from, to, obj, f.path) == []
  {
    if fields != [] {
      var init, g := fields[..|fields| - 1], fields[|fields| - 1];
      OnlyContribution(changes, init, from, to, obj, f);
      assert fields == init + [g];
      assert g == f ==> f !in init;
      var before := Contributed(changes, init, from, to, obj, f.path);
      assert before + [] == before;
      if g == f {
        assert [] + Updated(f, ValuesFor(changes, f), from, to, obj) == Updated(f, ValuesFor(changes, f), from, to, obj);
      }
    }
  }

  lemma AppendedAlone(changes: seq<Change>, from: Time, to: Time, obj: Document, payload: Document, f: Field)
    requires f in FieldsOf(changes) && Alone(changes, f)
    ensures ValuesFor(changes, f) != []
    ensures ListAt(UpdatedPayload(changes, from, to, obj, payload), f.path)
         == ListAt(payload, f.path) + Updated(f, ValuesFor(changes, f), from, to, obj)
  {
    var fields := FieldsOf(changes);
    forall h | h in fields
      ensures ValuesFor(changes, h) != [] && (h.path == f.path ==> h == f)
    {
      FieldsHaveValues(changes, h);
      FieldsFrom(changes, h);
    }
    FieldsDistinct(changes);
    PathContributions(changes, fields, from, to, obj, payload, f.path);
    OnlyContribution(changes, fields, from, to, obj, f);
  }

  /** An adapted field that is alone at its path: what is appended to the payload has in
      force, at each instant, the edit's values on the interval of the edit, and what
      the field's original entries have in force elsewhere. */
  lemma AdaptedFieldAlone(changes: seq<Change>, from: Time, to: Time, obj: Document, payload: Document, f: Field, t: Time)
    requires f in FieldsOf(changes) && Alone(changes, f) && from <= to && f.kind == AdaptedZeroToMany && f.tag.None?
    ensures ActiveAt(ListAt(UpdatedPayload(changes, from, to, obj, payload), f.path), t)
         == ActiveAt(ListAt(payload, f.path), t)
            + Blanked(f.path, if from <= t < to then multiset(ValuesFor(changes, f)) else ActiveAt(ListAt(obj, f.path), t))
  {
    AppendedAlone(changes, from, to, obj, payload, f);
    AdaptedFieldUpdated(f, ValuesFor(changes, f), from, to, obj, t);
    ActiveAppend(ListAt(payload, f.path), Updated(f, ValuesFor(changes, f), from, to, obj), t);
  }

  /** A field of another kind that is alone at its path: just the values of its changes
      are appended, in order, on the interval of the edit. */
  lemma PlainFieldAlone(changes: seq<Change>, from: Time, to: Time, obj: Document, payload: Document, f: Field)
    requires f in FieldsOf(changes) && Alone(changes, f) && f.kind != AdaptedZeroToMany
    ensures var old_, new_ := ListAt(payload, f.path), ListAt(UpdatedPayload(changes, from, to, obj, payload), f.path);
            var at := Positions(changes, f);
            && |new_| == |old_| + |at| && new_[..|old_|] == old_
            && forall k :: 0 <= k < |at| ==>
                 new_[|old_| + k] == Normalised(f.path, Entry(from, to, changes[at[k]].1))
  {
    AppendedAlone(changes, from, to, obj, payload, f);
    PlainFieldUpdated(f, ValuesFor(changes, f), from, to, obj);
    ValuesInOrder(changes, f);
  }
}
