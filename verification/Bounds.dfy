/** Payloads of timelines by path, and stretching a timeline to cover given bounds. */
module Bounds {
  import opened Prelude
  import opened Timeline

  type Path = (string, string)

  datatype FieldKind = ZeroToOne | ZeroToMany | AdaptedZeroToMany

  /** A field is found at a path; several fields share a path if they are told apart
      by the object type of their entries. */
  datatype Field = Field(path: Path, kind: FieldKind, tag: Option<string>)

  /** The lists of entries of an object, or of an update to one, by path. */
  type Document = map<Path, seq<Entry>>

  function ListAt(d: Document, path: Path): seq<Entry> { if path in d then d[path] else [] }

  /** A list already at the path is extended. */
  function SetObjValue(d: Document, path: Path, entries: seq<Entry>): Document {
    d[path := ListAt(d, path) + entries]
  }

  // ---- Entries as objects that are changed in place ---------------------------

  class EntryObject {
    var from: Time
    var to: Time
    const value: Value

    constructor (from: Time, to: Time, value: Value)
      ensures this.from == from && this.to == to && this.value == value
    {
      this.from, this.to, this.value := from, to, value;
    }

    function Content(): Entry
      reads this
    {
      Entry(from, to, value)
    }
  }

  ghost function Contents(objs: seq<EntryObject>): (s: seq<Entry>)
    reads objs
    ensures |s| == |objs| && forall i :: 0 <= i < |objs| ==> s[i] == objs[i].Content()
  {
    seq(|objs|, i requires 0 <= i < |objs| reads objs => objs[i].Content())
  }

  lemma ContentsCons(x: EntryObject, s: seq<EntryObject>)
    ensures Contents([x] + s) == [x.Content()] + Contents(s)
  {}

  method InsertObject(e: EntryObject, s: seq<EntryObject>) returns (r: seq<EntryObject>)
    ensures Contents(r) == Insert(e.Content(), Contents(s))
    ensures multiset(r) == multiset{e} + multiset(s)
  {
    if s == [] || e.from <= s[0].from {
      r := [e] + s;
      ContentsCons(e, s);
    } else {
      var rest := InsertObject(e, s[1..]);
      r := [s[0]] + rest;
      ContentsCons(s[0], rest);
      assert Contents(s)[1..] == Contents(s[1..]);
      assert s == [s[0]] + s[1..];
    }
  }

  method SortObjects(s: seq<EntryObject>) returns (r: seq<EntryObject>)
    ensures Contents(r) == SortByFrom(Contents(s)) && multiset(r) == multiset(s)
  {
    if s == [] {
      r := [];
    } else {
      var rest := SortObjects(s[1..]);
      assert Contents(s)[0] == s[0].Content() && Contents(s)[1..] == Contents(s[1..]);
      r := InsertObject(s[0], rest);
      assert multiset(s) == multiset{s[0]} + multiset(s[1..]) by { assert s == [s[0]] + s[1..]; }
    }
  }

  // ---- What stretching does --------------------------------------------------

  /** The first entry reaches back to `from` and the last one on to `to`. */
  function Extended(s: seq<Entry>, from: Time, to: Time): (x: seq<Entry>)
    requires s != []
    ensures |x| == |s|
  {
    var x := s[0 := s[0].(from := Min(from, s[0].from))];
    x[|s| - 1 := x[|s| - 1].(to := Max(to, s[|s| - 1].to))]
  }

  /** The entries given back for sorted originals `q`: all of them, or those moved. */
  function Moved(adapted: bool, q: seq<Entry>, from: Time, to: Time): seq<Entry>
    requires q != []
  {
    var x := Extended(q, from, to);
    var back, on := from < q[0].from, q[|q| - 1].to < to;
    if adapted then
      if back || on then x else []
    else
      (if back then [x[0]] else []) + if on && (!back || |q| > 1) then [x[|q| - 1]] else []
  }

  /** The entries that go into the payload for a field with originals `s`. */
  function Bounded(kind: FieldKind, s: seq<Entry>, from: Time, to: Time): seq<Entry>
    requires s != []
  {
    SortKeeps(s);
    if kind.ZeroToMany? then s else Moved(kind.AdaptedZeroToMany?, SortByFrom(s), from, to)
  }

  /** Moves the start of the first and the end of the last object, which may be the
      same one, and returns the objects whose entries go into the payload. */
  method MoveEnds(from: Time, to: Time, adapted: bool, sorted: seq<EntryObject>) returns (updated: seq<EntryObject>)
    requires sorted != [] && Distinct(sorted)
    modifies sorted[0], sorted[|sorted| - 1]
    ensures Contents(sorted) == Extended(old(Contents(sorted)), from, to)
    ensures Contents(updated) == Moved(adapted, old(Contents(sorted)), from, to)
  {
    ghost var q := Contents(sorted);
    var first, last := sorted[0], sorted[|sorted| - 1];
    updated := [];
    ghost var back, on := from < q[0].from, q[|q| - 1].to < to;
    if from < first.from {
      first.from := from;
      updated := if adapted then sorted else [first];
    }
    if last.to < to {
      last.to := to;
      if adapted {
        updated := sorted;
      } else if updated == [] || last != first {
        updated := updated + [last];
      }
    }
    assert Contents(sorted) == Extended(q, from, to);
    if !adapted {
      assert updated == (if back then [first] else []) + if on && (!back || |q| > 1) then [last] else [];
    }
  }

  method SortAndMoveEnds(from: Time, to: Time, adapted: bool, props: seq<EntryObject>)
      returns (updated: seq<EntryObject>)
    requires props != [] && Distinct(props)
    modifies props
    ensures SortByFrom(old(Contents(props))) != []
    ensures Contents(updated) == Moved(adapted, SortByFrom(old(Contents(props))), from, to)
    ensures multiset(Contents(props)) == multiset(Extended(SortByFrom(old(Contents(props))), from, to))
  {
    var sorted := SortObjects(props);
    DistinctKept(props, sorted);
    SameObjects(props, sorted);
    assert sorted[0] in props && sorted[|sorted| - 1] in props;
    updated := MoveEnds(from, to, adapted, sorted);
    ContentsPermuted(props, sorted);
  }

  /** The entries one field contributes to the payload; its objects move in place. */
  method FieldBounds(from: Time, to: Time, kind: FieldKind, props: seq<EntryObject>) returns (entries: seq<Entry>)
    requires props != [] && Distinct(props)
    modifies props
    ensures entries == Bounded(kind, old(Contents(props)), from, to)
    ensures SortByFrom(old(Contents(props))) != []
    ensures kind.ZeroToMany? ==> Contents(props) == old(Contents(props))
    ensures !kind.ZeroToMany? ==>
      multiset(Contents(props)) == multiset(Extended(SortByFrom(old(Contents(props))), from, to))
  {
    SortKeeps(Contents(props));
    if kind == ZeroToMany {
      entries := ReadAll(props);
    } else {
      var updated := SortAndMoveEnds(from, to, kind == AdaptedZeroToMany, props);
      entries := ReadAll(updated);
    }
  }

  /** One field's pass: what was moved, if anything, is put into the payload. */
  method EnsureFieldBounds(from: Time, to: Time, field: Field, props: seq<EntryObject>, payload: Document)
      returns (r: Document)
    requires Distinct(props)
    modifies props
    ensures props == [] ==> r == payload
    ensures props != [] ==>
      var updated := Bounded(field.kind, old(Contents(props)), from, to);
      r == if updated == [] then payload else SetObjValue(payload, field.path, updated)
  {
    r := payload;
    if props != [] {
      var updated := FieldBounds(from, to, field.kind, props);
      if updated != [] {
        r := SetObjValue(payload, field.path, updated);
      }
    }
  }

  lemma SameObjects(a: seq<EntryObject>, b: seq<EntryObject>)
    requires multiset(a) == multiset(b)
    ensures forall x :: x in b ==> x in a
  {
    forall x | x in b
      ensures x in a
    {
      assert x in multiset(b);
      assert x in multiset(a);
    }
  }

  /** Writing the entries out as plain data. */
  method ReadAll(objs: seq<EntryObject>) returns (s: seq<Entry>)
    ensures s == Contents(objs)
  {
    s := [];
    for i := 0 to |objs|
      invariant |s| == i && forall j :: 0 <= j < i ==> s[j] == objs[j].Content()
    {
      s := s + [objs[i].Content()];
    }
  }

  lemma {:induction false} ContentsPermuted(a: seq<EntryObject>, b: seq<EntryObject>)
    requires multiset(a) == multiset(b)
    ensures multiset(Contents(a)) == multiset(Contents(b))
  {
    if a == [] {
      assert |multiset(b)| == 0;
    } else {
      assert a[0] in multiset(b);
      var i :| 0 <= i < |b| && b[i] == a[0];
      SplitOff(a, 0);
      SplitOff(b, i);
      ContentsPermuted(Without(a, 0), Without(b, i));
      ContentsWithout(a, 0);
      ContentsWithout(b, i);
      SplitOff(Contents(a), 0);
      SplitOff(Contents(b), i);
    }
  }

  function Without<T>(s: seq<T>, i: nat): (r: seq<T>)
    requires i < |s|
    ensures |r| == |s| - 1
  {
    s[..i] + s[i + 1..]
  }

  lemma SplitOff<T>(s: seq<T>, i: nat)
    requires i < |s|
    ensures multiset(s) == multiset{s[i]} + multiset(Without(s, i))
    ensures multiset(Without(s, i)) == multiset(s) - multiset{s[i]}
  {
    assert s == s[..i] + ([s[i]] + s[i + 1..]);
  }

  lemma ContentsWithout(s: seq<EntryObject>, i: nat)
    requires i < |s|
    ensures Contents(Without(s, i)) == Without(Contents(s), i)
  {}

  lemma DistinctKept(a: seq<EntryObject>, b: seq<EntryObject>)
    requires multiset(a) == multiset(b) && Distinct(a)
    ensures |b| == |a| && Distinct(b)
  {
    assert |multiset(a)| == |multiset(b)|;
    forall i, j | 0 <= i < j < |b|
      ensures b[i] != b[j]
    {
      if b[i] == b[j] {
        MultiplicityTwo(b, i, j);
        MultiplicityOne(a, b[i]);
      }
    }
  }

  lemma MultiplicityTwo(s: seq<EntryObject>, i: nat, j: nat)
    requires i < j < |s| && s[i] == s[j]
    ensures multiset(s)[s[i]] >= 2
  {
    assert s == s[..j] + s[j..];
    assert s[i] in multiset(s[..j]) by { assert s[..j][i] == s[i]; }
    assert s[j] in multiset(s[j..]) by { assert s[j..][0] == s[j]; }
  }

  lemma {:induction false} MultiplicityOne(s: seq<EntryObject>, x: EntryObject)
    requires Distinct(s)
    ensures multiset(s)[x] <= 1
  {
    if s != [] {
      assert s == [s[0]] + s[1..];
      MultiplicityOne(s[1..], x);
      if x == s[0] {
        assert x !in s[1..];
        assert multiset(s[1..])[x] == 0;
      }
    }
  }

  // ---- Its meaning on regular timelines ---------------------------------------

  /** Non-empty entries one after the other, gaps allowed. */
  ghost predicate Regular(s: seq<Entry>) {
    && (forall i :: 0 <= i < |s| ==> s[i].from < s[i].to)
    && (forall i, j :: 0 <= i < j < |s| ==> s[i].to <= s[j].from)
  }

  /** Disjoint non-empty entries are a regular timeline once sorted. */
  lemma SortedRegular(s: seq<Entry>)
    requires Disjoint(s) && forall i :: 0 <= i < |s| ==> s[i].from < s[i].to
    ensures Regular(SortByFrom(s))
  {
    SortKeeps(s);
    var q := SortByFrom(s);
    assert Disjoint(q);
    DisjointPairwise(q);
    forall i | 0 <= i < |q|
      ensures q[i].from < q[i].to
    {
      assert q[i] in multiset(q);
      assert q[i] in s;
    }
    forall i, j | 0 <= i < j < |q|
      ensures q[i].to <= q[j].from
    {
      assert !(Covers(q[i], q[j].from) && Covers(q[j], q[j].from));
    }
  }

  lemma {:induction false} RegularActive(s: seq<Entry>, i: nat, t: Time)
    requires Regular(s) && i < |s| && Covers(s[i], t)
    ensures ActiveAt(s, t) == multiset{s[i].value}
  {
    if i == 0 {
      ActiveNone(s[1..], t);
    } else {
      RegularActive(s[1..], i - 1, t);
    }
  }

  /** Stretching reaches the bounds and keeps the timeline regular. */
  lemma ExtendedRegular(s: seq<Entry>, from: Time, to: Time)
    requires Regular(s) && s != []
    ensures var x := Extended(s, from, to);
            Regular(x) && x[0].from == Min(from, s[0].from) && x[|x| - 1].to == Max(to, s[|s| - 1].to)
  {}

  /** It changes what is active only outside of the old hull: before it the first
      value comes into force, after it the last one stays. Gaps inside remain. */
  lemma ExtendedActive(s: seq<Entry>, from: Time, to: Time, t: Time)
    requires Regular(s) && s != []
    ensures ActiveAt(Extended(s, from, to), t) ==
              if s[0].from <= t < s[|s| - 1].to then ActiveAt(s, t)
              else if from <= t < s[0].from then multiset{s[0].value}
              else if s[|s| - 1].to <= t < to then multiset{s[|s| - 1].value}
              else multiset{}
  {
    var x := Extended(s, from, to);
    ExtendedRegular(s, from, to);
    if i: nat :| i < |x| && Covers(x[i], t) {
      RegularActive(x, i, t);
      ExtendedCovers(s, from, to, i, t);
      if s[0].from <= t < s[|s| - 1].to {
        RegularActive(s, i, t);
      }
    } else {
      ActiveNone(x, t);
      assert !Covers(x[0], t) && !Covers(x[|x| - 1], t);
      if s[0].from <= t < s[|s| - 1].to {
        forall i | 0 <= i < |s|
          ensures !Covers(s[i], t)
        {
          assert !Covers(x[i], t);
        }
        ActiveNone(s, t);
      }
    }
  }

  lemma ExtendedCovers(s: seq<Entry>, from: Time, to: Time, i: nat, t: Time)
    requires Regular(s) && i < |s| && Covers(Extended(s, from, to)[i], t)
    ensures Extended(s, from, to)[i].value == s[i].value
    ensures s[0].from <= t < s[|s| - 1].to ==> Covers(s[i], t)
    ensures t < s[0].from ==> i == 0 && from <= t
    ensures s[|s| - 1].to <= t ==> i == |s| - 1 && t < to
  {
    assert i > 0 ==> s[0].to <= s[i].from;
    assert i < |s| - 1 ==> s[i].to <= s[|s| - 1].from;
  }

  // ---- The two branches agree -------------------------------------------------

  lemma {:induction false} SortFixed(s: seq<Entry>)
    requires Sorted(s)
    ensures SortByFrom(s) == s
  {
    if s != [] {
      SortFixed(s[1..]);
    }
  }

  lemma {:induction false} InsertLast(e: Entry, s: seq<Entry>)
    requires forall i :: 0 <= i < |s| ==> s[i].from < e.from
    ensures Insert(e, s) == s + [e]
  {
    if s != [] {
      InsertLast(e, s[1..]);
      assert s == [s[0]] + s[1..];
    }
  }

  lemma {:induction false} CutAllOutside(s: seq<Entry>, from: Time, to: Time)
    requires forall i :: 0 <= i < |s| ==> to <= s[i].from || s[i].to <= from
    ensures CutAll(s, from, to) == s
  {
    if s != [] {
      CutAllOutside(s[1..], from, to);
    }
  }

  function AsEdit(e: Entry): Edit { Edit(e.from, e.to, [e.value]) }

  lemma {:induction false} CutOneOut(s: seq<Entry>, i: nat, e: Entry)
    requires i < |s| && s[i].from < s[i].to && e.from <= s[i].from && s[i].to <= e.to
    requires forall j :: 0 <= j < |s| && j != i ==> e.to <= s[j].from || s[j].to <= e.from
    ensures CutAll(s, e.from, e.to) == s[..i] + s[i + 1..]
  {
    if i == 0 {
      CutAllOutside(s[1..], e.from, e.to);
    } else {
      CutOneOut(s[1..], i - 1, e);
      assert s[..i] + s[i + 1..] == [s[0]] + (s[1..][..i - 1] + s[1..][i..]);
    }
  }

  lemma RegularSorted(s: seq<Entry>)
    requires Regular(s)
    ensures Sorted(s)
  {}

  lemma WithoutSorted(s: seq<Entry>, i: nat)
    requires Sorted(s) && i < |s|
    ensures Sorted(s[..i] + s[i + 1..])
  {}

  lemma OverwriteSorted(s: seq<Entry>, e: Entry, rest: seq<Entry>)
    requires e.from <= e.to && SortByFrom(s) == s && CutAll(s, e.from, e.to) == rest && Sorted(rest)
    ensures Overwrite(s, AsEdit(e)) == Insert(e, rest)
  {
    assert Stamped([e.value], e.from, e.to) == [e];
    SortFixed(rest);
    assert ([e] + rest)[1..] == rest;
  }

  /** Overwriting entry `i` of a regular timeline by one that covers it and meets no
      other removes it, and the new entry is sorted in. */
  lemma OverwriteOne(s: seq<Entry>, i: nat, e: Entry)
    requires Regular(s) && i < |s| && e.from <= s[i].from && s[i].to <= e.to
    requires forall j :: 0 <= j < |s| && j != i ==> e.to <= s[j].from || s[j].to <= e.from
    ensures Overwrite(s, AsEdit(e)) == Insert(e, s[..i] + s[i + 1..])
  {
    RegularSorted(s);
    SortFixed(s);
    CutOneOut(s, i, e);
    WithoutSorted(s, i);
    OverwriteSorted(s, e, s[..i] + s[i + 1..]);
  }

  lemma StretchFirst(q: seq<Entry>, e: Entry)
    requires Regular(q) && q != [] && e.from <= q[0].from && e.to == q[0].to
    ensures Overwrite(q, AsEdit(e)) == [e] + q[1..]
  {
    OverwriteOne(q, 0, e);
    assert q[..0] + q[1..] == q[1..];
    assert |q| > 1 ==> e.from <= q[1].from;
  }

  lemma StretchLast(q: seq<Entry>, e: Entry)
    requires Regular(q) && q != [] && e.from == q[|q| - 1].from && q[|q| - 1].to <= e.to
    ensures Overwrite(q, AsEdit(e)) == q[..|q| - 1] + [e]
  {
    var n := |q| - 1;
    OverwriteOne(q, n, e);
    assert q[..n] + q[n + 1..] == q[..n];
    InsertLast(e, q[..n]);
  }

  lemma StretchOnly(q: seq<Entry>, e: Entry)
    requires Regular(q) && |q| == 1 && e.from <= q[0].from && q[0].to <= e.to
    ensures Overwrite(q, AsEdit(e)) == [e]
  {
    OverwriteOne(q, 0, e);
    assert q[..0] + q[1..] == [];
  }

  /** The entries given back for a zero-to-one field, overwriting the original
      timeline one after the other, make exactly the list given for an adapted
      field; nothing is given for the one exactly if nothing is for the other. */
  lemma BranchesAgree(q: seq<Entry>, from: Time, to: Time)
    requires q != [] && Regular(q)
    ensures var one, many := Moved(false, q, from, to), Moved(true, q, from, to);
            && (one == [] <==> many == []) && |one| <= 2
            && (|one| == 1 ==> Overwrite(q, AsEdit(one[0])) == many)
            && (|one| == 2 ==> Overwrite(Overwrite(q, AsEdit(one[0])), AsEdit(one[1])) == many)
  {
    var x, n := Extended(q, from, to), |q| - 1;
    if n == 0 {
      if from < q[0].from || q[0].to < to {
        StretchOnly(q, x[0]);
        assert [x[0]] == x;
      }
    } else {
      var q' := q;
      if from < q[0].from {
        q' := [x[0]] + q[1..];
        StretchFirst(q, x[0]);
      }
      if q[n].to < to {
        StretchLast(q', x[n]);
        assert q'[..n] + [x[n]] == x;
      } else if from < q[0].from {
        assert q' == x;
      }
    }
  }

  // ---- What the payload comes to ------------------------------------------------

  /** The entries given back for a zero-to-one field, put over the original timeline. */
  function Overlaid(q: seq<Entry>, given: seq<Entry>): seq<Entry>
    requires forall e :: e in given ==> e.from <= e.to
    decreases |given|
  {
    if given == [] then q
    else
      var n := |given| - 1;
      Overwrite(Overlaid(q, given[..n]), AsEdit(given[n]))
  }

  /** Nothing is given back exactly if the timeline reaches both bounds already. */
  lemma NothingMoved(adapted: bool, q: seq<Entry>, from: Time, to: Time)
    requires q != []
    ensures Moved(adapted, q, from, to) == [] <==> q[0].from <= from && to <= q[|q| - 1].to
  {}

  lemma MovedEntries(adapted: bool, q: seq<Entry>, from: Time, to: Time)
    requires q != [] && Regular(q)
    ensures forall e :: e in Moved(adapted, q, from, to) ==> e.from < e.to
  {
    var x := Extended(q, from, to);
    ExtendedRegular(q, from, to);
    assert forall e :: e in Moved(adapted, q, from, to) ==> e in x;
  }

  /** The timeline that results from what is given back: the list itself for an adapted
      field, the overlay on the original for a zero-to-one field. */
  function Resulting(adapted: bool, q: seq<Entry>, from: Time, to: Time): seq<Entry>
    requires q != [] && Regular(q)
  {
    MovedEntries(adapted, q, from, to);
    var given := Moved(adapted, q, from, to);
    if given == [] then q else if adapted then given else Overlaid(q, given)
  }

  lemma ResultingIsExtended(adapted: bool, q: seq<Entry>, from: Time, to: Time)
    requires q != [] && Regular(q)
    ensures Resulting(adapted, q, from, to) == Extended(q, from, to)
  {
    MovedEntries(adapted, q, from, to);
    NothingMoved(adapted, q, from, to);
    var given, x := Moved(adapted, q, from, to), Extended(q, from, to);
    if given == [] {
      assert x == q;
    } else if !adapted {
      BranchesAgree(q, from, to);
      OverlaidFew(q, given);
    }
  }

  lemma {:induction false} OverlaidFew(q: seq<Entry>, given: seq<Entry>)
    requires forall e :: e in given ==> e.from <= e.to
    ensures |given| == 1 ==> Overlaid(q, given) == Overwrite(q, AsEdit(given[0]))
    ensures |given| == 2 ==> Overlaid(q, given) == Overwrite(Overwrite(q, AsEdit(given[0])), AsEdit(given[1]))
  {
    if |given| == 1 {
      assert Overlaid(q, given[..0]) == q;
    }
    if |given| == 2 {
      assert given[..1][0] == given[0];
      OverlaidFew(q, given[..1]);
    }
  }

  /** `r` is `q`, stretched to reach both bounds, as seen at the instant `t`. */
  ghost predicate Stretched(r: seq<Entry>, q: seq<Entry>, from: Time, to: Time, t: Time)
    requires q != []
  {
    var n := |q| - 1;
    && r != [] && Regular(r)
    && r[0].from <= from && r[0].from <= q[0].from && (r[0].from == from || r[0].from == q[0].from)
    && to <= r[|r| - 1].to && q[n].to <= r[|r| - 1].to && (r[|r| - 1].to == to || r[|r| - 1].to == q[n].to)
    && (q[0].from <= t < q[n].to ==> ActiveAt(r, t) == ActiveAt(q, t))
    && (from <= t < q[0].from ==> ActiveAt(r, t) == multiset{q[0].value})
    && (q[n].to <= t < to ==> ActiveAt(r, t) == multiset{q[n].value})
    && (t < from && t < q[0].from ==> ActiveAt(r, t) == multiset{})
    && (t >= to && t >= q[n].to ==> ActiveAt(r, t) == multiset{})
  }

  /** In both branches the result reaches both bounds, and is active at each instant as
      the original is inside its hull; before it the first value comes into force, after
      it the last one stays. */
  lemma ResultingActive(adapted: bool, q: seq<Entry>, from: Time, to: Time, t: Time)
    requires q != [] && Regular(q)
    ensures Stretched(Resulting(adapted, q, from, to), q, from, to, t)
  {
    ResultingIsExtended(adapted, q, from, to);
    ExtendedRegular(q, from, to);
    ExtendedActive(q, from, to, t);
    assert Regular(q) ==> q[0].from < q[|q| - 1].to by { assert |q| > 1 ==> q[0].to <= q[|q| - 1].from; }
  }
}
