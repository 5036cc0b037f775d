/** Timelines of half-open intervals and the overwriting of a stretch of them. */
module Timeline {
  import opened Prelude

  /** The other fields of an entry, without its validity. */
  type Value = map<string, string>

  /** An entry with its validity [from, to). */
  datatype Entry = Entry(from: Time, to: Time, value: Value)

  predicate Covers(e: Entry, t: Time) { e.from <= t < e.to }

  /** The values active at an instant, as often as they are. */
  function ActiveAt(s: seq<Entry>, t: Time): multiset<Value> {
    if s == [] then multiset{}
    else (if Covers(s[0], t) then multiset{s[0].value} else multiset{}) + ActiveAt(s[1..], t)
  }

  lemma {:induction false} ActiveAppend(a: seq<Entry>, b: seq<Entry>, t: Time)
    ensures ActiveAt(a + b, t) == ActiveAt(a, t) + ActiveAt(b, t)
  {
    if a == [] {
      assert a + b == b;
    } else {
      assert (a + b)[1..] == a[1..] + b;
      ActiveAppend(a[1..], b, t);
    }
  }

  lemma ActiveSingle(e: Entry, t: Time)
    ensures ActiveAt([e], t) == if Covers(e, t) then multiset{e.value} else multiset{}
  {
    assert [e][1..] == [];
  }

  // ---- Sorting by start ----------------------------------------------------

  function Insert(e: Entry, s: seq<Entry>): seq<Entry> {
    if s == [] || e.from <= s[0].from then [e] + s else [s[0]] + Insert(e, s[1..])
  }

  /** The stable sort by start of validity. */
  function SortByFrom(s: seq<Entry>): seq<Entry> {
    if s == [] then [] else Insert(s[0], SortByFrom(s[1..]))
  }

  predicate Sorted(s: seq<Entry>) { forall i, j :: 0 <= i < j < |s| ==> s[i].from <= s[j].from }

  lemma {:induction false} InsertElements(e: Entry, s: seq<Entry>)
    ensures multiset(Insert(e, s)) == multiset{e} + multiset(s)
    ensures |Insert(e, s)| == |s| + 1
  {
    if s != [] && e.from > s[0].from {
      InsertElements(e, s[1..]);
      assert s == [s[0]] + s[1..];
    }
  }

  lemma {:induction false} InsertSorted(e: Entry, s: seq<Entry>)
    requires Sorted(s)
    ensures Sorted(Insert(e, s))
  {
    if s != [] && e.from > s[0].from {
      InsertSorted(e, s[1..]);
      InsertElements(e, s[1..]);
      var rest := Insert(e, s[1..]);
      forall i | 0 <= i < |rest|
        ensures s[0].from <= rest[i].from
      {
        assert rest[i] in multiset(rest);
        assert rest[i] == e || rest[i] in s[1..];
      }
    }
  }

  lemma {:induction false} InsertActive(e: Entry, s: seq<Entry>, t: Time)
    ensures ActiveAt(Insert(e, s), t) == ActiveAt([e], t) + ActiveAt(s, t)
  {
    if s == [] || e.from <= s[0].from {
      ActiveAppend([e], s, t);
    } else {
      InsertActive(e, s[1..], t);
    }
  }

  lemma {:induction false} SortActive(s: seq<Entry>, t: Time)
    ensures ActiveAt(SortByFrom(s), t) == ActiveAt(s, t)
  {
    if s != [] {
      SortActive(s[1..], t);
      InsertActive(s[0], SortByFrom(s[1..]), t);
      ActiveSingle(s[0], t);
    }
  }

  lemma {:induction false} SortKeeps(s: seq<Entry>)
    ensures multiset(SortByFrom(s)) == multiset(s) && Sorted(SortByFrom(s)) && |SortByFrom(s)| == |s|
    ensures forall t :: ActiveAt(SortByFrom(s), t) == ActiveAt(s, t)
  {
    if s != [] {
      var rest := SortByFrom(s[1..]);
      SortKeeps(s[1..]);
      InsertElements(s[0], rest);
      InsertSorted(s[0], rest);
      assert s == [s[0]] + s[1..];
    }
    forall t
      ensures ActiveAt(SortByFrom(s), t) == ActiveAt(s, t)
    {
      SortActive(s, t);
    }
  }

  lemma SortMembers(s: seq<Entry>)
    ensures forall x :: x in SortByFrom(s) <==> x in s
  {
    SortKeeps(s);
    forall x
      ensures x in SortByFrom(s) <==> x in s
    {
      assert x in multiset(SortByFrom(s)) <==> x in multiset(s);
    }
  }

  // ---- Overwriting ---------------------------------------------------------

  /** What is left of an entry outside of [from, to). */
  function Cut(e: Entry, from: Time, to: Time): seq<Entry> {
    if to <= e.from || e.to <= from then [e]
    else if from <= e.from then
      if e.to <= to then [] else [e.(from := to)]
    else
      [e.(to := from)] + if to < e.to then [e.(from := to)] else []
  }

  function CutAll(s: seq<Entry>, from: Time, to: Time): seq<Entry> {
    if s == [] then [] else Cut(s[0], from, to) + CutAll(s[1..], from, to)
  }

  /** The new entries all have the same validity, and there is one. */
  predicate Uniform(s: seq<Entry>) {
    s != [] && forall i :: 0 <= i < |s| ==> s[i].from == s[0].from && s[i].to == s[0].to
  }

  function Merged(orig: Option<seq<Entry>>, new_: seq<Entry>): seq<Entry>
    requires orig.Some? ==> Uniform(new_)
  {
    if orig.None? then new_
    else SortByFrom(new_ + CutAll(SortByFrom(orig.value), new_[0].from, new_[0].to))
  }

  /** A Python list of entries: callers that hold it see what is appended to it. */
  class EntryList {
    var items: seq<Entry>

    constructor (items: seq<Entry>)
      ensures this.items == items
    {
      this.items := items;
    }

    method Append(e: Entry)
      modifies this
      ensures items == old(items) + [e]
    {
      items := items + [e];
    }
  }

  /** Appends what is left of an entry outside of [from, to). */
  method AppendPieces(e: Entry, from: Time, to: Time, newObjs: EntryList)
    modifies newObjs
    ensures newObjs.items == old(newObjs.items) + Cut(e, from, to)
  {
    if to <= e.from || e.to <= from {
      newObjs.Append(e);
      return;
    }
    if from <= e.from {
      if e.to <= to {
        return;
      } else {
        newObjs.Append(e.(from := to));
      }
    } else if from < e.to {
      newObjs.Append(e.(to := from));
      if to < e.to {
        newObjs.Append(e.(from := to));
      }
    }
  }

  /** Overwrites the originals by the new entries. The pieces of the originals that
      remain are appended to the caller's own list of new entries; the sorted
      result is another list unless there were no originals at all. */
  method MergeObjEffects(orig: Option<seq<Entry>>, newObjs: EntryList) returns (r: EntryList)
    requires orig.Some? ==> Uniform(newObjs.items)
    modifies newObjs
    ensures r.items == Merged(orig, old(newObjs.items))
    ensures orig.None? ==> r == newObjs
    ensures orig.Some? ==> fresh(r)
    ensures forall t :: ActiveAt(newObjs.items, t) == ActiveAt(r.items, t)
  {
    if orig.None? {
      return newObjs;
    }
    var sorted := SortByFrom(orig.value);
    var from, to := newObjs.items[0].from, newObjs.items[0].to;
    for i := 0 to |sorted|
      invariant newObjs.items == old(newObjs.items) + CutAll(sorted[..i], from, to)
    {
      AppendPieces(sorted[i], from, to, newObjs);
      CutAllMore(sorted, i, from, to);
    }
    assert sorted[..|sorted|] == sorted;
    SortKeeps(newObjs.items);
    r := new EntryList(SortByFrom(newObjs.items));
  }

  lemma {:induction false} CutAllAppend(a: seq<Entry>, b: seq<Entry>, from: Time, to: Time)
    ensures CutAll(a + b, from, to) == CutAll(a, from, to) + CutAll(b, from, to)
  {
    if a == [] {
      assert a + b == b;
    } else {
      assert (a + b)[1..] == a[1..] + b;
      CutAllAppend(a[1..], b, from, to);
    }
  }

  lemma CutAllMore(s: seq<Entry>, i: nat, from: Time, to: Time)
    requires i < |s|
    ensures CutAll(s[..i + 1], from, to) == CutAll(s[..i], from, to) + Cut(s[i], from, to)
  {
    assert s[..i + 1] == s[..i] + [s[i]];
    CutAllAppend(s[..i], [s[i]], from, to);
  }

  /** The pieces of a non-empty entry are non-empty, carry its value and lie within it. */
  lemma CutPieces(e: Entry, from: Time, to: Time)
    requires from <= to && e.from < e.to
    ensures forall p :: p in Cut(e, from, to) ==> e.from <= p.from < p.to <= e.to && p.value == e.value
  {}

  lemma {:induction false} CutAllActive(s: seq<Entry>, from: Time, to: Time, t: Time)
    requires from <= to
    ensures ActiveAt(CutAll(s, from, to), t) == if from <= t < to then multiset{} else ActiveAt(s, t)
  {
    if s != [] {
      var e := s[0];
      CutAllActive(s[1..], from, to, t);
      ActiveAppend(Cut(e, from, to), CutAll(s[1..], from, to), t);
      CutActive(e, from, to, t);
    }
  }

  lemma CutActive(e: Entry, from: Time, to: Time, t: Time)
    requires from <= to
    ensures ActiveAt(Cut(e, from, to), t) == if from <= t < to then multiset{} else ActiveAt([e], t)
  {
    ActiveSingle(e, t);
    if to <= e.from || e.to <= from {
    } else if from <= e.from {
      ActiveSingle(e.(from := to), t);
    } else {
      var before, after := e.(to := from), e.(from := to);
      ActiveSingle(before, t);
      ActiveSingle(after, t);
      ActiveAppend([before], [after], t);
      assert Cut(e, from, to) == if to < e.to then [before] + [after] else [before];
    }
  }

  // ---- Last writer wins ------------------------------------------------------

  /** One edit: values put in force on [from, to). */
  datatype Edit = Edit(from: Time, to: Time, values: seq<Value>)

  predicate Proper(edit: Edit) { edit.from <= edit.to && edit.values != [] }

  function Stamped(values: seq<Value>, from: Time, to: Time): (s: seq<Entry>)
    ensures |s| == |values| && forall i :: 0 <= i < |s| ==> s[i] == Entry(from, to, values[i])
  {
    if values == [] then [] else [Entry(from, to, values[0])] + Stamped(values[1..], from, to)
  }

  lemma {:induction false} StampedActive(values: seq<Value>, from: Time, to: Time, t: Time)
    ensures ActiveAt(Stamped(values, from, to), t) == if from <= t < to then multiset(values) else multiset{}
  {
    if values != [] {
      StampedActive(values[1..], from, to, t);
      assert values == [values[0]] + values[1..];
    }
  }

  function Overwrite(orig: seq<Entry>, edit: Edit): seq<Entry>
    requires Proper(edit)
  {
    Merged(Some(orig), Stamped(edit.values, edit.from, edit.to))
  }

  function OverwriteAll(orig: seq<Entry>, edits: seq<Edit>): seq<Entry>
    requires forall i :: 0 <= i < |edits| ==> Proper(edits[i])
  {
    if edits == [] then orig
    else Overwrite(OverwriteAll(orig, edits[..|edits| - 1]), edits[|edits| - 1])
  }

  /** The values of the last edit that covers `t`, if one does. */
  function LastWritten(edits: seq<Edit>, t: Time): Option<multiset<Value>> {
    if edits == [] then None
    else
      var last := edits[|edits| - 1];
      if last.from <= t < last.to then Some(multiset(last.values)) else LastWritten(edits[..|edits| - 1], t)
  }

  lemma OverwriteActive(orig: seq<Entry>, edit: Edit, t: Time)
    requires Proper(edit)
    ensures ActiveAt(Overwrite(orig, edit), t)
         == if edit.from <= t < edit.to then multiset(edit.values) else ActiveAt(orig, t)
  {
    var new_ := Stamped(edit.values, edit.from, edit.to);
    var kept := CutAll(SortByFrom(orig), edit.from, edit.to);
    SortKeeps(orig);
    SortKeeps(new_ + kept);
    ActiveAppend(new_, kept, t);
    StampedActive(edit.values, edit.from, edit.to, t);
    CutAllActive(SortByFrom(orig), edit.from, edit.to, t);
  }

  /** Last writer wins: after any sequence of edits the values active at an instant
      are those of the last edit covering it, else the original ones. */
  lemma {:induction false} LastWriterWins(orig: seq<Entry>, edits: seq<Edit>, t: Time)
    requires forall i :: 0 <= i < |edits| ==> Proper(edits[i])
    ensures var last := LastWritten(edits, t);
            ActiveAt(OverwriteAll(orig, edits), t) == if last.Some? then last.value else ActiveAt(orig, t)
  {
    if edits != [] {
      var init := edits[..|edits| - 1];
      LastWriterWins(orig, init, t);
      OverwriteActive(OverwriteAll(orig, init), edits[|edits| - 1], t);
    }
  }

  /** No instant has two active entries. */
  ghost predicate Disjoint(s: seq<Entry>) { forall t :: |ActiveAt(s, t)| <= 1 }

  lemma {:induction false} ActiveTwo(s: seq<Entry>, i: nat, t: Time)
    requires i < |s| && Covers(s[i], t)
    ensures s[i].value in ActiveAt(s, t) && |ActiveAt(s, t)| >= 1
    ensures (exists j: nat :: j < |s| && j != i && Covers(s[j], t)) ==> |ActiveAt(s, t)| >= 2
  {
    if i > 0 {
      ActiveTwo(s[1..], i - 1, t);
      if exists j: nat :: j < |s| && j != i && Covers(s[j], t) {
        var j: nat :| j < |s| && j != i && Covers(s[j], t);
        if j > 0 {
          assert s[1..][j - 1] == s[j];
        }
      }
    } else if exists j: nat :: j < |s| && j != i && Covers(s[j], t) {
      var j: nat :| j < |s| && j != i && Covers(s[j], t);
      assert s[1..][j - 1] == s[j];
      ActiveTwo(s[1..], j - 1, t);
    }
  }

  lemma {:induction false} ActiveNone(s: seq<Entry>, t: Time)
    requires forall i :: 0 <= i < |s| ==> !Covers(s[i], t)
    ensures ActiveAt(s, t) == multiset{}
  {
    if s != [] {
      ActiveNone(s[1..], t);
    }
  }

  lemma {:induction false} ActiveOne(s: seq<Entry>, t: Time)
    requires forall i, j :: 0 <= i < j < |s| ==> !(Covers(s[i], t) && Covers(s[j], t))
    ensures |ActiveAt(s, t)| <= 1
  {
    if s != [] {
      ActiveOne(s[1..], t);
      if Covers(s[0], t) {
        ActiveNone(s[1..], t);
      }
    }
  }

  /** Disjointness by instants is disjointness of every two entries. */
  lemma DisjointPairwise(s: seq<Entry>)
    ensures Disjoint(s) <==> forall i, j, t :: 0 <= i < j < |s| ==> !(Covers(s[i], t) && Covers(s[j], t))
  {
    if Disjoint(s) {
      forall i: nat, j: nat, t | i < j < |s| && Covers(s[i], t)
        ensures !Covers(s[j], t)
      {
        ActiveTwo(s, i, t);
      }
    } else {
      var t :| |ActiveAt(s, t)| > 1;
      if forall i, j :: 0 <= i < j < |s| ==> !(Covers(s[i], t) && Covers(s[j], t)) {
        ActiveOne(s, t);
      }
    }
  }

  lemma OverwriteDisjoint(orig: seq<Entry>, edit: Edit)
    requires Proper(edit) && |edit.values| == 1 && Disjoint(orig)
    ensures Disjoint(Overwrite(orig, edit))
  {
    forall t
      ensures |ActiveAt(Overwrite(orig, edit), t)| <= 1
    {
      OverwriteActive(orig, edit, t);
      assert edit.values == [edit.values[0]];
    }
  }

  /** The shape of the result: sorted, and still disjoint when each edit brings one
      value. */
  lemma {:induction false} OverwriteShape(orig: seq<Entry>, edits: seq<Edit>)
    requires edits != [] && forall i :: 0 <= i < |edits| ==> Proper(edits[i])
    ensures Sorted(OverwriteAll(orig, edits))
    ensures Disjoint(orig) && (forall i :: 0 <= i < |edits| ==> |edits[i].values| == 1) ==>
              Disjoint(OverwriteAll(orig, edits))
  {
    var init, last := edits[..|edits| - 1], edits[|edits| - 1];
    SortKeeps(Stamped(last.values, last.from, last.to) + CutAll(SortByFrom(OverwriteAll(orig, init)), last.from, last.to));
    if Disjoint(orig) && forall i :: 0 <= i < |edits| ==> |edits[i].values| == 1 {
      if init != [] {
        OverwriteShape(orig, init);
      }
      OverwriteDisjoint(OverwriteAll(orig, init), last);
    }
  }

  lemma {:induction false} CutAllFrom(s: seq<Entry>, from: Time, to: Time, p: Entry)
    requires p in CutAll(s, from, to)
    ensures exists e :: e in s && p in Cut(e, from, to)
  {
    if p in Cut(s[0], from, to) {
      assert s[0] in s;
    } else {
      CutAllFrom(s[1..], from, to, p);
      var e :| e in s[1..] && p in Cut(e, from, to);
      assert e in s;
    }
  }

  lemma MergedFrom(orig: seq<Entry>, new_: seq<Entry>, p: Entry)
    requires Uniform(new_) && p in Merged(Some(orig), new_)
    ensures p in new_ || exists e :: e in orig && p in Cut(e, new_[0].from, new_[0].to)
  {
    var q := SortByFrom(orig);
    SortMembers(orig);
    SortMembers(new_ + CutAll(q, new_[0].from, new_[0].to));
    if p !in new_ {
      CutAllFrom(q, new_[0].from, new_[0].to, p);
    }
  }

  /** A piece of an entry lies within it, with its value, and is not empty if the entry
      is not. */
  predicate Piece(p: Entry, e: Entry) {
    e.from <= p.from && p.to <= e.to && p.value == e.value && (e.from < e.to ==> p.from < p.to)
  }

  lemma PieceOfPiece(p: Entry, q: Entry, e: Entry)
    requires Piece(p, q) && Piece(q, e)
    ensures Piece(p, e)
  {}

  /** One overwriting leaves entries of the edit and pieces of the originals. */
  lemma OverwriteEntries(orig: seq<Entry>, edit: Edit, p: Entry)
    requires Proper(edit) && p in Overwrite(orig, edit)
    ensures WrittenBy(p, edit) || exists e :: e in orig && Piece(p, e)
  {
    var new_ := Stamped(edit.values, edit.from, edit.to);
    MergedFrom(orig, new_, p);
    if p in new_ {
      assert Piece(p, Entry(edit.from, edit.to, p.value));
    } else {
      var e :| e in orig && p in Cut(e, edit.from, edit.to);
      assert Piece(p, e);
    }
  }

  predicate WrittenBy(p: Entry, edit: Edit) {
    p.value in edit.values && Piece(p, Entry(edit.from, edit.to, p.value))
  }

  /** After any sequence of edits each entry is a piece of an original or of what an
      edit wrote; pieces of non-empty originals are non-empty. */
  lemma {:induction false} OverwriteAllEntries(orig: seq<Entry>, edits: seq<Edit>, p: Entry)
    requires forall i :: 0 <= i < |edits| ==> Proper(edits[i])
    requires p in OverwriteAll(orig, edits)
    ensures (exists e :: e in orig && Piece(p, e)) || (exists i :: 0 <= i < |edits| && WrittenBy(p, edits[i]))
  {
    if edits == [] {
      assert Piece(p, p);
    } else {
      var n := |edits| - 1;
      OverwriteEntries(OverwriteAll(orig, edits[..n]), edits[n], p);
      if !WrittenBy(p, edits[n]) {
        var q :| q in OverwriteAll(orig, edits[..n]) && Piece(p, q);
        OverwriteAllEntries(orig, edits[..n], q);
        PieceOfEarlier(orig, edits[..n], p, q);
      }
    }
  }

  lemma PieceOfEarlier(orig: seq<Entry>, edits: seq<Edit>, p: Entry, q: Entry)
    requires Piece(p, q)
    requires (exists e :: e in orig && Piece(q, e)) || (exists i :: 0 <= i < |edits| && WrittenBy(q, edits[i]))
    ensures (exists e :: e in orig && Piece(p, e)) || (exists i :: 0 <= i < |edits| && WrittenBy(p, edits[i]))
  {
    if e :| e in orig && Piece(q, e) {
      PieceOfPiece(p, q, e);
    } else {
      var i :| 0 <= i < |edits| && WrittenBy(q, edits[i]);
      PieceOfPiece(p, q, Entry(edits[i].from, edits[i].to, q.value));
      assert WrittenBy(p, edits[i]);
    }
  }

  /** The entries that start at an instant, in order. */
  function StartingAt(s: seq<Entry>, from: Time): seq<Entry> {
    if s == [] then []
    else
      var rest := StartingAt(s[1..], from);
      if s[0].from == from then [s[0]] + rest else rest
  }

  lemma {:induction false} InsertStarting(e: Entry, s: seq<Entry>, from: Time)
    ensures StartingAt(Insert(e, s), from) == StartingAt([e] + s, from)
  {
    assert ([e] + s)[1..] == s;
    if s != [] && e.from > s[0].from {
      InsertStarting(e, s[1..], from);
      assert ([e] + s[1..])[1..] == s[1..];
      assert Insert(e, s)[1..] == Insert(e, s[1..]);
    }
  }

  /** Sorting is stable: entries with the same start keep their order. */
  lemma {:induction false} SortStable(s: seq<Entry>, from: Time)
    ensures StartingAt(SortByFrom(s), from) == StartingAt(s, from)
  {
    if s != [] {
      SortStable(s[1..], from);
      InsertStarting(s[0], SortByFrom(s[1..]), from);
      assert ([s[0]] + SortByFrom(s[1..]))[1..] == SortByFrom(s[1..]);
    }
  }
}
