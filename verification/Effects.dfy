/** Cutting an object into effects: stretches of time in which no relevant entry
    begins or ends. */
module Effects {
  import opened Prelude
  import opened Timeline

  /** The keys of interest for each group of an object. */
  type Selection = map<string, seq<string>>

  /** An object: lists of entries by group and key. */
  type LoraObject = map<string, map<string, seq<Entry>>>

  datatype Effect = Effect(start: Time, end: Time, content: LoraObject)

  function KeysFor(sel: Selection, group: string): seq<string> { if group in sel then sel[group] else [] }

  /** The relevant keys of a group, then the additional ones. */
  function Everything(relevant: Selection, additional: Selection): Selection {
    map group | group in relevant.Keys + additional.Keys :: KeysFor(relevant, group) + KeysFor(additional, group)
  }

  predicate Selects(sel: Selection, group: string, key: string) { group in sel && key in sel[group] }

  function ListOf(obj: LoraObject, group: string, key: string): seq<Entry> {
    if group in obj && key in obj[group] then obj[group][key] else []
  }

  /** `e` is an entry of the object under one of the selected keys. */
  ghost predicate Has(obj: LoraObject, sel: Selection, e: Entry) {
    exists group, key :: Selects(sel, group, key) && e in ListOf(obj, group, key)
  }

  // ---- The cut points ------------------------------------------------------

  ghost predicate IsCut(obj: LoraObject, relevant: Selection, t: Time) {
    exists e :: Has(obj, relevant, e) && (t == e.from || t == e.to)
  }

  ghost predicate EntryBound(s: seq<Entry>, t: Time) {
    exists i :: 0 <= i < |s| && (t == s[i].from || t == s[i].to)
  }

  method EntryBounds(s: seq<Entry>) returns (cuts: set<Time>)
    ensures forall t :: t in cuts <==> EntryBound(s, t)
  {
    cuts := {};
    for i := 0 to |s|
      invariant forall t :: t in cuts <==> EntryBound(s[..i], t)
    {
      EntryBoundMore(s, i);
      cuts := cuts + {s[i].from, s[i].to};
    }
    assert s[..|s|] == s;
  }

  lemma EntryBoundMore(s: seq<Entry>, i: nat)
    requires i < |s|
    ensures forall t :: EntryBound(s[..i + 1], t) <==> EntryBound(s[..i], t) || t == s[i].from || t == s[i].to
  {
    forall t
      ensures EntryBound(s[..i + 1], t) <==> EntryBound(s[..i], t) || t == s[i].from || t == s[i].to
    {
      if EntryBound(s[..i], t) {
        var j :| 0 <= j < i && (t == s[..i][j].from || t == s[..i][j].to);
        assert s[..i + 1][j] == s[j];
      }
      assert s[..i + 1][i] == s[i];
    }
  }

  method KeyBounds(entries: map<string, seq<Entry>>, keys: seq<string>) returns (cuts: set<Time>)
    ensures forall t :: t in cuts <==> exists key :: key in keys && key in entries && EntryBound(entries[key], t)
  {
    cuts := {};
    for i := 0 to |keys|
      invariant forall t :: t in cuts <==> exists key :: key in keys[..i] && key in entries && EntryBound(entries[key], t)
    {
      assert forall key :: key in keys[..i + 1] <==> key in keys[..i] || key == keys[i];
      if keys[i] in entries {
        var more := EntryBounds(entries[keys[i]]);
        cuts := cuts + more;
      }
    }
    assert keys[..|keys|] == keys;
  }

  ghost predicate GroupBound(obj: LoraObject, relevant: Selection, group: string, t: Time) {
    group in relevant && group in obj
    && exists key :: key in relevant[group] && key in obj[group] && EntryBound(obj[group][key], t)
  }

  method CutPoints(obj: LoraObject, relevant: Selection) returns (cuts: set<Time>)
    ensures forall t :: t in cuts <==> IsCut(obj, relevant, t)
  {
    cuts := {};
    var groups := relevant.Keys;
    while groups != {}
      invariant groups <= relevant.Keys
      invariant forall t :: t in cuts <==> exists g :: g in relevant.Keys - groups && GroupBound(obj, relevant, g, t)
      decreases |groups|
    {
      var group :| group in groups;
      ghost var before := relevant.Keys - groups;
      groups := groups - {group};
      assert relevant.Keys - groups == before + {group};
      if group in obj {
        var more := KeyBounds(obj[group], relevant[group]);
        cuts := cuts + more;
      }
    }
    forall t
      ensures t in cuts <==> IsCut(obj, relevant, t)
    {
      BoundIsCut(obj, relevant, t);
    }
  }

  lemma BoundIsCut(obj: LoraObject, relevant: Selection, t: Time)
    ensures (exists g :: g in relevant.Keys && GroupBound(obj, relevant, g, t)) <==> IsCut(obj, relevant, t)
  {
    if g :| g in relevant.Keys && GroupBound(obj, relevant, g, t) {
      var key :| key in relevant[g] && key in obj[g] && EntryBound(obj[g][key], t);
      var i :| 0 <= i < |obj[g][key]| && (t == obj[g][key][i].from || t == obj[g][key][i].to);
      assert Selects(relevant, g, key) && obj[g][key][i] in ListOf(obj, g, key);
      assert Has(obj, relevant, obj[g][key][i]);
    }
    if IsCut(obj, relevant, t) {
      var e :| Has(obj, relevant, e) && (t == e.from || t == e.to);
      var g, key :| Selects(relevant, g, key) && e in ListOf(obj, g, key);
      var i :| 0 <= i < |obj[g][key]| && obj[g][key][i] == e;
      assert EntryBound(obj[g][key], t);
      assert GroupBound(obj, relevant, g, t);
    }
  }

  lemma IncreasingMore(r: seq<Time>, t: Time)
    requires Increasing(r) && forall u :: u in r ==> u < t
    ensures Increasing(r + [t])
  {
    assert forall i :: 0 <= i < |r| ==> r[i] in r;
  }

  /** The elements of a set in increasing order. */
  method SortedElements(s: set<Time>) returns (r: seq<Time>)
    ensures Increasing(r) && forall t :: t in r <==> t in s
  {
    r := [];
    var todo := s;
    while todo != {}
      invariant todo <= s && Increasing(r)
      invariant forall t :: t in s <==> t in r || t in todo
      invariant forall t, u :: t in r && u in todo ==> t < u
      decreases |todo|
    {
      var least := Least(todo);
      IncreasingMore(r, least);
      r := r + [least];
      todo := todo - {least};
    }
  }

  method AnyOf<T>(s: set<T>) returns (x: T)
    requires s != {}
    ensures x in s
  {
    x :| x in s;
  }

  method Least(s: set<Time>) returns (m: Time)
    requires s != {}
    ensures m in s && forall t :: t in s ==> m <= t
  {
    m := AnyOf(s);
    var todo := s - {m};
    while todo != {}
      invariant todo <= s && m in s
      invariant forall t :: t in s && t !in todo ==> m <= t
      decreases |todo|
    {
      var t := AnyOf(todo);
      todo := todo - {t};
      if t < m {
        m := t;
      }
    }
  }

  // ---- The chunks ------------------------------------------------------

  predicate Overlaps(e: Entry, start: Time, end: Time) { e.from < end && start < e.to }

  function FilterList(s: seq<Entry>, start: Time, end: Time): (r: seq<Entry>)
    ensures forall e :: e in r <==> e in s && Overlaps(e, start, end)
  {
    if s == [] then []
    else (if Overlaps(s[0], start, end) then [s[0]] else []) + FilterList(s[1..], start, end)
  }

  function EffectAt(obj: LoraObject, everything: Selection, start: Time, end: Time): LoraObject {
    map group | group in everything && group in obj ::
      map key | key in everything[group] && key in obj[group] :: FilterList(obj[group][key], start, end)
  }

  predicate NonEmpty(content: LoraObject) {
    exists group, key :: group in content && key in content[group] && content[group][key] != []
  }

  /** The effect of one stretch, if anything is in force there. */
  function Chunk(obj: LoraObject, everything: Selection, start: Time, end: Time): seq<Effect> {
    var content := EffectAt(obj, everything, start, end);
    if NonEmpty(content) then [Effect(start, end, content)] else []
  }

  function Chunks(obj: LoraObject, everything: Selection, cuts: seq<Time>): seq<Effect> {
    var n := |cuts|;
    if n < 2 then [] else Chunks(obj, everything, cuts[..n - 1]) + Chunk(obj, everything, cuts[n - 2], cuts[n - 1])
  }

  lemma ChunksMore(obj: LoraObject, everything: Selection, cuts: seq<Time>, i: nat)
    requires i + 1 < |cuts|
    ensures Chunks(obj, everything, cuts[..i + 2])
         == Chunks(obj, everything, cuts[..i + 1]) + Chunk(obj, everything, cuts[i], cuts[i + 1])
  {
    assert cuts[..i + 2][..i + 1] == cuts[..i + 1];
  }

  /** The stretches between neighbouring cut points in which something is in force. */
  method CutChunks(obj: LoraObject, everything: Selection, cuts: seq<Time>) returns (effects: seq<Effect>)
    ensures effects == Chunks(obj, everything, cuts)
  {
    effects := [];
    var i := 0;
    while i + 1 < |cuts|
      invariant 0 <= i && (cuts != [] ==> i < |cuts|)
      invariant cuts != [] ==> effects == Chunks(obj, everything, cuts[..i + 1])
      invariant cuts == [] ==> effects == []
    {
      ChunksMore(obj, everything, cuts, i);
      var content := EffectAt(obj, everything, cuts[i], cuts[i + 1]);
      if NonEmpty(content) {
        effects := effects + [Effect(cuts[i], cuts[i + 1], content)];
      }
      i := i + 1;
    }
    if cuts != [] {
      assert cuts[..i + 1] == cuts;
    }
  }

  /** Cuts the object at every instant where a relevant entry begins or ends, and
      yields each stretch in which something selected is in force. */
  method GetEffects(obj: LoraObject, relevant: Selection, additional: Selection)
      returns (effects: seq<Effect>)
    ensures exists cuts :: IsCutting(obj, relevant, additional, cuts, effects)
  {
    var points := CutPoints(obj, relevant);
    var sorted := SortedElements(points);
    effects := CutChunks(obj, Everything(relevant, additional), sorted);
    assert forall t :: CutOrNot(obj, relevant, sorted, t);
    assert IsCutting(obj, relevant, additional, sorted, effects);
  }

  // ---- What the chunks are ----------------------------------------------------

  ghost predicate CutOrNot(obj: LoraObject, relevant: Selection, cuts: seq<Time>, t: Time) {
    t in cuts <==> IsCut(obj, relevant, t)
  }

  lemma CutsAtEnds(obj: LoraObject, relevant: Selection, cuts: seq<Time>, e: Entry)
    requires Has(obj, relevant, e) && forall t :: CutOrNot(obj, relevant, cuts, t)
    ensures e.from in cuts && e.to in cuts
  {
    assert CutOrNot(obj, relevant, cuts, e.from) && CutOrNot(obj, relevant, cuts, e.to);
  }

  /** The cut points, sorted, and the effects cut there. */
  ghost predicate IsCutting(obj: LoraObject, relevant: Selection, additional: Selection, cuts: seq<Time>, effects: seq<Effect>) {
    && Increasing(cuts) && (forall t :: CutOrNot(obj, relevant, cuts, t))
    && effects == Chunks(obj, Everything(relevant, additional), cuts)
  }

  lemma {:induction false} InChunks(obj: LoraObject, everything: Selection, cuts: seq<Time>, k: nat)
    requires k + 1 < |cuts| && NonEmpty(EffectAt(obj, everything, cuts[k], cuts[k + 1]))
    ensures Effect(cuts[k], cuts[k + 1], EffectAt(obj, everything, cuts[k], cuts[k + 1])) in Chunks(obj, everything, cuts)
  {
    if k + 2 < |cuts| {
      InChunks(obj, everything, cuts[..|cuts| - 1], k);
    }
  }

  lemma {:induction false} FromChunks(obj: LoraObject, everything: Selection, cuts: seq<Time>, x: Effect) returns (k: nat)
    requires x in Chunks(obj, everything, cuts)
    ensures k + 1 < |cuts| && x == Effect(cuts[k], cuts[k + 1], EffectAt(obj, everything, cuts[k], cuts[k + 1]))
  {
    var n := |cuts|;
    var before, last := Chunks(obj, everything, cuts[..n - 1]), Chunk(obj, everything, cuts[n - 2], cuts[n - 1]);
    assert Chunks(obj, everything, cuts) == before + last;
    if x in before {
      k := FromChunks(obj, everything, cuts[..n - 1], x);
    } else {
      assert x in last;
      k := n - 2;
    }
  }

  /** Non-empty, in order, disjoint, and none beyond `hi`. */
  ghost predicate Ordered(effects: seq<Effect>, hi: Time) {
    && (forall i :: 0 <= i < |effects| ==> effects[i].start < effects[i].end <= hi)
    && (forall i, j :: 0 <= i < j < |effects| ==> effects[i].end <= effects[j].start)
  }

  lemma {:induction false} ChunksOrdered(obj: LoraObject, everything: Selection, cuts: seq<Time>, hi: Time)
    requires Increasing(cuts) && (cuts != [] ==> cuts[|cuts| - 1] <= hi)
    ensures Ordered(Chunks(obj, everything, cuts), hi)
  {
    if |cuts| >= 2 {
      ChunksOrdered(obj, everything, cuts[..|cuts| - 1], cuts[|cuts| - 2]);
    }
  }

  /** The position of the stretch between cut points that `t` falls into. */
  lemma {:induction false} StretchOf(cuts: seq<Time>, t: Time) returns (k: nat)
    requires Increasing(cuts) && cuts != [] && cuts[0] <= t < cuts[|cuts| - 1]
    ensures k + 1 < |cuts| && cuts[k] <= t < cuts[k + 1]
  {
    if t < cuts[1] {
      k := 0;
    } else {
      k := StretchOf(cuts[1..], t);
      k := k + 1;
    }
  }

  lemma CutsAround(cuts: seq<Time>, from: Time, to: Time)
    requires Increasing(cuts) && from in cuts && to in cuts
    ensures cuts != [] && cuts[0] <= from && to <= cuts[|cuts| - 1]
  {
    var i :| 0 <= i < |cuts| && cuts[i] == from;
    var j :| 0 <= j < |cuts| && cuts[j] == to;
    assert i == 0 || cuts[0] < cuts[i];
    assert j == |cuts| - 1 || cuts[j] < cuts[|cuts| - 1];
  }

  lemma ListedMakesNonEmpty(obj: LoraObject, everything: Selection, start: Time, end: Time, group: string, key: string, e: Entry)
    requires Selects(everything, group, key) && e in ListOf(obj, group, key) && Overlaps(e, start, end)
    ensures NonEmpty(EffectAt(obj, everything, start, end))
  {
    var content := EffectAt(obj, everything, start, end);
    assert group in content && key in content[group];
    assert e in content[group][key];
  }

  /** Every instant at which a relevant entry is active lies in exactly one effect. */
  lemma ActiveInOneEffect(obj: LoraObject, relevant: Selection, additional: Selection, cuts: seq<Time>,
                          effects: seq<Effect>, e: Entry, t: Time)
    requires IsCutting(obj, relevant, additional, cuts, effects) && Has(obj, relevant, e) && Timeline.Covers(e, t)
    ensures exists i :: 0 <= i < |effects| && effects[i].start <= t < effects[i].end
    ensures forall i, j :: 0 <= i < j < |effects| ==>
              !(effects[i].start <= t < effects[i].end && effects[j].start <= t < effects[j].end)
  {
    var everything := Everything(relevant, additional);
    CutsAtEnds(obj, relevant, cuts, e);
    CutsAround(cuts, e.from, e.to);
    var k := StretchOf(cuts, t);
    var group, key :| Selects(relevant, group, key) && e in ListOf(obj, group, key);
    assert Selects(everything, group, key);
    ListedMakesNonEmpty(obj, everything, cuts[k], cuts[k + 1], group, key, e);
    InChunks(obj, everything, cuts, k);
    ChunksOrdered(obj, everything, cuts, cuts[|cuts| - 1]);
  }

  /** Within an effect a relevant entry is listed exactly if it is active at some
      instant of it, and then it is active at every instant of it. */
  lemma RelevantListed(obj: LoraObject, relevant: Selection, additional: Selection, cuts: seq<Time>,
                       effects: seq<Effect>, x: Effect, group: string, key: string, e: Entry)
    requires IsCutting(obj, relevant, additional, cuts, effects) && x in effects
    requires Selects(relevant, group, key) && e in ListOf(obj, group, key)
    ensures group in x.content && key in x.content[group]
    ensures e in x.content[group][key] <==> exists t :: x.start <= t < x.end && Timeline.Covers(e, t)
    ensures e in x.content[group][key] <==> forall t :: x.start <= t < x.end ==> Timeline.Covers(e, t)
  {
    var k := ListedInChunk(obj, Everything(relevant, additional), cuts, x, group, key, e);
    assert Has(obj, relevant, e);
    NoCutInside(obj, relevant, cuts, k, e);
    assert x.start < x.end;
    assert Overlaps(e, x.start, x.end) ==> Timeline.Covers(e, x.start);
    assert Timeline.Covers(e, x.start) ==> Overlaps(e, x.start, x.end);
  }

  lemma ListedIfOverlaps(obj: LoraObject, everything: Selection, start: Time, end: Time, group: string, key: string, e: Entry)
    requires Selects(everything, group, key) && e in ListOf(obj, group, key)
    ensures var content := EffectAt(obj, everything, start, end);
            group in content && key in content[group] && (e in content[group][key] <==> Overlaps(e, start, end))
  {}

  /** The stretch that a chunk covers, and when it lists an entry selected. */
  lemma ListedInChunk(obj: LoraObject, everything: Selection, cuts: seq<Time>, x: Effect, group: string, key: string, e: Entry)
      returns (k: nat)
    requires Increasing(cuts) && x in Chunks(obj, everything, cuts)
    requires Selects(everything, group, key) && e in ListOf(obj, group, key)
    ensures k + 1 < |cuts| && x.start == cuts[k] < x.end == cuts[k + 1]
    ensures group in x.content && key in x.content[group]
    ensures e in x.content[group][key] <==> Overlaps(e, x.start, x.end)
  {
    k := FromChunks(obj, everything, cuts, x);
    ListedIfOverlaps(obj, everything, x.start, x.end, group, key, e);
  }

  lemma OverlapsIfActive(e: Entry, start: Time, end: Time)
    requires start < end && e.from < e.to
    ensures Overlaps(e, start, end) <==> exists t :: start <= t < end && Timeline.Covers(e, t)
  {
    if Overlaps(e, start, end) {
      assert Timeline.Covers(e, Max(e.from, start));
    }
  }

  lemma NoCutInside(obj: LoraObject, relevant: Selection, cuts: seq<Time>, k: nat, e: Entry)
    requires Increasing(cuts) && (forall t :: CutOrNot(obj, relevant, cuts, t))
    requires k + 1 < |cuts| && Has(obj, relevant, e)
    ensures Overlaps(e, cuts[k], cuts[k + 1]) ==> e.from <= cuts[k] && cuts[k + 1] <= e.to
  {
    CutsAtEnds(obj, relevant, cuts, e);
    var i :| 0 <= i < |cuts| && cuts[i] == e.from;
    var j :| 0 <= j < |cuts| && cuts[j] == e.to;
    assert i <= k || i == k + 1 || cuts[k + 1] < cuts[i];
    assert j > k || j == k || cuts[j] < cuts[k];
  }

  /** An additional entry is listed exactly if it overlaps the effect; for a non-empty
      entry that is to be active at some instant of it. */
  lemma AdditionalListed(obj: LoraObject, relevant: Selection, additional: Selection, cuts: seq<Time>,
                         effects: seq<Effect>, x: Effect, group: string, key: string, e: Entry)
    requires IsCutting(obj, relevant, additional, cuts, effects) && x in effects
    requires Selects(additional, group, key) && e in ListOf(obj, group, key)
    ensures group in x.content && key in x.content[group]
    ensures e in x.content[group][key] <==> Overlaps(e, x.start, x.end)
    ensures e.from < e.to ==>
      (e in x.content[group][key] <==> exists t :: x.start <= t < x.end && Timeline.Covers(e, t))
  {
    var k := ListedInChunk(obj, Everything(relevant, additional), cuts, x, group, key, e);
    if e.from < e.to {
      OverlapsIfActive(e, x.start, x.end);
    }
  }

  /** Nothing else is listed. */
  lemma OnlySelectedListed(obj: LoraObject, relevant: Selection, additional: Selection, cuts: seq<Time>,
                           effects: seq<Effect>, x: Effect, group: string, key: string)
    requires IsCutting(obj, relevant, additional, cuts, effects) && x in effects
    requires group in x.content && key in x.content[group]
    ensures Selects(relevant, group, key) || Selects(additional, group, key)
    ensures forall e :: e in x.content[group][key] ==> e in ListOf(obj, group, key)
  {
    var k := FromChunks(obj, Everything(relevant, additional), cuts, x);
  }

  /** Some selected entry overlaps the stretch. */
  ghost predicate OverlapsSome(obj: LoraObject, relevant: Selection, additional: Selection, start: Time, end: Time) {
    exists group, key, e :: && (Selects(relevant, group, key) || Selects(additional, group, key))
                            && e in ListOf(obj, group, key) && e.from < end && start < e.to
  }

  lemma NonEmptyIf(obj: LoraObject, relevant: Selection, additional: Selection, start: Time, end: Time)
    ensures NonEmpty(EffectAt(obj, Everything(relevant, additional), start, end))
       <==> OverlapsSome(obj, relevant, additional, start, end)
  {
    var everything := Everything(relevant, additional);
    var content := EffectAt(obj, everything, start, end);
    if group, key :| group in content && key in content[group] && content[group][key] != [] {
      var e := content[group][key][0];
      assert e in content[group][key];
      ListOnly(obj, everything, start, end, group, key);
    }
    if group, key, e :| && (Selects(relevant, group, key) || Selects(additional, group, key))
                        && e in ListOf(obj, group, key) && e.from < end && start < e.to {
      assert Selects(everything, group, key);
      ListedMakesNonEmpty(obj, everything, start, end, group, key, e);
    }
  }

  /** There is an effect for a stretch between neighbouring cut points exactly if some
      selected entry overlaps the stretch; no effect is empty. */
  lemma EffectIfOverlap(obj: LoraObject, relevant: Selection, additional: Selection, cuts: seq<Time>,
                        effects: seq<Effect>, k: nat)
    requires IsCutting(obj, relevant, additional, cuts, effects) && k + 1 < |cuts|
    ensures (exists x :: x in effects && x.start == cuts[k] && x.end == cuts[k + 1])
       <==> OverlapsSome(obj, relevant, additional, cuts[k], cuts[k + 1])
  {
    var everything := Everything(relevant, additional);
    NonEmptyIf(obj, relevant, additional, cuts[k], cuts[k + 1]);
    if x :| x in effects && x.start == cuts[k] && x.end == cuts[k + 1] {
      var j := FromChunks(obj, everything, cuts, x);
      ChunkListsSome(obj, everything, cuts, x);
    }
    if OverlapsSome(obj, relevant, additional, cuts[k], cuts[k + 1]) {
      InChunks(obj, everything, cuts, k);
    }
  }

  lemma {:induction false} ChunkListsSome(obj: LoraObject, everything: Selection, cuts: seq<Time>, x: Effect)
    requires x in Chunks(obj, everything, cuts)
    ensures NonEmpty(x.content)
  {
    var n := |cuts|;
    if x in Chunks(obj, everything, cuts[..n - 1]) {
      ChunkListsSome(obj, everything, cuts[..n - 1], x);
    } else {
      assert x in Chunk(obj, everything, cuts[n - 2], cuts[n - 1]);
    }
  }

  lemma ListOnly(obj: LoraObject, everything: Selection, start: Time, end: Time, group: string, key: string)
    requires var content := EffectAt(obj, everything, start, end); group in content && key in content[group]
    ensures Selects(everything, group, key)
    ensures forall e :: e in EffectAt(obj, everything, start, end)[group][key] ==>
              e in ListOf(obj, group, key) && e.from < end && start < e.to
  {}

  /** The entries are listed in the object's order, as often as they occur there. */
  lemma {:induction false} FilterListAppend(a: seq<Entry>, b: seq<Entry>, start: Time, end: Time)
    ensures FilterList(a + b, start, end) == FilterList(a, start, end) + FilterList(b, start, end)
  {
    if a == [] {
      assert a + b == b;
    } else {
      assert (a + b)[1..] == a[1..] + b;
      FilterListAppend(a[1..], b, start, end);
      var first, rest, more := if Overlaps(a[0], start, end) then [a[0]] else [], FilterList(a[1..], start, end), FilterList(b, start, end);
      assert first + (rest + more) == (first + rest) + more;
    }
  }

  // ---- The connector's choice of effects -------------------------------------------

  datatype Validity = Past | Present | Future

  predicate Inside(t: Time, start: Time, end: Time) { start <= t < end }

  /** Whether the connector's window keeps an effect. */
  predicate IsRangeRelevant(validity: Validity, windowStart: Time, windowEnd: Time, start: Time, end: Time) {
    if validity.Present? then Max(windowStart, start) < Min(windowEnd, end)
    else start > windowStart && end <= windowEnd
  }

  /** Other windows keep the effects that lie within them and start after their start. */
  lemma OthersKeep(validity: Validity, windowStart: Time, windowEnd: Time, start: Time, end: Time)
    requires validity != Present && start < end
    ensures IsRangeRelevant(validity, windowStart, windowEnd, start, end)
       <==> forall t :: Inside(t, start, end) ==> windowStart < t < windowEnd
  {
    assert Inside(start, start, end) && Inside(end - 1, start, end);
  }

  /** A present window keeps the effect of every instant inside it. */
  lemma PresentKeeps(windowStart: Time, windowEnd: Time, start: Time, end: Time)
    ensures IsRangeRelevant(Present, windowStart, windowEnd, start, end)
       <==> exists t :: Inside(t, windowStart, windowEnd) && Inside(t, start, end)
  {
    if IsRangeRelevant(Present, windowStart, windowEnd, start, end) {
      assert Inside(Max(windowStart, start), windowStart, windowEnd);
    }
  }
}
