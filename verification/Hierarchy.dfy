/** Recursive queries over the organisation's parent relation, which may contain
    cycles: ancestors, descendants, and the inheritance of managers. */
module Hierarchy {
  import opened Prelude

  /** Units and managers are known by their UUIDs. */
  type Unit = string

  // ---- The tables -------------------------------------------------------

  datatype Registration = Registration(id: nat, unit: Unit, from: Time, to: Time, deleted: bool)

  /** A relation row of a registration; `isParent` tells `overordnet` from others. */
  datatype Relation = Relation(registration: nat, isParent: bool, target: Unit, from: Time, to: Time)

  /** A state row of a registration. */
  datatype Gyldighed = Gyldighed(registration: nat, active: bool, from: Time, to: Time)

  datatype Tables = Tables(registrations: set<Registration>, relations: set<Relation>, states: set<Gyldighed>)

  /** The dates of a filter: a registration time and an interval of validity. */
  datatype Dates = Dates(registrationTime: Time, from: Time, to: Time)

  predicate Registered(r: Registration, d: Dates) { !r.deleted && r.from <= d.registrationTime < r.to }

  predicate InForce(from: Time, to: Time, d: Dates) { from < d.to && d.from < to && from < to && d.from < d.to }

  type Edges = set<(Unit, Unit)>

  /** Child and parent, for all parent relations active at the dates. */
  function ParentEdges(t: Tables, d: Dates): Edges {
    set r, p | r in t.registrations && p in t.relations
      && p.registration == r.id && p.isParent && Registered(r, d) && InForce(p.from, p.to, d) :: (r.unit, p.target)
  }

  /** The units a filter can select at all. */
  function ActiveUnits(t: Tables, d: Dates): set<Unit> {
    set r, g | r in t.registrations && g in t.states
      && g.registration == r.id && g.active && Registered(r, d) && InForce(g.from, g.to, d) :: r.unit
  }

  function Inverse(edges: Edges): Edges { set e | e in edges :: (e.1, e.0) }

  // ---- Reachability ------------------------------------------------------

  ghost predicate IsPath(edges: Edges, p: seq<Unit>) {
    p != [] && forall i :: 0 <= i < |p| - 1 ==> (p[i], p[i + 1]) in edges
  }

  ghost predicate PathFrom(edges: Edges, p: seq<Unit>, u: Unit, v: Unit) {
    IsPath(edges, p) && p[0] == u && p[|p| - 1] == v
  }

  ghost predicate Reachable(edges: Edges, u: Unit, v: Unit) { exists p :: PathFrom(edges, p, u, v) }

  lemma ReachSelf(edges: Edges, u: Unit)
    ensures Reachable(edges, u, u)
  {
    assert PathFrom(edges, [u], u, u);
  }

  lemma ReachOn(edges: Edges, u: Unit, v: Unit, w: Unit)
    requires Reachable(edges, u, v) && (v, w) in edges
    ensures Reachable(edges, u, w)
  {
    var p :| PathFrom(edges, p, u, v);
    var q := p + [w];
    assert forall i :: 0 <= i < |q| - 1 ==> (q[i], q[i + 1]) in edges;
    assert PathFrom(edges, q, u, w);
  }

  lemma ReachBefore(edges: Edges, u: Unit, v: Unit, w: Unit)
    requires (u, v) in edges && Reachable(edges, v, w)
    ensures Reachable(edges, u, w)
  {
    var p :| PathFrom(edges, p, v, w);
    assert PathFrom(edges, [u] + p, u, w);
  }

  lemma ReachFirst(edges: Edges, u: Unit, w: Unit)
    requires Reachable(edges, u, w)
    ensures u == w || exists v :: (u, v) in edges && Reachable(edges, v, w)
  {
    var p :| PathFrom(edges, p, u, w);
    if |p| > 1 {
      assert PathFrom(edges, p[1..], p[1], w);
      assert (u, p[1]) in edges && Reachable(edges, p[1], w);
    }
  }

  ghost predicate Closed(edges: Edges, s: set<Unit>) { forall e :: e in edges && e.0 in s ==> e.1 in s }

  lemma {:induction false} ClosedHoldsPath(edges: Edges, s: set<Unit>, p: seq<Unit>)
    requires Closed(edges, s) && IsPath(edges, p) && p[0] in s
    ensures p[|p| - 1] in s
  {
    if |p| > 1 {
      assert (p[0], p[1]) in edges;
      ClosedHoldsPath(edges, s, p[1..]);
    }
  }

  // ---- The recursive query -------------------------------------------------

  function Successors(edges: Edges, s: set<Unit>): set<Unit> { set e | e in edges && e.0 in s :: e.1 }

  ghost predicate ReachedFrom(edges: Edges, base: set<Unit>, v: Unit) {
    exists u :: u in base && Reachable(edges, u, v)
  }

  /** A recursive common table expression with UNION: the step is applied to the rows
      that were new in the previous round, until a round brings none. It ends on any
      finite relation and yields the reflexive-transitive closure of the base. */
  method RecursiveUnion(edges: Edges, base: set<Unit>) returns (r: set<Unit>)
    ensures forall v :: v in r <==> ReachedFrom(edges, base, v)
  {
    r := base;
    var working := base;
    BaseReached(edges, base);
    while working != {}
      invariant base <= r && working <= r && AllReached(edges, base, r)
      invariant ClosedBut(edges, r, working)
      decreases Targets(edges) - r, |working|
    {
      var next := Successors(edges, working) - r;
      StepReached(edges, base, r, working, next);
      StepClosed(edges, r, working, next);
      StepShrinks(edges, r, working, next);
      r := r + next;
      working := next;
    }
    ClosedHasReached(edges, base, r);
  }

  ghost predicate AllReached(edges: Edges, base: set<Unit>, s: set<Unit>) {
    forall v :: v in s ==> ReachedFrom(edges, base, v)
  }

  lemma BaseReached(edges: Edges, base: set<Unit>)
    ensures AllReached(edges, base, base)
  {
    forall v | v in base
      ensures ReachedFrom(edges, base, v)
    {
      ReachSelf(edges, v);
    }
  }

  /** Where the relation can lead at all. */
  ghost function Targets(edges: Edges): set<Unit> { Successors(edges, set e | e in edges :: e.0) }

  /** All steps from units of `r`, other than those still to be worked on, stay in `r`. */
  ghost predicate ClosedBut(edges: Edges, r: set<Unit>, working: set<Unit>) {
    forall e :: e in edges && e.0 in r && e.0 !in working ==> e.1 in r
  }

  lemma StepClosed(edges: Edges, r: set<Unit>, working: set<Unit>, next: set<Unit>)
    requires ClosedBut(edges, r, working) && next == Successors(edges, working) - r
    ensures ClosedBut(edges, r + next, next)
  {}

  lemma ClosedHasReached(edges: Edges, base: set<Unit>, r: set<Unit>)
    requires base <= r && ClosedBut(edges, r, {}) && AllReached(edges, base, r)
    ensures forall v :: v in r <==> ReachedFrom(edges, base, v)
  {
    forall v | ReachedFrom(edges, base, v)
      ensures v in r
    {
      var u :| u in base && Reachable(edges, u, v);
      var p :| PathFrom(edges, p, u, v);
      ClosedHoldsPath(edges, r, p);
    }
  }

  lemma StepReached(edges: Edges, base: set<Unit>, r: set<Unit>, working: set<Unit>, next: set<Unit>)
    requires AllReached(edges, base, r) && working <= r && next <= Successors(edges, working)
    ensures AllReached(edges, base, r + next)
  {
    forall v | v in next
      ensures ReachedFrom(edges, base, v)
    {
      var e :| e in edges && e.0 in working && e.1 == v;
      assert ReachedFrom(edges, base, e.0);
      var u :| u in base && Reachable(edges, u, e.0);
      assert (e.0, e.1) in edges;
      ReachOn(edges, u, e.0, v);
    }
  }

  /** A round that brings something leaves less to bring; one that does not is the last. */
  lemma StepShrinks(edges: Edges, r: set<Unit>, working: set<Unit>, next: set<Unit>)
    requires next == Successors(edges, working) - r && working != {}
    ensures Targets(edges) - (r + next) < Targets(edges) - r || (r + next == r && |next| < |working|)
  {
    if next == {} {
      assert r + next == r;
    } else {
      var v :| v in next;
      assert v in Targets(edges) - r && v !in Targets(edges) - (r + next);
    }
  }

  // ---- Ancestors and descendants ----------------------------------------------

  /** Units with a descendant among those matching, themselves included: found by
      walking up from the matching units. */
  method SelectByDescendant(t: Tables, d: Dates, matching: set<Unit>) returns (r: set<Unit>)
    ensures forall u :: u in r <==> SelectedByDescendant(t, d, matching, u)
  {
    var ancestors := RecursiveUnion(ParentEdges(t, d), matching * ActiveUnits(t, d));
    r := ancestors * ActiveUnits(t, d);
  }

  /** Units with an ancestor among those matching: found by walking down. */
  method SelectByAncestor(t: Tables, d: Dates, matching: set<Unit>) returns (r: set<Unit>)
    ensures forall u :: u in r <==> SelectedByAncestor(t, d, matching, u)
  {
    var descendants := RecursiveUnion(Inverse(ParentEdges(t, d)), matching * ActiveUnits(t, d));
    r := descendants * ActiveUnits(t, d);
  }

  ghost predicate SelectedByDescendant(t: Tables, d: Dates, matching: set<Unit>, u: Unit) {
    u in ActiveUnits(t, d) && ReachedFrom(ParentEdges(t, d), matching * ActiveUnits(t, d), u)
  }

  ghost predicate SelectedByAncestor(t: Tables, d: Dates, matching: set<Unit>, u: Unit) {
    u in ActiveUnits(t, d) && ReachedFrom(Inverse(ParentEdges(t, d)), matching * ActiveUnits(t, d), u)
  }

  function Reversed(p: seq<Unit>): (r: seq<Unit>)
    ensures |r| == |p| && forall i :: 0 <= i < |p| ==> r[i] == p[|p| - 1 - i]
  {
    seq(|p|, i requires 0 <= i < |p| => p[|p| - 1 - i])
  }

  lemma ReachInverse(edges: Edges, u: Unit, v: Unit)
    requires Reachable(edges, u, v)
    ensures Reachable(Inverse(edges), v, u)
  {
    var p :| PathFrom(edges, p, u, v);
    var q := Reversed(p);
    forall i | 0 <= i < |q| - 1
      ensures (q[i], q[i + 1]) in Inverse(edges)
    {
      var j := |p| - 2 - i;
      assert (p[j], p[j + 1]) in edges;
    }
    assert PathFrom(Inverse(edges), q, v, u);
  }

  lemma InverseTwice(edges: Edges)
    ensures Inverse(Inverse(edges)) == edges
  {
    forall e
      ensures e in Inverse(Inverse(edges)) <==> e in edges
    {
      if e in edges {
        assert (e.1, e.0) in Inverse(edges);
        assert ((e.1, e.0).1, (e.1, e.0).0) == e;
      }
    }
  }

  /** Duality: for active units and the same dates, u is selected by having v as a
      descendant exactly if v is selected by having u as an ancestor. */
  lemma DescendantAncestorDual(t: Tables, d: Dates, u: Unit, v: Unit)
    requires u in ActiveUnits(t, d) && v in ActiveUnits(t, d)
    ensures SelectedByDescendant(t, d, {v}, u) <==> SelectedByAncestor(t, d, {u}, v)
    ensures SelectedByDescendant(t, d, {u}, u) && SelectedByAncestor(t, d, {u}, u)
  {
    var edges := ParentEdges(t, d);
    assert {v} * ActiveUnits(t, d) == {v} && {u} * ActiveUnits(t, d) == {u};
    if Reachable(edges, v, u) {
      ReachInverse(edges, v, u);
    }
    if Reachable(Inverse(edges), u, v) {
      ReachInverse(Inverse(edges), u, v);
      InverseTwice(edges);
    }
    ReachSelf(edges, u);
    ReachSelf(Inverse(edges), u);
  }

  // ---- Selection told from the rows ---------------------------------------------

  /** By a row of a live registration of the child, in force at some instant of the
      dates, the parent is the child's superior unit. */
  ghost predicate ChildOf(t: Tables, d: Dates, child: Unit, parent: Unit) {
    exists r, p :: RowOf(t, d, r, p, child, parent)
  }

  ghost predicate RowOf(t: Tables, d: Dates, r: Registration, p: Relation, child: Unit, parent: Unit) {
    && r in t.registrations && r.unit == child && !r.deleted && r.from <= d.registrationTime < r.to
    && p in t.relations && p.registration == r.id && p.isParent && p.target == parent
    && exists at :: Spans(p.from, p.to, at) && Spans(d.from, d.to, at)
  }

  predicate Spans(from: Time, to: Time, at: Time) { from <= at < to }

  lemma SharedInstant(from: Time, to: Time, d: Dates)
    ensures InForce(from, to, d) <==> exists at :: Spans(from, to, at) && Spans(d.from, d.to, at)
  {
    if InForce(from, to, d) {
      var at := Max(from, d.from);
      assert Spans(from, to, at) && Spans(d.from, d.to, at);
    }
  }

  lemma EdgeIsRow(t: Tables, d: Dates, child: Unit, parent: Unit)
    ensures (child, parent) in ParentEdges(t, d) <==> ChildOf(t, d, child, parent)
  {
    if (child, parent) in ParentEdges(t, d) {
      var r, p :| r in t.registrations && p in t.relations && p.registration == r.id && p.isParent
        && Registered(r, d) && InForce(p.from, p.to, d) && r.unit == child && p.target == parent;
      SharedInstant(p.from, p.to, d);
      assert RowOf(t, d, r, p, child, parent);
    }
    if r, p :| RowOf(t, d, r, p, child, parent) {
      SharedInstant(p.from, p.to, d);
    }
  }

  ghost predicate StateOf(t: Tables, d: Dates, r: Registration, g: Gyldighed, u: Unit) {
    && r in t.registrations && r.unit == u && !r.deleted && r.from <= d.registrationTime < r.to
    && g in t.states && g.registration == r.id && g.active
    && exists at :: Spans(g.from, g.to, at) && Spans(d.from, d.to, at)
  }

  /** A unit is active by a state row of a live registration of it. */
  lemma ActiveIs(t: Tables, d: Dates, u: Unit)
    ensures u in ActiveUnits(t, d) <==> exists r, g :: StateOf(t, d, r, g, u)
  {
    if u in ActiveUnits(t, d) {
      var r, g :| r in t.registrations && g in t.states && g.registration == r.id && g.active
        && Registered(r, d) && InForce(g.from, g.to, d) && r.unit == u;
      SharedInstant(g.from, g.to, d);
      assert StateOf(t, d, r, g, u);
    }
    if r, g :| StateOf(t, d, r, g, u) {
      SharedInstant(g.from, g.to, d);
    }
  }

  /** Units from the first up to the last, each a child of the next. */
  ghost predicate IsChain(t: Tables, d: Dates, c: seq<Unit>) {
    c != [] && forall i :: 0 <= i < |c| - 1 ==> ChildOf(t, d, c[i], c[i + 1])
  }

  lemma PathIsChain(t: Tables, d: Dates, c: seq<Unit>)
    ensures IsPath(ParentEdges(t, d), c) <==> IsChain(t, d, c)
  {
    forall i | 0 <= i < |c| - 1
      ensures (c[i], c[i + 1]) in ParentEdges(t, d) <==> ChildOf(t, d, c[i], c[i + 1])
    {
      EdgeIsRow(t, d, c[i], c[i + 1]);
    }
  }

  /** Selected by descendant are exactly the active units at the upper end of a chain
      that starts at an active unit that matches; rows of other kinds, of deleted or
      superseded registrations, and rows not in force, do not make for one. */
  lemma DescendantSelects(t: Tables, d: Dates, matching: set<Unit>, u: Unit)
    ensures SelectedByDescendant(t, d, matching, u) <==>
      && u in ActiveUnits(t, d)
      && exists c :: IsChain(t, d, c) && c[0] in matching && c[0] in ActiveUnits(t, d) && c[|c| - 1] == u
  {
    var edges := ParentEdges(t, d);
    if SelectedByDescendant(t, d, matching, u) {
      var v :| v in matching * ActiveUnits(t, d) && Reachable(edges, v, u);
      var c :| PathFrom(edges, c, v, u);
      PathIsChain(t, d, c);
    }
    if c :| && u in ActiveUnits(t, d) && IsChain(t, d, c)
            && c[0] in matching && c[0] in ActiveUnits(t, d) && c[|c| - 1] == u {
      PathIsChain(t, d, c);
      assert PathFrom(edges, c, c[0], u);
      assert Reachable(edges, c[0], u) && c[0] in matching * ActiveUnits(t, d);
    }
  }

  /** And by ancestor those at the lower end of a chain that ends at one that matches. */
  lemma AncestorSelects(t: Tables, d: Dates, matching: set<Unit>, u: Unit)
    ensures SelectedByAncestor(t, d, matching, u) <==>
      && u in ActiveUnits(t, d)
      && exists c :: IsChain(t, d, c) && c[0] == u && c[|c| - 1] in matching && c[|c| - 1] in ActiveUnits(t, d)
  {
    var edges := ParentEdges(t, d);
    if SelectedByAncestor(t, d, matching, u) {
      var v :| v in matching * ActiveUnits(t, d) && Reachable(Inverse(edges), v, u);
      ReachInverse(Inverse(edges), v, u);
      InverseTwice(edges);
      var c :| PathFrom(edges, c, u, v);
      PathIsChain(t, d, c);
    }
    if c :| && u in ActiveUnits(t, d) && IsChain(t, d, c)
            && c[0] == u && c[|c| - 1] in matching && c[|c| - 1] in ActiveUnits(t, d) {
      PathIsChain(t, d, c);
      assert PathFrom(edges, c, u, c[|c| - 1]);
      ReachInverse(edges, u, c[|c| - 1]);
      assert c[|c| - 1] in matching * ActiveUnits(t, d);
    }
  }

  /** So one row makes the parent selected by its child as descendant, and the child by
      its parent as ancestor. */
  lemma RowSelects(t: Tables, d: Dates, r: Registration, p: Relation, child: Unit, parent: Unit)
    requires child in ActiveUnits(t, d) && parent in ActiveUnits(t, d)
    requires r in t.registrations && p in t.relations && p.registration == r.id && p.isParent
    requires r.unit == child && p.target == parent && !r.deleted && r.from <= d.registrationTime < r.to
    requires p.from < p.to && d.from < d.to && p.from < d.to && d.from < p.to
    ensures SelectedByDescendant(t, d, {child}, parent) && SelectedByAncestor(t, d, {parent}, child)
  {
    SharedInstant(p.from, p.to, d);
    assert RowOf(t, d, r, p, child, parent);
    var c := [child, parent];
    assert IsChain(t, d, c);
    DescendantSelects(t, d, {child}, parent);
    AncestorSelects(t, d, {parent}, child);
  }

  // ---- Inheriting managers -----------------------------------------------------

  type Manager = string

  /** Managers matching the rest of the filter, and the unit each is attached to. */
  type Attachments = set<(Manager, Unit)>

  function Own(attached: Attachments, u: Unit): set<Manager> { set a | a in attached && a.1 == u :: a.0 }

  /** The walk leaves a unit for its parents only if the unit has no manager itself. */
  function Unmanaged(edges: Edges, attached: Attachments): Edges {
    set e | e in edges && Own(attached, e.0) == {}
  }

  /** The managers of all units on the walk up from the starting units. */
  method InheritedManagers(edges: Edges, attached: Attachments, start: set<Unit>) returns (r: set<Manager>)
    ensures forall m :: m in r <==> ManagesFor(edges, attached, start, m)
  {
    var walk := RecursiveUnion(Unmanaged(edges, attached), start);
    r := set a | a in attached && a.1 in walk :: a.0;
    forall m
      ensures m in r <==> ManagesFor(edges, attached, start, m)
    {
      if ManagesFor(edges, attached, start, m) {
        var u, w :| u in start && Reachable(Unmanaged(edges, attached), u, w) && (m, w) in attached;
        assert ReachedFrom(Unmanaged(edges, attached), start, w);
      }
      if m in r {
        var a :| a in attached && a.1 in walk && a.0 == m;
        assert ReachedFrom(Unmanaged(edges, attached), start, a.1);
        assert (m, a.1) in attached;
      }
    }
  }

  ghost predicate ManagesFor(edges: Edges, attached: Attachments, start: set<Unit>, m: Manager) {
    exists u, w :: u in start && Reachable(Unmanaged(edges, attached), u, w) && (m, w) in attached
  }

  /** A path on which no unit before the last has a manager. */
  ghost predicate UnmanagedPath(edges: Edges, attached: Attachments, p: seq<Unit>, u: Unit, w: Unit) {
    PathFrom(edges, p, u, w) && forall i, m :: 0 <= i < |p| - 1 ==> (m, p[i]) !in attached
  }

  lemma OwnIs(attached: Attachments, u: Unit, m: Manager)
    ensures m in Own(attached, u) <==> (m, u) in attached
  {
    if m in Own(attached, u) {
      var a :| a in attached && a.1 == u && a.0 == m;
      assert a == (m, u);
    }
    if (m, u) in attached {
      assert (m, u).0 == m && (m, u).1 == u;
    }
  }

  /** On any graph, cycles included: a manager is returned exactly if it sits on a unit
      reached from a starting unit by a path without managers on earlier units. */
  lemma ReturnedIffNearest(edges: Edges, attached: Attachments, start: set<Unit>, m: Manager)
    ensures ManagesFor(edges, attached, start, m)
       <==> exists u, w, p :: u in start && (m, w) in attached && UnmanagedPath(edges, attached, p, u, w)
  {
    if ManagesFor(edges, attached, start, m) {
      var u, w :| u in start && Reachable(Unmanaged(edges, attached), u, w) && (m, w) in attached;
      var p :| PathFrom(Unmanaged(edges, attached), p, u, w);
      forall i | 0 <= i < |p| - 1
        ensures (p[i], p[i + 1]) in edges && forall k :: (k, p[i]) !in attached
      {
        assert (p[i], p[i + 1]) in Unmanaged(edges, attached);
        forall k ensures (k, p[i]) !in attached { OwnIs(attached, p[i], k); }
      }
      assert UnmanagedPath(edges, attached, p, u, w);
    }
    if u, w, p :| u in start && (m, w) in attached && UnmanagedPath(edges, attached, p, u, w) {
      forall i | 0 <= i < |p| - 1
        ensures (p[i], p[i + 1]) in Unmanaged(edges, attached)
      {
        forall k ensures k !in Own(attached, p[i]) { OwnIs(attached, p[i], k); }
        assert Own(attached, p[i]) == {};
      }
      assert PathFrom(Unmanaged(edges, attached), p, u, w);
      assert Reachable(Unmanaged(edges, attached), u, w);
    }
  }

  /** No unit is its own ancestor. */
  ghost predicate NoCycle(edges: Edges) { forall e :: e in edges ==> !Reachable(edges, e.1, e.0) }

  /** The units above a unit. */
  ghost function Above(edges: Edges, u: Unit): set<Unit> {
    set v | v in Targets(edges) && exists e :: e in edges && e.0 == u && Reachable(edges, e.1, v)
  }

  lemma {:induction false} ReachJoin(edges: Edges, u: Unit, p: seq<Unit>)
    requires IsPath(edges, p) && Reachable(edges, u, p[0])
    ensures Reachable(edges, u, p[|p| - 1])
  {
    if |p| > 1 {
      assert (p[0], p[1]) in edges;
      ReachOn(edges, u, p[0], p[1]);
      ReachJoin(edges, u, p[1..]);
    }
  }

  lemma AboveParent(edges: Edges, e: (Unit, Unit))
    requires e in edges
    ensures Above(edges, e.1) <= Above(edges, e.0) && e.1 in Above(edges, e.0)
  {
    forall v | v in Above(edges, e.1)
      ensures v in Above(edges, e.0)
    {
      var f :| f in edges && f.0 == e.1 && Reachable(edges, f.1, v);
      assert (e.1, f.1) in edges;
      ReachBefore(edges, e.1, f.1, v);
    }
    ReachSelf(edges, e.1);
    assert e.1 in Targets(edges);
  }

  lemma Smaller(a: set<Unit>, b: set<Unit>, v: Unit)
    requires a <= b && v in b && v !in a
    ensures |a| < |b|
  {
    assert |b| == |a| + |b - a| by { assert a + (b - a) == b; }
    assert v in b - a;
  }

  /** Without cycles, fewer units are above the parent than above the child. */
  lemma AboveFalls(edges: Edges)
    requires NoCycle(edges)
    ensures forall e :: e in edges ==> |Above(edges, e.1)| < |Above(edges, e.0)|
  {
    forall e | e in edges
      ensures |Above(edges, e.1)| < |Above(edges, e.0)|
    {
      AboveParent(edges, e);
      assert e.1 !in Above(edges, e.1);
      Smaller(Above(edges, e.1), Above(edges, e.0), e.1);
    }
  }

  /** The recursive definition, on a relation without cycles: a unit's own managers if it
      has any, else those its parents have by the same rule. */
  ghost function Inherited(edges: Edges, attached: Attachments, u: Unit): set<Manager>
    requires NoCycle(edges)
    decreases |Above(edges, u)|
  {
    AboveFalls(edges);
    if Own(attached, u) != {} then Own(attached, u)
    else set e, m | e in edges && e.0 == u && m in Inherited(edges, attached, e.1) :: m
  }

  /** The walk from the unit gets to one that the manager is attached to. */
  ghost predicate WalkFinds(edges: Edges, attached: Attachments, u: Unit, m: Manager) {
    exists w :: Reachable(Unmanaged(edges, attached), u, w) && (m, w) in attached
  }

  lemma OwnIsFound(edges: Edges, attached: Attachments, u: Unit, m: Manager)
    requires Own(attached, u) != {}
    ensures WalkFinds(edges, attached, u, m) <==> m in Own(attached, u)
  {
    var up := Unmanaged(edges, attached);
    ReachSelf(up, u);
    if w :| Reachable(up, u, w) && (m, w) in attached {
      ReachFirst(up, u, w);
      assert w == u && (m, u).0 == m;
    }
    if m in Own(attached, u) {
      assert (m, u) in attached;
    }
  }

  lemma ParentsFind(edges: Edges, attached: Attachments, u: Unit, m: Manager)
    requires Own(attached, u) == {}
    ensures WalkFinds(edges, attached, u, m) <==> exists e :: e in edges && e.0 == u && WalkFinds(edges, attached, e.1, m)
  {
    var up := Unmanaged(edges, attached);
    if e :| e in edges && e.0 == u && WalkFinds(edges, attached, e.1, m) {
      var w :| Reachable(up, e.1, w) && (m, w) in attached;
      assert (u, e.1) in up;
      ReachBefore(up, u, e.1, w);
    }
    if w :| Reachable(up, u, w) && (m, w) in attached {
      assert m in Own(attached, w) by { assert (m, w).0 == m; }
      ReachFirst(up, u, w);
      var v :| (u, v) in up && Reachable(up, v, w);
      assert (u, v) in edges && WalkFinds(edges, attached, (u, v).1, m);
    }
  }

  lemma {:induction false} InheritedIsReached(edges: Edges, attached: Attachments, u: Unit, m: Manager)
    requires NoCycle(edges)
    ensures m in Inherited(edges, attached, u) <==> WalkFinds(edges, attached, u, m)
    decreases |Above(edges, u)|
  {
    if Own(attached, u) != {} {
      OwnIsFound(edges, attached, u, m);
    } else {
      ParentsFind(edges, attached, u, m);
      AboveFalls(edges);
      forall e | e in edges && e.0 == u
        ensures m in Inherited(edges, attached, e.1) <==> WalkFinds(edges, attached, e.1, m)
      {
        InheritedIsReached(edges, attached, e.1, m);
      }
    }
  }

  /** On a relation without cycles the walk returns exactly the union of the recursive
      definition over the starting units. */
  lemma WalkIsRecursiveDefinition(edges: Edges, attached: Attachments, start: set<Unit>, m: Manager)
    requires NoCycle(edges)
    ensures ManagesFor(edges, attached, start, m)
       <==> exists u :: u in start && m in Inherited(edges, attached, u)
  {
    forall u | u in start
      ensures m in Inherited(edges, attached, u) <==> WalkFinds(edges, attached, u, m)
    {
      InheritedIsReached(edges, attached, u, m);
    }
  }
}
