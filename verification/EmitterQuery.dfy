/** The bitemporal store as far as the event emitter reads it, and the query
    that decides which objects a run of the emitter announces. */
module EmitterQuery {
  import opened Prelude

  /** The validity period of one attribute, state or relation row. */
  datatype Row = Row(from: Time, to: Time)

  /** One registration of an object. Its period runs from `from` until the next
      registration of the object starts. `keys` are the routing keys it is
      announced under: the one of its table or, for an organisation function,
      one for each function name found on its attribute rows. */
  datatype Registration = Registration(from: Time, deleted: bool, keys: set<string>, rows: seq<Row>)

  type History = seq<Registration>

  /** Histories by the text of the object's UUID. */
  type Store = map<string, History>

  /** No registration period and no validity period is empty. */
  ghost predicate Wellformed(h: History) {
    && (forall i, j :: 0 <= i < j < |h| ==> h[i].from < h[j].from)
    && (forall k, i :: 0 <= k < |h| && 0 <= i < |h[k].rows| ==> h[k].rows[i].from < h[k].rows[i].to)
  }

  predicate Contains(h: History, k: nat, t: Time)
    requires k < |h|
  {
    h[k].from <= t && (k + 1 < |h| ==> t < h[k + 1].from)
  }

  // ---- What can be observed ----------------------------------------------

  /** The position of the registration current at `t`, or -1. */
  function Current(h: History, t: Time): (k: int)
    ensures -1 <= k < |h|
  {
    if h == [] then -1
    else if h[|h| - 1].from <= t then |h| - 1
    else Current(h[..|h| - 1], t)
  }

  /** The rows of a registration that are valid at `t`; a deleted object shows none. */
  function Active(r: Registration, t: Time): set<nat> {
    if r.deleted then {} else set i: nat | i < |r.rows| && r.rows[i].from <= t < r.rows[i].to
  }

  datatype View = Absent | Seen(registration: nat, active: set<nat>)

  function ViewAt(h: History, t: Time): View {
    var k := Current(h, t);
    if k < 0 then Absent else Seen(k, Active(h[k], t))
  }

  /** At `t` the object looks different from the instant before. */
  predicate Changed(h: History, t: Time) { ViewAt(h, t) != ViewAt(h, t - 1) }

  lemma {:induction false} CurrentContains(h: History, t: Time)
    requires Wellformed(h)
    ensures forall k: nat :: k < |h| ==> (Contains(h, k, t) <==> Current(h, t) == k)
    ensures Current(h, t) < 0 <==> (h == [] || t < h[0].from)
  {
    if h != [] && t < h[|h| - 1].from {
      var init := h[..|h| - 1];
      CurrentContains(init, t);
      forall k: nat | k < |h|
        ensures Contains(h, k, t) <==> Current(h, t) == k
      {
        if k < |init| {
          assert h[k] == init[k];
          if k + 1 == |init| { assert Contains(init, k, t) <== Contains(h, k, t); }
          else { assert Contains(init, k, t) <==> Contains(h, k, t); }
        }
      }
    }
  }

  lemma {:induction false} CurrentMonotone(h: History, t: Time, t': Time)
    requires t <= t'
    ensures Current(h, t) <= Current(h, t')
  {
    if h != [] && t' < h[|h| - 1].from {
      CurrentMonotone(h[..|h| - 1], t, t');
    }
  }

  // ---- The query ---------------------------------------------------------

  predicate Within(t: Time, lo: Time, hi: Time) { lo <= t <= hi }

  /** The registration starts in the window. */
  predicate Starts(h: History, key: string, lo: Time, hi: Time) {
    exists k :: 0 <= k < |h| && key in h[k].keys && Within(h[k].from, lo, hi)
  }

  predicate Crosses(rows: seq<Row>, lo: Time, hi: Time) {
    exists i :: 0 <= i < |rows| && (Within(rows[i].from, lo, hi) || Within(rows[i].to, lo, hi))
  }

  /** The registration current at the end of the window is not a deletion and
      one of its rows begins or ends in the window. */
  predicate TurnsOver(h: History, key: string, lo: Time, hi: Time) {
    exists k: nat :: k < |h| && key in h[k].keys && !h[k].deleted && Contains(h, k, hi) && Crosses(h[k].rows, lo, hi)
  }

  /** The object is among the result rows, under this routing key. */
  predicate Emits(h: History, key: string, lo: Time, hi: Time) {
    Starts(h, key, lo, hi) || TurnsOver(h, key, lo, hi)
  }

  /** The result of the query: pairs of a routing key and an object. */
  function Query(store: Store, lo: Time, hi: Time): set<(string, string)> {
    set o, k, key | o in store && 0 <= k < |store[o]| && key in store[o][k].keys && Emits(store[o], key, lo, hi)
      :: (key, o)
  }

  lemma InQuery(store: Store, lo: Time, hi: Time, key: string, o: string)
    ensures (key, o) in Query(store, lo, hi) <==> o in store && Emits(store[o], key, lo, hi)
  {
    if o in store && Emits(store[o], key, lo, hi) {
      if Starts(store[o], key, lo, hi) {
        var k :| 0 <= k < |store[o]| && key in store[o][k].keys && Within(store[o][k].from, lo, hi);
      } else {
        var k: nat :| k < |store[o]| && key in store[o][k].keys && Contains(store[o], k, hi);
      }
    }
  }

  // ---- The query announces the changes -------------------------------------

  lemma StartIsChange(h: History, k: nat)
    requires Wellformed(h) && k < |h|
    ensures Changed(h, h[k].from) && Current(h, h[k].from) == k
  {
    CurrentContains(h, h[k].from);
    CurrentContains(h, h[k].from - 1);
    assert Contains(h, k, h[k].from);
    assert !Contains(h, k, h[k].from - 1);
  }

  /** Inside a registration's period, the rows valid change exactly where a row
      of a registration that is not a deletion begins or ends. */
  lemma RowsChange(r: Registration, t: Time)
    requires forall i :: 0 <= i < |r.rows| ==> r.rows[i].from < r.rows[i].to
    ensures Active(r, t) != Active(r, t - 1) <==> !r.deleted && Crosses(r.rows, t, t)
  {
    if !r.deleted && Crosses(r.rows, t, t) {
      var i: nat :| i < |r.rows| && (Within(r.rows[i].from, t, t) || Within(r.rows[i].to, t, t));
      assert i in Active(r, t) <==> i !in Active(r, t - 1);
    } else if !r.deleted {
      forall i: nat | i < |r.rows|
        ensures i in Active(r, t) <==> i in Active(r, t - 1)
      {
        assert !Within(r.rows[i].from, t, t) && !Within(r.rows[i].to, t, t);
      }
    }
  }

  /** An object changes exactly where a registration starts, or a row of the current
      registration, unless that is a deletion, begins or ends. */
  lemma ChangeIs(h: History, t: Time)
    requires Wellformed(h)
    ensures Changed(h, t) <==>
      var k := Current(h, t);
      k >= 0 && (h[k].from == t || (h[k].from < t && !h[k].deleted && Crosses(h[k].rows, t, t)))
  {
    CurrentContains(h, t);
    CurrentContains(h, t - 1);
    var k := Current(h, t);
    if k >= 0 {
      assert Contains(h, k, t);
      if h[k].from < t {
        assert Contains(h, k, t - 1);
        RowsChange(h[k], t);
      } else {
        StartIsChange(h, k);
      }
    }
  }

  lemma CrossesAt(rows: seq<Row>, lo: Time, hi: Time, t: Time)
    requires Within(t, lo, hi) && Crosses(rows, t, t)
    ensures Crosses(rows, lo, hi)
  {
    var i :| 0 <= i < |rows| && (Within(rows[i].from, t, t) || Within(rows[i].to, t, t));
    assert Within(rows[i].from, lo, hi) || Within(rows[i].to, lo, hi);
  }

  /** A row of the current registration that begins or ends in the window makes
      for a change in the window: there, or at the later start of the registration. */
  lemma TurnIsChange(h: History, k: nat, lo: Time, hi: Time)
    requires Wellformed(h) && k < |h| && !h[k].deleted && Contains(h, k, hi) && Crosses(h[k].rows, lo, hi)
    ensures exists t :: Within(t, lo, hi) && Changed(h, t)
  {
    var rows := h[k].rows;
    var i :| 0 <= i < |rows| && (Within(rows[i].from, lo, hi) || Within(rows[i].to, lo, hi));
    var t := if Within(rows[i].from, lo, hi) then rows[i].from else rows[i].to;
    if t <= h[k].from {
      StartIsChange(h, k);
      assert Within(h[k].from, lo, hi);
    } else {
      CurrentContains(h, t);
      CurrentContains(h, t - 1);
      assert Contains(h, k, t) && Contains(h, k, t - 1);
      assert Within(rows[i].from, t, t) || Within(rows[i].to, t, t);
      RowsChange(h[k], t);
      assert Changed(h, t);
    }
  }

  /** What a window announces, for every history: under `key` the object is
      emitted exactly when a registration carrying the key starts in the window,
      or the registration current at its end carries the key and the object
      changed somewhere in the window. */
  lemma EmitsExactly(h: History, key: string, lo: Time, hi: Time)
    requires Wellformed(h)
    ensures Emits(h, key, lo, hi) <==>
      || Starts(h, key, lo, hi)
      || (&& Current(h, hi) >= 0 && key in h[Current(h, hi)].keys
          && exists t :: Within(t, lo, hi) && Changed(h, t))
  {
    CurrentContains(h, hi);
    var k := Current(h, hi);
    if TurnsOver(h, key, lo, hi) {
      var j: nat :| j < |h| && key in h[j].keys && !h[j].deleted && Contains(h, j, hi) && Crosses(h[j].rows, lo, hi);
      TurnIsChange(h, j, lo, hi);
    }
    if k >= 0 && key in h[k].keys && !Starts(h, key, lo, hi) {
      forall t | Within(t, lo, hi) && Changed(h, t)
        ensures TurnsOver(h, key, lo, hi)
      {
        NotStartedTurnsOver(h, key, lo, hi, t);
      }
    }
  }

  lemma NotStartedTurnsOver(h: History, key: string, lo: Time, hi: Time, t: Time)
    requires Wellformed(h) && Within(t, lo, hi) && Changed(h, t)
    requires Current(h, hi) >= 0 && key in h[Current(h, hi)].keys && !Starts(h, key, lo, hi)
    ensures TurnsOver(h, key, lo, hi)
  {
    UnstartedStillCurrent(h, key, lo, hi, t);
    CurrentContains(h, hi);
    ChangeIs(h, t);
    var k := Current(h, hi);
    assert Contains(h, k, hi) && !Within(h[k].from, lo, hi);
    CrossesAt(h[k].rows, lo, hi, t);
  }

  /** The key is on a registration that starts between `t` and the end of the window,
      or on the one current at `t` if that is still current at the end. */
  ghost predicate CarriedIn(h: History, key: string, t: Time, hi: Time) {
    || (exists k :: 0 <= k < |h| && key in h[k].keys && Within(h[k].from, t, hi))
    || (0 <= Current(h, t) == Current(h, hi) && key in h[Current(h, t)].keys)
  }

  /** A change in the window is announced under a key that is carried; a change on a
      registration that is replaced in the window is carried by a replacement. */
  lemma ChangeEmitted(h: History, key: string, lo: Time, hi: Time, t: Time)
    requires Wellformed(h) && Within(t, lo, hi) && Changed(h, t) && CarriedIn(h, key, t, hi)
    ensures Emits(h, key, lo, hi)
  {
    EmitsExactly(h, key, lo, hi);
    if k :| 0 <= k < |h| && key in h[k].keys && Within(h[k].from, t, hi) {
      assert Within(h[k].from, lo, hi);
    }
  }

  /** Nothing else is announced: under `key` exactly the objects with a change in the
      window for which the key is carried. */
  lemma EmittedIffCarried(h: History, key: string, lo: Time, hi: Time)
    requires Wellformed(h)
    ensures Emits(h, key, lo, hi) <==> exists t :: Within(t, lo, hi) && Changed(h, t) && CarriedIn(h, key, t, hi)
  {
    if t :| Within(t, lo, hi) && Changed(h, t) && CarriedIn(h, key, t, hi) {
      ChangeEmitted(h, key, lo, hi, t);
    }
    if Starts(h, key, lo, hi) {
      var k: nat :| k < |h| && key in h[k].keys && Within(h[k].from, lo, hi);
      StartIsChange(h, k);
      assert CarriedIn(h, key, h[k].from, hi);
    } else if Emits(h, key, lo, hi) {
      EmitsExactly(h, key, lo, hi);
      var t :| Within(t, lo, hi) && Changed(h, t);
      UnstartedStillCurrent(h, key, lo, hi, t);
    }
  }

  /** If no registration with the key starts in the window, the one current at its end
      is, with the key, current throughout. */
  lemma UnstartedStillCurrent(h: History, key: string, lo: Time, hi: Time, t: Time)
    requires Wellformed(h) && Within(t, lo, hi) && !Starts(h, key, lo, hi)
    requires Current(h, hi) >= 0 && key in h[Current(h, hi)].keys
    ensures Current(h, t) == Current(h, hi)
  {
    CurrentContains(h, hi);
    CurrentContains(h, t);
    var k := Current(h, hi);
    assert Contains(h, k, hi) && !Within(h[k].from, lo, hi);
    assert Contains(h, k, t);
  }

  /** For an object all of whose registrations carry the key, the window
      announces the object exactly if it changed in the window. */
  lemma EmittedIffChanged(h: History, key: string, lo: Time, hi: Time)
    requires Wellformed(h)
    requires forall k :: 0 <= k < |h| ==> key in h[k].keys
    ensures Emits(h, key, lo, hi) <==> exists t :: Within(t, lo, hi) && Changed(h, t)
  {
    EmitsExactly(h, key, lo, hi);
    if exists t :: Within(t, lo, hi) && Changed(h, t) {
      var t :| Within(t, lo, hi) && Changed(h, t);
      ChangeIs(h, t);
      CurrentMonotone(h, t, hi);
    }
    if Starts(h, key, lo, hi) {
      var k: nat :| k < |h| && key in h[k].keys && Within(h[k].from, lo, hi);
      StartIsChange(h, k);
    }
  }

  /** The registration starts in the window or is current at its end. */
  predicate Consulted(h: History, k: nat, lo: Time, hi: Time)
    requires k < |h|
  {
    Within(h[k].from, lo, hi) || k == Current(h, hi)
  }

  /** When the documented promise, an event for every change, is met: an object
      that changed in the window is announced under some key exactly if one of
      the registrations consulted carries a key. */
  lemma AnnouncedIff(h: History, lo: Time, hi: Time)
    requires Wellformed(h)
    requires exists t :: Within(t, lo, hi) && Changed(h, t)
    ensures (exists key :: Emits(h, key, lo, hi)) <==> (exists k: nat :: k < |h| && Consulted(h, k, lo, hi) && h[k].keys != {})
  {
    forall key | Emits(h, key, lo, hi)
      ensures exists k: nat :: k < |h| && Consulted(h, k, lo, hi) && h[k].keys != {}
    {
      EmitsExactly(h, key, lo, hi);
      if Starts(h, key, lo, hi) {
        var k: nat :| k < |h| && key in h[k].keys && Within(h[k].from, lo, hi);
        assert Consulted(h, k, lo, hi);
      } else {
        assert Consulted(h, Current(h, hi), lo, hi);
      }
    }
    forall k: nat | k < |h| && Consulted(h, k, lo, hi) && h[k].keys != {}
      ensures exists key :: Emits(h, key, lo, hi)
    {
      var key :| key in h[k].keys;
      EmitsExactly(h, key, lo, hi);
      assert Emits(h, key, lo, hi);
    }
  }

  /** Deleting an organisation function registers an empty object: no attribute
      rows, hence no function name to announce it under. */
  function DeletionOf(at: Time): Registration { Registration(at, true, {}, []) }

  /** So a deletion is not announced for its own sake: a window that includes it, or
      comes later, announces the object exactly if it also includes the start of an
      earlier registration with the key. */
  lemma FunctionDeletionAnnouncedIff(h: History, at: Time, lo: Time, hi: Time, key: string)
    requires Wellformed(h + [DeletionOf(at)]) && at <= hi
    ensures Changed(h + [DeletionOf(at)], at)
    ensures Emits(h + [DeletionOf(at)], key, lo, hi) <==> Starts(h, key, lo, hi)
  {
    var h' := h + [DeletionOf(at)];
    StartIsChange(h', |h|);
    CurrentContains(h', hi);
    assert Contains(h', |h|, hi);
    EmitsExactly(h', key, lo, hi);
    if Starts(h, key, lo, hi) {
      var k: nat :| k < |h| && key in h[k].keys && Within(h[k].from, lo, hi);
      assert h'[k] == h[k];
    }
    if Starts(h', key, lo, hi) {
      var k: nat :| k < |h'| && key in h'[k].keys && Within(h'[k].from, lo, hi);
      assert k < |h| && h[k] == h'[k];
    }
  }

  /** In particular never when the object was last written before the window. */
  lemma FunctionDeletionUnannounced(h: History, at: Time, lo: Time, hi: Time, key: string)
    requires Wellformed(h + [DeletionOf(at)]) && at <= hi && (h != [] ==> h[|h| - 1].from < lo)
    ensures Changed(h + [DeletionOf(at)], at) && !Emits(h + [DeletionOf(at)], key, lo, hi)
  {
    FunctionDeletionAnnouncedIff(h, at, lo, hi, key);
    assert forall k :: 0 <= k < |h| ==> (h + [DeletionOf(at)])[k] == h[k];
  }

  // ---- Later writes leave the past alone -----------------------------------

  lemma AppendKeepsView(h: History, r: Registration, t: Time)
    requires t < r.from
    ensures ViewAt(h + [r], t) == ViewAt(h, t)
  {
    assert (h + [r])[..|h|] == h;
  }
}
